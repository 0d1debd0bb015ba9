/**
 What saving and loading does to lookups when sections have right comments.  The right comment of a section has no
 line end, so that it swallows the next line: a comment, an item, or the header of the next section.
 */
module ConfigLookups {
  import opened ConfigText
  import opened ConfigFormat
  import opened ConfigRoundTrip
  import opened ConfigLoaded
  import opened ConfigEdit

  // ----- a saved text as a sequence of lines and glue -----

  datatype Token = Note(line: string) | Head(name: string) | Pair(item: Item) | Glue(rc: string)

  function LineOf(t: Token): (s: string)
    requires !t.Glue?
  {
    match t
    case Note(line) => line
    case Head(name) => "[" + name + "]"
    case Pair(item) => ItemLine(item)
  }

  function TokenText(t: Token): (s: string) { if t.Glue? then " #" + t.rc else LineOf(t) + "\n" }

  function Text(toks: seq<Token>): (s: string) {
    if toks == [] then "" else TokenText(toks[0]) + Text(toks[1..])
  }

  /** A line that adds to the pending comment only. */
  predicate QuietLine(line: string) {
    '\n' !in line && (Trim(line) == "" || Trim(line)[0] == '#')
  }

  predicate CleanToken(t: Token) {
    match t
    case Note(line) => QuietLine(line)
    case Head(name) => CleanName(name)
    case Pair(item) => CleanItem(item)
    case Glue(rc) => '\n' !in rc
  }

  ghost predicate CleanTokens(toks: seq<Token>) { forall i :: 0 <= i < |toks| ==> CleanToken(toks[i]) }

  function Heads(toks: seq<Token>): (names: seq<string>) {
    if toks == [] then [] else (if toks[0].Head? then [toks[0].name] else []) + Heads(toks[1..])
  }

  // ----- what the lines mean -----

  /** The section that items go to, and whether a right comment waits for the rest of its line. */
  datatype Cursor = Cursor(section: string, glued: bool)

  function Move(c: Cursor, t: Token): (d: Cursor) {
    match t
    case Glue(_) => Cursor(c.section, true)
    case Head(name) => Cursor(if c.glued then c.section else name, false)
    case _ => Cursor(c.section, false)
  }

  function Emit(c: Cursor, t: Token, n: string, k: string): (vs: seq<string>) {
    if t.Pair? && !c.glued && c.section == n && t.item.key == k then [t.item.value] else []
  }

  function Lookups(c: Cursor, toks: seq<Token>, n: string, k: string): (vs: seq<string>)
    decreases |toks|
  {
    if toks == [] then [] else Emit(c, toks[0], n, k) + Lookups(Move(c, toks[0]), toks[1..], n, k)
  }

  function Final(c: Cursor, toks: seq<Token>): (d: Cursor)
    decreases |toks|
  {
    if toks == [] then c else Final(Move(c, toks[0]), toks[1..])
  }

  lemma {:induction false} LookupsAppend(c: Cursor, a: seq<Token>, b: seq<Token>, n: string, k: string)
    ensures Lookups(c, a + b, n, k) == Lookups(c, a, n, k) + Lookups(Final(c, a), b, n, k)
    ensures Final(c, a + b) == Final(Final(c, a), b)
    decreases |a|
  {
    hide Emit, Move;
    if a == [] {
      assert a + b == b;
    } else {
      assert (a + b)[1..] == a[1..] + b;
      LookupsAppend(Move(c, a[0]), a[1..], b, n, k);
    }
  }

  lemma {:induction false} TextAppend(a: seq<Token>, b: seq<Token>)
    ensures Text(a + b) == Text(a) + Text(b)
  {
    hide TokenText;
    if a == [] {
      assert a + b == b;
    } else {
      assert (a + b)[1..] == a[1..] + b;
      TextAppend(a[1..], b);
    }
  }

  lemma {:induction false} HeadsAppend(a: seq<Token>, b: seq<Token>)
    ensures Heads(a + b) == Heads(a) + Heads(b)
  {
    if a == [] {
      assert a + b == b;
    } else {
      assert (a + b)[1..] == a[1..] + b;
      HeadsAppend(a[1..], b);
    }
  }

  // ----- loading them -----

  function Current(secs: seq<Section>): (name: string)
    requires secs != []
  {
    secs[|secs| - 1].name
  }

  /** A state of `Load` in which all is well; the pending comment may be anything. */
  ghost predicate Going(st: Loading) { st.sections != [] && st.err == RET_OK && DistinctNames(st.sections) }

  ghost predicate NewHeads(secs: seq<Section>, names: seq<string>) {
    && (forall i :: 0 <= i < |names| ==> !HasSection(secs, names[i]))
    && (forall i, j :: 0 <= i < j < |names| ==> names[i] != names[j])
  }

  lemma {:induction false} PushValues(secs: seq<Section>, item: Item, n: string, k: string)
    requires secs != [] && DistinctNames(secs)
    ensures Values(PushItem(secs, item), n, k)
         == Values(secs, n, k) + (if Current(secs) == n && item.key == k then [item.value] else [])
  {
    var pushed := PushItem(secs, item);
    if |secs| == 1 {
      ItemValuesSnoc(secs[0].items, item, k);
      assert secs[1..] == [] && pushed[1..] == [];
    } else {
      assert pushed[1..] == PushItem(secs[1..], item) && pushed[0] == secs[0];
      assert Current(secs[1..]) == Current(secs);
      PushValues(secs[1..], item, n, k);
      assert secs[0].name != Current(secs);
    }
  }

  lemma {:induction false} ItemValuesSnoc(items: seq<Item>, item: Item, k: string)
    ensures ItemValues(items + [item], k) == ItemValues(items, k) + (if item.key == k then [item.value] else [])
  {
    if items != [] {
      assert (items + [item])[1..] == items[1..] + [item];
      ItemValuesSnoc(items[1..], item, k);
    }
  }

  lemma QuietLoads(st: Loading, line: string)
    requires st.sections != [] && QuietLine(line)
    ensures var r := LoadLine(st, line); r.sections == st.sections && r.err == st.err
  {
  }

  /** One line that is not glued to a right comment. */
  lemma LoadToken(st: Loading, t: Token, n: string, k: string)
    requires Going(st) && CleanToken(t) && !t.Glue? && (t.Head? ==> !HasSection(st.sections, t.name))
    ensures var r, c := LoadLine(st, LineOf(t)), Cursor(Current(st.sections), false);
            && Going(r) && Current(r.sections) == Move(c, t).section
            && Values(r.sections, n, k) == Values(st.sections, n, k) + Emit(c, t, n, k)
            && (forall m :: HasSection(r.sections, m) ==> HasSection(st.sections, m) || (t.Head? && t.name == m))
  {
    match t
    case Note(line) =>
      hide LoadLine, Values;
      QuietLoads(st, line);
    case Head(name) =>
      hide LoadLine, Values;
      LoadHeader(st, name);
      ValuesSnoc(st.sections, Section(name, st.comment, "", []), n, k);
    case Pair(item) =>
      hide LoadLine, Values, CleanItem, ItemLine;
      LoadItemLine(st, item);
      PushValues(st.sections, item.(comment := st.comment), n, k);
  }

  lemma LoadAlone(st: Loading, line: string)
    requires st.sections != [] && st.err == RET_OK && '\n' !in line && line != ""
    ensures LoadText(st, line) == LoadLine(st, line)
  {
    hide LoadLine;
    NoLineEnd(line);
    assert line[..|line|] == line;
  }

  /** The text of a right comment that waits for the rest of its line. */
  function Waiting(glued: bool, x: string): (s: string) { if glued then " #" + x else "" }

  lemma NoLineEndIn(t: Token)
    requires CleanToken(t) && !t.Glue?
    ensures '\n' !in LineOf(t)
  {
    if t.Pair? {
      ItemLineIs(t.item);
    }
  }

  lemma HeadsStep(secs: seq<Section>, secs': seq<Section>, toks: seq<Token>)
    requires toks != [] && NewHeads(secs, Heads(toks))
    requires forall m :: HasSection(secs', m) ==> HasSection(secs, m) || (toks[0].Head? && toks[0].name == m)
    ensures NewHeads(secs', Heads(toks[1..]))
    ensures toks[0].Head? ==> !HasSection(secs, toks[0].name)
  {
    hide HasSection;
    var names, rest := Heads(toks), Heads(toks[1..]);
    if toks[0].Head? {
      assert names[0] == toks[0].name;
      assert forall i :: 0 <= i < |rest| ==> names[i + 1] == rest[i];
    } else {
      assert names == rest;
    }
  }

  lemma {:induction false} LoadTokens(st: Loading, glued: bool, x: string, toks: seq<Token>, n: string, k: string)
    requires Going(st) && '\n' !in x && CleanTokens(toks) && NewHeads(st.sections, Heads(toks))
    ensures var r := LoadText(st, Waiting(glued, x) + Text(toks));
            && r.err == RET_OK
            && Values(r.sections, n, k)
            == Values(st.sections, n, k) + Lookups(Cursor(Current(st.sections), glued), toks, n, k)
    decreases |toks|
  {
    hide LoadText, LoadLine, Values, CleanToken, NewHeads, DistinctNames, HasSection, Heads, Emit, TokenText;
    var c := Cursor(Current(st.sections), glued);
    if toks == [] {
      LoadLast(st, glued, x);
      assert Waiting(glued, x) + "" == Waiting(glued, x);
    } else {
      var t, rest := toks[0], toks[1..];
      HeadsStep(st.sections, st.sections, toks);
      if t.Glue? {
        var y := GlueOn(st, glued, x, t, Text(rest));
        LoadTokens(st, true, y, rest, n, k);
        NoEmit(c, t, n, k);
      } else {
        var st' := LoadOne(st, glued, x, t, Text(rest), n, k);
        HeadsStep(st.sections, st'.sections, toks);
        LoadTokens(st', false, "", rest, n, k);
        assert "" + Text(rest) == Text(rest);
        assert Values(st.sections, n, k) + Emit(c, t, n, k) + Lookups(Move(c, t), rest, n, k)
            == Values(st.sections, n, k) + (Emit(c, t, n, k) + Lookups(Move(c, t), rest, n, k));
      }
    }
  }

  lemma NoEmit(c: Cursor, t: Token, n: string, k: string)
    requires t.Glue?
    ensures Emit(c, t, n, k) == []
  {
  }

  lemma LoadLast(st: Loading, glued: bool, x: string)
    requires Going(st) && '\n' !in x
    ensures var r := LoadText(st, Waiting(glued, x)); r.sections == st.sections && r.err == RET_OK
  {
    if glued {
      hide LoadText, LoadLine;
      assert " #" + x == " #" + x + "";
      SignLineLoads(st, x, "");
      LoadAlone(st, " #" + x);
    }
  }

  lemma GlueOn(st: Loading, glued: bool, x: string, t: Token, rest: string) returns (y: string)
    requires '\n' !in x && CleanToken(t) && t.Glue?
    ensures '\n' !in y && Waiting(glued, x) + (TokenText(t) + rest) == Waiting(true, y) + rest
  {
    y := if glued then x + " #" + t.rc else t.rc;
    assert Waiting(glued, x) + TokenText(t) == " #" + y;
    Associative(Waiting(glued, x), TokenText(t), rest);
  }

  /** One line, with the right comment in front of it if one waits. */
  lemma LoadOne(st: Loading, glued: bool, x: string, t: Token, rest: string, n: string, k: string) returns (st': Loading)
    requires Going(st) && '\n' !in x && CleanToken(t) && !t.Glue? && (t.Head? ==> !HasSection(st.sections, t.name))
    ensures var c := Cursor(Current(st.sections), glued);
            && Going(st') && Cursor(Current(st'.sections), false) == Move(c, t)
            && LoadText(st, Waiting(glued, x) + (TokenText(t) + rest)) == LoadText(st', rest)
            && Values(st'.sections, n, k) == Values(st.sections, n, k) + Emit(c, t, n, k)
            && (forall m :: HasSection(st'.sections, m) ==> HasSection(st.sections, m) || (t.Head? && t.name == m))
  {
    hide LoadText, LoadLine, Values, CleanToken, DistinctNames, HasSection, LineOf;
    var line := Waiting(glued, x) + LineOf(t);
    NoLineEndIn(t);
    assert Waiting(glued, x) + (LineOf(t) + "\n" + rest) == line + "\n" + rest;
    LoadCons(st, line, rest);
    st' := LoadLine(st, line);
    if glued {
      SignLineLoads(st, x, LineOf(t));
      assert Values(st.sections, n, k) + [] == Values(st.sections, n, k);
    } else {
      assert line == LineOf(t);
      LoadToken(st, t, n, k);
    }
  }

  // ----- a configuration as such a sequence -----

  function NoteTokens(c: string): (toks: seq<Token>)
    requires Block(c)
    decreases |c|
  {
    if c == "" then [] else [Note(c[..Find(c, '\n')])] + NoteTokens(c[Find(c, '\n') + 1..])
  }

  function CommentTokens(c: string): (toks: seq<Token>)
    requires ItemComment(c)
  {
    if Block(c) then NoteTokens(c) else [Note(c)]
  }

  ghost function ItemTokens(items: seq<Item>): (toks: seq<Token>)
    requires CleanItems(items)
  {
    if items == [] then [] else assert CleanItem(items[0]); CommentTokens(items[0].comment) + [Pair(items[0])] + ItemTokens(items[1..])
  }

  function HeadTokens(sec: Section): (toks: seq<Token>) {
    (if sec.name != "" then [Head(sec.name)] else []) + (if sec.rightComment != "" then [Glue(sec.rightComment)] else [])
  }

  ghost function SectionTokens(sec: Section): (toks: seq<Token>)
    requires CleanSection(sec)
  {
    NoteTokens(sec.comment) + HeadTokens(sec) + ItemTokens(sec.items)
  }

  ghost function Tokens(secs: seq<Section>): (toks: seq<Token>)
    requires AllClean(secs)
  {
    if secs == [] then [] else SectionTokens(secs[0]) + Tokens(secs[1..])
  }

  /** Tokens that have the given text, are clean, and of which no head is new. */
  ghost predicate Spells(toks: seq<Token>, s: string, heads: seq<string>) {
    Text(toks) == s && CleanTokens(toks) && Heads(toks) == heads
  }

  lemma SpellsBoth(a: seq<Token>, s: string, h: seq<string>, b: seq<Token>, t: string, i: seq<string>)
    requires Spells(a, s, h) && Spells(b, t, i)
    ensures Spells(a + b, s + t, h + i)
  {
    hide Text, CleanToken, Heads;
    TextAppend(a, b);
    HeadsAppend(a, b);
  }

  lemma SpellsOne(t: Token)
    requires CleanToken(t)
    ensures Spells([t], TokenText(t), if t.Head? then [t.name] else [])
  {
    hide TokenText, CleanToken;
    assert [t][1..] == [] && Text([]) == "" && Heads([]) == [];
    assert Text([t]) == TokenText(t) + "" == TokenText(t);
    assert Heads([t]) == (if t.Head? then [t.name] else []) + [];
  }

  lemma SpellsNothing()
    ensures Spells([], "", [])
  {
  }

  lemma CommentIsQuiet(l: string)
    requires CommentLine(l)
    ensures QuietLine(l)
  {
    TrimTrimmed(l);
  }

  lemma NoteSpells(l: string)
    requires QuietLine(l)
    ensures Spells([Note(l)], l + "\n", [])
  {
    hide Spells, QuietLine;
    SpellsOne(Note(l));
  }

  lemma {:induction false} NotesSpell(c: string)
    requires Block(c)
    ensures Spells(NoteTokens(c), c, [])
    decreases |c|
  {
    hide Spells, CommentLine, QuietLine, Block, Find;
    if c == "" {
      SpellsNothing();
    } else {
      BlockParts(c);
      var i := Find(c, '\n');
      CommentIsQuiet(c[..i]);
      NotesSpell(c[i + 1..]);
      NoteSpells(c[..i]);
      SpellsBoth([Note(c[..i])], c[..i] + "\n", [], NoteTokens(c[i + 1..]), c[i + 1..], []);
      CutLine(c, i, "");
    }
  }

  lemma CommentSpells(c: string)
    requires ItemComment(c)
    ensures Spells(CommentTokens(c), EndLine(c), [])
  {
    hide Spells, Block, NoteTokens, EndLine;
    EndLineOfComment(c);
    if Block(c) {
      NotesSpell(c);
    } else {
      TrimKeepsHead(c);
      NoteSpells(c);
    }
  }

  lemma PairSpells(item: Item)
    requires CleanItem(item)
    ensures Spells([Pair(item)], EndLine(ItemLine(item)), [])
  {
    ItemLineIs(item);
    assert EndLine(ItemLine(item)) == ItemLine(item) + "\n";
    hide Spells, ItemLine, CleanItem;
    SpellsOne(Pair(item));
  }

  lemma {:induction false} ItemsSpell(items: seq<Item>)
    requires CleanItems(items)
    ensures Spells(ItemTokens(items), SaveItems(items), [])
  {
    hide Spells, CommentTokens, ItemLine, EndLine, Block;
    if items == [] {
      SpellsNothing();
    } else {
      var item, none: seq<string> := items[0], [];
      assert CleanItem(item) && none + none == none;
      CommentSpells(item.comment);
      PairSpells(item);
      SpellsBoth(CommentTokens(item.comment), EndLine(item.comment), [], [Pair(item)], EndLine(ItemLine(item)), []);
      ItemsSpell(items[1..]);
      SpellsBoth(CommentTokens(item.comment) + [Pair(item)], SaveItem(item), [], ItemTokens(items[1..]), SaveItems(items[1..]), []);
    }
  }

  function NameOf(sec: Section): (names: seq<string>) { if sec.name != "" then [sec.name] else [] }

  lemma HeadSpells(sec: Section)
    requires CleanSection(sec)
    ensures Spells(HeadTokens(sec), Header(sec), NameOf(sec))
  {
    hide Spells, Block, CleanItem, CleanName, Text, Heads;
    SpellsNothing();
    if sec.name != "" {
      SpellsOne(Head(sec.name));
      assert TokenText(Head(sec.name)) == "[" + sec.name + "]\n";
    }
    if sec.rightComment != "" {
      SpellsOne(Glue(sec.rightComment));
    }
    var a := if sec.name != "" then [Head(sec.name)] else [];
    var b := if sec.rightComment != "" then [Glue(sec.rightComment)] else [];
    var s := if sec.name != "" then "[" + sec.name + "]\n" else "";
    var t := if sec.rightComment != "" then " #" + sec.rightComment else "";
    SpellsBoth(a, s, NameOf(sec), b, t, []);
    assert NameOf(sec) + [] == NameOf(sec);
  }

  lemma SectionSpells(sec: Section)
    requires CleanSection(sec)
    ensures Spells(SectionTokens(sec), SaveSection(sec), NameOf(sec))
  {
    hide Spells, Header, HeadTokens, ItemTokens, NoteTokens, SaveItems, Block, CleanItem;
    NotesSpell(sec.comment);
    HeadSpells(sec);
    ItemsSpell(sec.items);
    SpellsBoth(NoteTokens(sec.comment), sec.comment, [], HeadTokens(sec), Header(sec), NameOf(sec));
    assert [] + NameOf(sec) + [] == NameOf(sec) == [] + NameOf(sec);
    SpellsBoth(NoteTokens(sec.comment) + HeadTokens(sec), sec.comment + Header(sec), NameOf(sec),
               ItemTokens(sec.items), SaveItems(sec.items), []);
  }

  function NamesOf(secs: seq<Section>): (names: seq<string>) {
    if secs == [] then [] else NameOf(secs[0]) + NamesOf(secs[1..])
  }

  lemma {:induction false} TokensSpell(secs: seq<Section>)
    requires AllClean(secs)
    ensures Spells(Tokens(secs), Save(secs), NamesOf(secs))
  {
    hide Spells, SectionTokens, SaveSection, CleanSection, NameOf;
    if secs == [] {
      SpellsNothing();
    } else {
      SectionSpells(secs[0]);
      TokensSpell(secs[1..]);
      SpellsBoth(SectionTokens(secs[0]), SaveSection(secs[0]), NameOf(secs[0]), Tokens(secs[1..]), Save(secs[1..]), NamesOf(secs[1..]));
    }
  }

  lemma {:induction false} NamedNames(secs: seq<Section>)
    requires AllNamed(secs)
    ensures |NamesOf(secs)| == |secs| && forall i :: 0 <= i < |secs| ==> NamesOf(secs)[i] == secs[i].name
  {
    if secs != [] {
      NamedNames(secs[1..]);
    }
  }

  lemma NamesAreNew(secs: seq<Section>)
    requires CleanConfig(secs)
    ensures NewHeads([UNNAMED], NamesOf(secs))
  {
    hide CleanSection, HasSection;
    if secs != [] {
      CleanTail(secs);
      if secs[0].name == "" {
        assert NamesOf(secs) == NamesOf(secs[1..]);
        NewNamed(secs[1..]);
      } else {
        NewNamed(secs);
      }
    }
  }

  lemma NewNamed(secs: seq<Section>)
    requires AllNamed(secs) && DistinctNames(secs)
    ensures NewHeads([UNNAMED], NamesOf(secs))
  {
    hide NamesOf;
    NamedNames(secs);
  }

  // ----- what is left of each section -----

  /** The first item is lost if a right comment stands before it and no comment of its own. */
  function ItemsLeft(sec: Section): (items: seq<Item>) {
    if sec.rightComment != "" && sec.items != [] && sec.items[0].comment == "" then sec.items[1..] else sec.items
  }

  /** The header is lost if a right comment stands before it and no comment of its own. */
  function SectionLeft(c: Cursor, sec: Section): (name: string) {
    if c.glued && sec.comment == "" then c.section else sec.name
  }

  function CursorAfter(c: Cursor, sec: Section): (d: Cursor) {
    Cursor(SectionLeft(c, sec), sec.rightComment != "" && sec.items == [])
  }

  function Left(c: Cursor, secs: seq<Section>, n: string, k: string): (vs: seq<string>)
    decreases |secs|
  {
    if secs == [] then []
    else (if SectionLeft(c, secs[0]) == n then ItemValues(ItemsLeft(secs[0]), k) else [])
         + Left(CursorAfter(c, secs[0]), secs[1..], n, k)
  }

  lemma {:induction false} NotesLook(c: Cursor, s: string, n: string, k: string)
    requires Block(s)
    ensures Lookups(c, NoteTokens(s), n, k) == []
    ensures Final(c, NoteTokens(s)) == if s == "" then c else c.(glued := false)
    decreases |s|
  {
    if s != "" {
      BlockParts(s);
      hide Block;
      var more := s[Find(s, '\n') + 1..];
      assert NoteTokens(s)[1..] == NoteTokens(more);
      NotesLook(c.(glued := false), more, n, k);
    }
  }

  lemma CommentLooks(c: Cursor, s: string, n: string, k: string)
    requires ItemComment(s)
    ensures Lookups(c, CommentTokens(s), n, k) == []
    ensures Final(c, CommentTokens(s)) == if s == "" then c else c.(glued := false)
  {
    if Block(s) {
      NotesLook(c, s, n, k);
    } else {
      assert [Note(s)][1..] == [];
    }
  }

  lemma OneLooks(c: Cursor, t: Token, n: string, k: string)
    ensures Lookups(c, [t], n, k) == Emit(c, t, n, k) && Final(c, [t]) == Move(c, t)
  {
    assert [t][1..] == [];
  }

  lemma ItemLooks(c: Cursor, item: Item, n: string, k: string)
    requires CleanItem(item)
    ensures var toks := CommentTokens(item.comment) + [Pair(item)];
            && Lookups(c, toks, n, k)
            == (if (c.glued && item.comment == "") || c.section != n || item.key != k then [] else [item.value])
            && Final(c, toks) == c.(glued := false)
  {
    hide CommentTokens, Lookups, Final, Block;
    CommentLooks(c, item.comment, n, k);
    LookupsAppend(c, CommentTokens(item.comment), [Pair(item)], n, k);
    OneLooks(Final(c, CommentTokens(item.comment)), Pair(item), n, k);
  }

  lemma {:induction false} ItemsLook(c: Cursor, items: seq<Item>, n: string, k: string)
    requires CleanItems(items)
    ensures var lost := c.glued && items != [] && items[0].comment == "";
            Lookups(c, ItemTokens(items), n, k) ==
            if c.section == n then ItemValues(if lost then items[1..] else items, k) else []
    ensures Final(c, ItemTokens(items)) == if items == [] then c else c.(glued := false)
    decreases |items|
  {
    if items != [] {
      var item, toks := items[0], CommentTokens(items[0].comment) + [Pair(items[0])];
      var d := c.(glued := false);
      ItemsLook(d, items[1..], n, k);
      ItemLooks(c, item, n, k);
      LookupsAppend(c, toks, ItemTokens(items[1..]), n, k);
      hide Lookups, Final, CommentTokens, CleanItem;
      assert [] + ItemValues(items[1..], k) == ItemValues(items[1..], k);
    }
  }

  lemma HeadLooks(c: Cursor, sec: Section, n: string, k: string)
    requires sec.name == "" ==> sec.rightComment == "" && c == Cursor("", false)
    ensures Lookups(c, HeadTokens(sec), n, k) == []
    ensures Final(c, HeadTokens(sec)) == Cursor(if c.glued then c.section else sec.name, sec.rightComment != "")
  {
    var a := if sec.name != "" then [Head(sec.name)] else [];
    var b := if sec.rightComment != "" then [Glue(sec.rightComment)] else [];
    LookupsAppend(c, a, b, n, k);
    if sec.name != "" {
      OneLooks(c, Head(sec.name), n, k);
    }
    if sec.rightComment != "" {
      OneLooks(Final(c, a), Glue(sec.rightComment), n, k);
    }
  }

  lemma SectionLooks(c: Cursor, sec: Section, n: string, k: string)
    requires CleanSection(sec) && (sec.name == "" ==> c == Cursor("", false))
    ensures Lookups(c, SectionTokens(sec), n, k)
         == if SectionLeft(c, sec) == n then ItemValues(ItemsLeft(sec), k) else []
    ensures Final(c, SectionTokens(sec)) == CursorAfter(c, sec)
  {
    hide Lookups, Final, NoteTokens, HeadTokens, ItemTokens, Block, CleanItem, ItemValues;
    var notes, head, items := NoteTokens(sec.comment), HeadTokens(sec), ItemTokens(sec.items);
    NotesLook(c, sec.comment, n, k);
    var c1 := Final(c, notes);
    HeadLooks(c1, sec, n, k);
    var c2 := Final(c1, head);
    ItemsLook(c2, sec.items, n, k);
    LookupsAppend(c, notes, head, n, k);
    LookupsAppend(c, notes + head, items, n, k);
  }

  lemma {:induction false} LeftIs(c: Cursor, secs: seq<Section>, n: string, k: string)
    requires AllClean(secs) && (c == Cursor("", false) || AllNamed(secs)) && (secs == [] || AllNamed(secs[1..]))
    ensures Lookups(c, Tokens(secs), n, k) == Left(c, secs, n, k)
    decreases |secs|
  {
    hide CleanSection, SectionTokens, SectionLeft, CursorAfter, ItemsLeft, ItemValues;
    if secs != [] {
      SectionLooks(c, secs[0], n, k);
      LookupsAppend(c, SectionTokens(secs[0]), Tokens(secs[1..]), n, k);
      LeftIs(CursorAfter(c, secs[0]), secs[1..], n, k);
      hide Lookups;
    }
  }

  /** What every lookup gives after saving and loading a clean configuration. */
  lemma LookupsAfterReload(secs: seq<Section>, n: string, k: string)
    requires CleanConfig(secs)
    ensures Load(Save(secs)).err == RET_OK
    ensures Values(Load(Save(secs)).sections, n, k) == Left(Cursor("", false), secs, n, k)
  {
    hide CleanSection, LoadText, Lookups, Tokens, Left, NewHeads, CleanToken;
    TokensSpell(secs);
    NamesAreNew(secs);
    var st := Idle([UNNAMED]);
    assert Waiting(false, "") + Save(secs) == Save(secs);
    LoadTokens(st, false, "", Tokens(secs), n, k);
    LeftIs(Cursor("", false), secs, n, k);
    assert Values([UNNAMED], n, k) == [];
  }

  // ----- when nothing is lost -----

  /** The right comment of section `i` swallows nothing that a lookup could find. */
  predicate Harmless(secs: seq<Section>, i: nat)
    requires i < |secs|
  {
    secs[i].rightComment == ""
    || if secs[i].items != [] then secs[i].items[0].comment != ""
       else i + 1 == |secs| || secs[i + 1].comment != "" || secs[i + 1].items == []
  }

  ghost predicate AllHarmless(secs: seq<Section>) { forall i :: 0 <= i < |secs| ==> Harmless(secs, i) }

  /** Nothing is lost at the first header either, when a right comment waits. */
  predicate HarmlessStart(c: Cursor, secs: seq<Section>) {
    c.glued && secs != [] ==> secs[0].comment != "" || secs[0].items == []
  }

  lemma HarmlessCons(secs: seq<Section>)
    requires secs != []
    ensures AllHarmless(secs) <==> Harmless(secs, 0) && AllHarmless(secs[1..])
  {
    forall i | 0 <= i < |secs| - 1 ensures Harmless(secs[1..], i) == Harmless(secs, i + 1) {
      assert i + 2 < |secs| ==> secs[1..][i + 1] == secs[i + 2];
    }
    if AllHarmless(secs) {
      forall i | 0 <= i < |secs| - 1 ensures Harmless(secs[1..], i) {
        assert Harmless(secs, i + 1);
      }
    }
    if Harmless(secs, 0) && AllHarmless(secs[1..]) {
      forall i | 0 <= i < |secs| ensures Harmless(secs, i) {
        assert i > 0 ==> Harmless(secs[1..], i - 1);
      }
    }
  }

  ghost predicate Elsewhere(n: string, secs: seq<Section>) { forall i :: 0 <= i < |secs| ==> secs[i].name != n }

  lemma {:induction false} NothingElsewhere(secs: seq<Section>, n: string, k: string)
    requires Elsewhere(n, secs)
    ensures Values(secs, n, k) == []
  {
    if secs != [] {
      NothingElsewhere(secs[1..], n, k);
    }
  }

  lemma {:induction false} LeftElsewhere(c: Cursor, secs: seq<Section>, n: string, k: string)
    requires Elsewhere(n, secs) && (c.section == n ==> !c.glued)
    ensures Left(c, secs, n, k) == []
    decreases |secs|
  {
    if secs != [] {
      LeftElsewhere(CursorAfter(c, secs[0]), secs[1..], n, k);
    }
  }

  lemma {:induction false} HarmlessKeeps(c: Cursor, secs: seq<Section>, n: string, k: string)
    requires DistinctNames(secs) && AllHarmless(secs) && HarmlessStart(c, secs)
    ensures Left(c, secs, n, k) == Values(secs, n, k)
    decreases |secs|
  {
    if secs != [] {
      var sec, rest, d := secs[0], secs[1..], CursorAfter(c, secs[0]);
      HarmlessCons(secs);
      assert Harmless(secs, 0);
      HarmlessKeeps(d, rest, n, k);
      if sec.name == n {
        NothingElsewhere(rest, n, k);
      }
    }
  }

  /** A lookup that comes out wrong: in a section of `secs`, not in the one that items go to before it. */
  lemma {:induction false} HarmfulLoses(c: Cursor, secs: seq<Section>) returns (n: string, k: string)
    requires DistinctNames(secs) && !(AllHarmless(secs) && HarmlessStart(c, secs))
    requires c.glued ==> Elsewhere(c.section, secs)
    ensures Left(c, secs, n, k) != Values(secs, n, k) && !Elsewhere(n, secs)
    decreases |secs|
  {
    var sec, rest, d := secs[0], secs[1..], CursorAfter(c, secs[0]);
    HarmlessCons(secs);
    if !HarmlessStart(c, secs) {
      n, k := sec.name, sec.items[0].key;
      HeaderLost(c, secs);
    } else if sec.rightComment != "" && sec.items != [] && sec.items[0].comment == "" {
      n, k := sec.name, sec.items[0].key;
      ItemLost(c, secs);
    } else {
      RestHarmful(c, secs);
      n, k := HarmfulLoses(d, rest);
      assert SectionLeft(c, sec) != n && sec.name != n by { NameElsewhere(c, secs, n); }
      assert [] + Left(d, rest, n, k) == Left(d, rest, n, k);
    }
  }

  lemma NameElsewhere(c: Cursor, secs: seq<Section>, n: string)
    requires DistinctNames(secs) && secs != [] && !Elsewhere(n, secs[1..]) && (c.glued ==> Elsewhere(c.section, secs))
    ensures SectionLeft(c, secs[0]) != n && secs[0].name != n && !Elsewhere(n, secs)
  {
    var i :| 0 <= i < |secs| - 1 && secs[1..][i].name == n;
    assert secs[i + 1].name == n;
  }

  lemma RestHarmful(c: Cursor, secs: seq<Section>)
    requires secs != [] && DistinctNames(secs) && (c.glued ==> Elsewhere(c.section, secs)) && HarmlessStart(c, secs)
    requires !AllHarmless(secs) && !(secs[0].rightComment != "" && secs[0].items != [] && secs[0].items[0].comment == "")
    ensures var d := CursorAfter(c, secs[0]);
            !(AllHarmless(secs[1..]) && HarmlessStart(d, secs[1..])) && Elsewhere(d.section, secs[1..])
  {
    HarmlessCons(secs);
    hide AllHarmless;
    forall i | 0 <= i < |secs| - 1 ensures secs[1..][i].name != CursorAfter(c, secs[0]).section {
      assert secs[i + 1].name != secs[0].name;
    }
  }

  lemma HeaderLost(c: Cursor, secs: seq<Section>)
    requires DistinctNames(secs) && !HarmlessStart(c, secs) && Elsewhere(c.section, secs)
    ensures secs != [] && secs[0].items != []
    ensures var n, k := secs[0].name, secs[0].items[0].key; Left(c, secs, n, k) != Values(secs, n, k) && !Elsewhere(n, secs)
  {
    var n, k, d := secs[0].name, secs[0].items[0].key, CursorAfter(c, secs[0]);
    LeftElsewhere(d, secs[1..], n, k);
  }

  lemma ItemLost(c: Cursor, secs: seq<Section>)
    requires secs != [] && DistinctNames(secs) && HarmlessStart(c, secs)
    requires secs[0].rightComment != "" && secs[0].items != [] && secs[0].items[0].comment == ""
    ensures var n, k := secs[0].name, secs[0].items[0].key; Left(c, secs, n, k) != Values(secs, n, k) && !Elsewhere(n, secs)
  {
    var n, k, d := secs[0].name, secs[0].items[0].key, CursorAfter(c, secs[0]);
    LeftElsewhere(d, secs[1..], n, k);
    assert ItemValues(secs[0].items, k) == [secs[0].items[0].value] + ItemValues(secs[0].items[1..], k);
  }

  /**
   For every clean configuration: every lookup is the same after saving and loading, if and only if no section
   right comment is followed by an item, or by the header of a section that has items, without a comment between.
   */
  lemma LookupsSurvive(secs: seq<Section>)
    requires CleanConfig(secs)
    ensures (forall n, k :: Values(Load(Save(secs)).sections, n, k) == Values(secs, n, k)) <==> AllHarmless(secs)
  {
    hide AllClean, Load, Save, AllHarmless, Left;
    var c, reloaded := Cursor("", false), Load(Save(secs)).sections;
    if AllHarmless(secs) {
      forall n, k ensures Values(reloaded, n, k) == Values(secs, n, k) {
        LookupsAfterReload(secs, n, k);
        HarmlessKeeps(c, secs, n, k);
      }
    } else {
      var n, k := HarmfulLoses(c, secs);
      LookupsAfterReload(secs, n, k);
    }
  }

  /** The same after any run of loads, sets with clean arguments and deletions from an empty configuration. */
  lemma EditedLookupsSurvive(ops: seq<Op>)
    requires forall i :: 0 <= i < |ops| ==> CleanOp(ops[i])
    ensures var secs := Run([], ops);
            (forall n, k :: Values(Load(Save(secs)).sections, n, k) == Values(secs, n, k)) <==> AllHarmless(secs)
  {
    RunClean([], ops);
    LookupsSurvive(Run([], ops));
  }
}
