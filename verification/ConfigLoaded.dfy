/** What `Load` produces is clean, so that it survives saving; exactly when it does. */
module ConfigLoaded {
  import opened ConfigText
  import opened ConfigFormat
  import opened ConfigRoundTrip

  // ----- pending comments -----

  lemma BlockCons(l: string, more: string)
    requires CommentLine(l) && Block(more)
    ensures Block(l + "\n" + more)
  {
    var c := l + "\n" + more;
    FindAt(l, '\n', more);
    assert c[..|l|] == l && c[|l| + 1..] == more;
  }

  lemma {:induction false} BlockAppend(a: string, b: string)
    requires Block(a) && Block(b)
    ensures Block(a + b)
    decreases |a|
  {
    hide Block, CommentLine, Find;
    if a == "" {
      assert a + b == b;
    } else {
      BlockParts(a);
      var i := Find(a, '\n');
      var l, more := a[..i], a[i + 1..];
      BlockAppend(more, b);
      BlockCons(l, more + b);
      CutLine(a, i, b);
    }
  }

  lemma BlockOne(l: string)
    requires CommentLine(l)
    ensures Block(l + "\n")
  {
    var c := l + "\n";
    assert c == l + ['\n'] + "";
    FindAt(l, '\n', "");
    assert c[..|l|] == l && c[|l| + 1..] == "";
  }

  // ----- the parts of a line -----

  lemma TrimPlain(s: string)
    requires '\n' !in s
    ensures Plain(Trim(s))
  {
    TrimTrimmed(s);
    TrimChars(s, '\n');
  }

  /** A line that is neither empty nor a comment: what is left of the comment sign, and what is right of it. */
  lemma CleanPart(l: string)
    requires l != "" && Plain(l) && l[0] != '#'
    ensures Plain(Clean(l)) && '#' !in Clean(l) && Clean(l) != "" && Clean(l)[0] == l[0] && Plain(Right(l))
  {
    var i := Find(l, '#');
    var a := l[..i];
    TrimPlain(a);
    TrimChars(a, '#');
    TrimKeepsHead(a);
    if i < |l| {
      TrimPlain(l[i + 1..]);
    }
  }

  lemma KeyPart(clean: string, eq: nat)
    requires Plain(clean) && clean != "" && '#' !in clean && clean[0] != '[' && eq < |clean| && '=' !in clean[..eq]
    ensures CleanKey(Trim(clean[..eq])) && CleanValue(Trim(clean[eq + 1..]))
  {
    var k, v := clean[..eq], clean[eq + 1..];
    TrimPlain(k);
    TrimChars(k, '#');
    TrimChars(k, '=');
    TrimPlain(v);
    TrimChars(v, '#');
    if k != "" {
      TrimKeepsHead(k);
    }
  }

  lemma NamePart(clean: string, index: nat)
    requires Plain(clean) && '#' !in clean && 1 < index <= |clean| && ']' !in clean[..index]
    ensures var name := Trim(clean[1..index]); Plain(name) && ']' !in name && '#' !in name
  {
    var n := clean[1..index];
    assert forall k :: 0 <= k < |n| ==> n[k] == clean[..index][k + 1];
    TrimPlain(n);
    TrimChars(n, ']');
    TrimChars(n, '#');
  }

  // ----- the invariant of the loop -----

  /** The sections that `Load` has built: clean, comments as loaded, the unnamed section first. */
  ghost predicate Loaded(secs: seq<Section>) {
    secs != [] && secs[0].name == "" && CleanConfig(secs) && LoadedComments(secs)
  }

  ghost predicate LoadInv(st: Loading) { Loaded(st.sections) && Block(st.comment) }

  lemma DistinctSnoc(secs: seq<Section>, sec: Section)
    requires DistinctNames(secs) && !HasSection(secs, sec.name)
    ensures DistinctNames(secs + [sec])
  {
  }

  lemma SnocSection(secs: seq<Section>, sec: Section)
    requires Loaded(secs) && CleanSection(sec) && sec.items == [] && !HasSection(secs, sec.name)
    ensures Loaded(secs + [sec])
  {
    hide CleanSection, HasSection, DistinctNames;
    DistinctSnoc(secs, sec);
    assert sec.name != "" by { UnnamedThere(secs); }
    assert (secs + [sec])[1..] == secs[1..] + [sec];
  }

  lemma UnnamedThere(secs: seq<Section>)
    requires secs != [] && secs[0].name == ""
    ensures HasSection(secs, "")
  {
  }

  lemma PushedItem(secs: seq<Section>, item: Item)
    requires Loaded(secs) && CleanItem(item) && Block(item.comment)
    ensures Loaded(PushItem(secs, item))
  {
    var r, n := PushItem(secs, item), |secs| - 1;
    assert CleanSection(secs[n]);
    hide Block, CleanItem;
    assert r[n].items == secs[n].items + [item];
    assert CleanSection(r[n]);
    assert LoadedItems(secs[n].items) && LoadedItems(r[n].items);
    assert forall i :: 0 <= i < |secs| ==> r[i].name == secs[i].name;
    hide CleanSection, LoadedItems;
    assert forall i :: 0 <= i < |r| && i != n ==> r[i] == secs[i];
    assert AllNamed(r[1..]) by {
      forall i | 0 <= i < |r| - 1 ensures r[1..][i].name != "" { assert secs[1..][i].name != ""; }
    }
  }

  lemma AddedItem(st: Loading, clean: string, right: string)
    requires LoadInv(st) && Plain(clean) && clean != "" && '#' !in clean && clean[0] != '[' && Plain(right)
    ensures LoadInv(AddItem(st, clean, right))
  {
    var eq := Find(clean, '=');
    if eq < |clean| {
      KeyPart(clean, eq);
      PushedItem(st.sections, Item(Trim(clean[..eq]), Trim(clean[eq + 1..]), st.comment, right));
    }
  }

  lemma AddedSection(st: Loading, clean: string, right: string)
    requires LoadInv(st) && Plain(clean) && clean != "" && '#' !in clean && clean[0] == '[' && Plain(right)
    ensures LoadInv(AddSection(st, clean, right))
  {
    var index := Find(clean, ']');
    if 1 < index < |clean| {
      NamePart(clean, index);
      var name := Trim(clean[1..index]);
      if !HasSection(st.sections, name) {
        UnnamedThere(st.sections);
        SnocSection(st.sections, Section(name, st.comment, right, []));
      }
    }
  }

  lemma LoadLineInv(st: Loading, line: string)
    requires LoadInv(st) && '\n' !in line
    ensures LoadInv(LoadLine(st, line))
  {
    hide Loaded, Clean, Right, Trim, Block, AddItem, AddSection;
    var l := Trim(line);
    TrimPlain(line);
    if l == "" || l[0] == '#' {
      BlockOne(l);
      BlockAppend(st.comment, l + "\n");
      assert st.comment + (l + "\n") == st.comment + l + "\n";
      assert l == "" ==> l + "\n" == "\n";
    } else {
      CleanPart(l);
      if Clean(l)[0] == '[' {
        AddedSection(st, Clean(l), Right(l));
      } else {
        AddedItem(st, Clean(l), Right(l));
      }
    }
  }

  lemma {:induction false} LoadTextInv(st: Loading, text: string)
    requires LoadInv(st)
    ensures LoadInv(LoadText(st, text))
    decreases |text|
  {
    if text != "" && st.err == RET_OK {
      var i := Find(text, '\n');
      LoadLineInv(st, text[..i]);
      hide LoadInv, LoadLine;
      LoadTextInv(LoadLine(st, text[..i]), if i < |text| then text[i + 1..] else "");
    }
  }

  /** Whatever the text, and even after an error, the sections are clean. */
  lemma LoadIsClean(text: string)
    ensures Loaded(Load(text).sections)
  {
    LoadTextInv(Idle([UNNAMED]), text);
  }

  // ----- normal forms -----

  lemma {:induction false} NormItemsSame(items: seq<Item>)
    requires LoadedItems(items)
    ensures NormItems(items) == items
  {
    if items != [] {
      NormItemsSame(items[1..]);
      assert items == [items[0]] + items[1..];
    }
  }

  lemma {:induction false} NormSectionsSame(secs: seq<Section>)
    requires LoadedComments(secs)
    ensures NormSections(secs) == secs
  {
    if secs != [] {
      NormItemsSame(secs[0].items);
      NormSectionsSame(secs[1..]);
      assert secs == [secs[0]] + secs[1..];
    }
  }

  /** Loaded sections without section right comments come back exactly. */
  lemma ReloadSame(secs: seq<Section>)
    requires Loaded(secs) && NoSectionRight(secs)
    ensures Load(Save(secs)) == Idle(secs)
  {
    hide CleanConfig, NoSectionRight;
    LoadSave(secs);
    NormSectionsSame(secs);
  }

  // ----- no saved text puts a right comment on a section -----

  /** A line that cannot add a section with a right comment. */
  predicate SafeLine(line: string) {
    var l := Trim(line);
    l == "" || l[0] != '[' || '#' !in l
  }

  predicate Safe(text: string)
    decreases |text|
  {
    text == "" || (var i := Find(text, '\n'); SafeLine(text[..i]) && Safe(if i < |text| then text[i + 1..] else ""))
  }

  lemma SafeCons(line: string, rest: string)
    requires '\n' !in line && SafeLine(line) && Safe(rest)
    ensures Safe(line + "\n" + rest)
  {
    hide SafeLine;
    var text := line + "\n" + rest;
    assert text == line + ['\n'] + rest;
    FindAt(line, '\n', rest);
    assert text[..|line|] == line && text[|line| + 1..] == rest;
  }

  /** A right comment left without line end turns whatever follows on its line into a comment. */
  lemma SafeGlue(rc: string, rest: string)
    requires '\n' !in rc && Safe(rest)
    ensures Safe(" #" + rc + rest)
  {
    hide Safe, SafeLine, Find;
    var i := Find(rest, '\n');
    var first, more := rest[..i], if i < |rest| then rest[i + 1..] else "";
    SafeRest(rest);
    var line := " #" + rc + first;
    SignLineSafe(rc, first);
    if i < |rest| {
      CutLine(rest, i, "");
      SafeCons(line, more);
      Glue(" #" + rc, first, "\n", more);
    } else {
      assert rest == first;
      SafeAlone(line);
    }
  }

  lemma SafeRest(text: string)
    requires Safe(text)
    ensures var i := Find(text, '\n'); Safe(if i < |text| then text[i + 1..] else "")
  {
    hide Find, SafeLine;
    if text == "" {
      assert Find(text, '\n') == 0;
    }
  }

  lemma Glue(a: string, b: string, c: string, d: string)
    ensures a + (b + c + d) == a + b + c + d
  {
  }

  lemma SafeAlone(line: string)
    requires '\n' !in line && SafeLine(line)
    ensures Safe(line)
  {
    NoLineEnd(line);
    assert line[..|line|] == line;
  }

  lemma NoLineEnd(text: string)
    requires '\n' !in text
    ensures Find(text, '\n') == |text|
  {
  }

  lemma SignLineSafe(a: string, b: string)
    ensures SafeLine(" #" + a + b)
  {
    var t := "#" + (a + b);
    assert " #" + a + b == " " + t;
    TrimDropsFirstSpace(t);
    TrimKeepsHead(t);
  }

  lemma CommentLineSafe(l: string)
    requires CommentLine(l)
    ensures SafeLine(l) && '\n' !in l
  {
    TrimTrimmed(l);
  }

  lemma {:induction false} SafeBlock(c: string, rest: string)
    requires Block(c) && Safe(rest)
    ensures Safe(c + rest)
    decreases |c|
  {
    hide Block, CommentLine, Safe, SafeLine, Find;
    if c == "" {
      assert c + rest == rest;
    } else {
      BlockParts(c);
      var i := Find(c, '\n');
      var l, more := c[..i], c[i + 1..];
      CommentLineSafe(l);
      CutLine(c, i, rest);
      SafeBlock(more, rest);
      SafeCons(l, more + rest);
    }
  }

  lemma SafeItem(item: Item, rest: string)
    requires CleanItem(item) && Safe(rest)
    ensures Safe(SaveItem(item) + rest)
  {
    hide SafeLine, ItemLine, Safe, Pair, EndLine, Block, CleanKey, CleanValue;
    var l := ItemLine(item);
    ItemLineSafe(item);
    SafeCons(l, rest);
    Associative(EndLine(item.comment), EndLine(l), rest);
    SafeItemComment(item.comment, l + "\n" + rest);
  }

  lemma ItemLineSafe(item: Item)
    requires CleanItem(item)
    ensures var l := ItemLine(item); SafeLine(l) && '\n' !in l && EndLine(l) == l + "\n"
  {
    hide ItemLine, Trim, Pair, CleanItem;
    ItemLineIs(item);
    PairIsClean(item);
    TrimTrimmed(ItemLine(item));
  }

  lemma SafeItemComment(c: string, rest: string)
    requires ItemComment(c) && Safe(rest)
    ensures Safe(EndLine(c) + rest)
  {
    hide Safe, Block, EndLine;
    EndLineOfComment(c);
    if Block(c) {
      SafeBlock(c, rest);
    } else {
      TrimKeepsHead(c);
      SafeCons(c, rest);
    }
  }

  lemma {:induction false} SafeItems(items: seq<Item>, rest: string)
    requires (forall i :: 0 <= i < |items| ==> CleanItem(items[i])) && Safe(rest)
    ensures Safe(SaveItems(items) + rest)
    decreases |items|
  {
    hide CleanItem, Safe, SaveItem;
    if items == [] {
      assert "" + rest == rest;
    } else {
      SafeItems(items[1..], rest);
      SafeItem(items[0], SaveItems(items[1..]) + rest);
      assert SaveItems(items) + rest == SaveItem(items[0]) + (SaveItems(items[1..]) + rest);
    }
  }

  lemma SafeHeader(sec: Section, rest: string)
    requires CleanSection(sec) && Safe(rest)
    ensures Safe(Header(sec) + rest)
  {
    hide Safe, Block, CleanItem;
    var right := if sec.rightComment != "" then " #" + sec.rightComment else "";
    assert Safe(right + rest) by {
      if sec.rightComment != "" {
        SafeGlue(sec.rightComment, rest);
      } else {
        assert "" + rest == rest;
      }
    }
    if sec.name != "" {
      var l := "[" + sec.name + "]";
      assert Trimmed(l);
      TrimTrimmed(l);
      SafeCons(l, right + rest);
      assert Header(sec) + rest == l + "\n" + (right + rest);
    } else {
      assert Header(sec) + rest == right + rest;
    }
  }

  lemma SafeSection(sec: Section, rest: string)
    requires CleanSection(sec) && Safe(rest)
    ensures Safe(SaveSection(sec) + rest)
  {
    hide Safe, Block, CleanItem, Header;
    var body := SaveItems(sec.items) + rest;
    SafeItems(sec.items, rest);
    SafeHeader(sec, body);
    SafeBlock(sec.comment, Header(sec) + body);
    Associative(sec.comment + Header(sec), SaveItems(sec.items), rest);
    Associative(sec.comment, Header(sec), body);
  }

  lemma {:induction false} SafeSave(secs: seq<Section>)
    requires AllClean(secs)
    ensures Safe(Save(secs))
  {
    hide CleanSection, SaveSection;
    if secs != [] {
      SafeSave(secs[1..]);
      SafeSection(secs[0], Save(secs[1..]));
    }
  }

  lemma SectionKeeps(st: Loading, clean: string)
    requires NoSectionRight(st.sections) && clean != "" && clean[0] == '['
    ensures NoSectionRight(AddSection(st, clean, "").sections)
  {
    hide HasSection, Trim, Find;
  }

  lemma ItemKeeps(st: Loading, clean: string, right: string)
    requires st.sections != [] && NoSectionRight(st.sections)
    ensures NoSectionRight(AddItem(st, clean, right).sections)
  {
    hide Trim, Find;
  }

  lemma CleanHead(l: string)
    requires l != "" && Trimmed(l) && l[0] != '#'
    ensures Clean(l) != "" && Clean(l)[0] == l[0]
    ensures '#' !in l ==> Right(l) == ""
  {
    TrimKeepsHead(l[..Find(l, '#')]);
  }

  lemma SafeLineKeeps(st: Loading, line: string)
    requires st.sections != [] && NoSectionRight(st.sections) && SafeLine(line)
    ensures NoSectionRight(LoadLine(st, line).sections)
  {
    hide Trim, Clean, Right, AddSection, AddItem, NoSectionRight;
    var l := Trim(line);
    TrimTrimmed(line);
    if l != "" && l[0] != '#' {
      CleanHead(l);
      if l[0] == '[' {
        SectionKeeps(st, Clean(l));
      } else {
        ItemKeeps(st, Clean(l), Right(l));
      }
    }
  }

  lemma {:induction false} SafeTextKeeps(st: Loading, text: string)
    requires st.sections != [] && NoSectionRight(st.sections) && Safe(text)
    ensures NoSectionRight(LoadText(st, text).sections)
    decreases |text|
  {
    if text != "" && st.err == RET_OK {
      var i := Find(text, '\n');
      SafeLineKeeps(st, text[..i]);
      hide LoadLine, NoSectionRight, SafeLine;
      SafeTextKeeps(LoadLine(st, text[..i]), if i < |text| then text[i + 1..] else "");
    }
  }

  /** Reloading never finds a right comment on a section, whatever was saved. */
  lemma ReloadHasNoSectionRight(secs: seq<Section>)
    requires CleanConfig(secs)
    ensures NoSectionRight(Load(Save(secs)).sections)
  {
    SafeSave(secs);
    SafeTextKeeps(Idle([UNNAMED]), Save(secs));
  }

  /** A section with a right comment and one item: after saving and loading the item is gone. */
  lemma RightCommentSwallowsItem(name: string, rc: string, item: Item)
    requires CleanName(name) && Plain(rc) && rc != "" && CleanItem(item) && item.comment == ""
    ensures Load(Save([UNNAMED, Section(name, "", rc, [item])])).sections == [UNNAMED, Section(name, "", "", [])]
  {
    var sec, l, c := Section(name, "", rc, [item]), "[" + name + "]", " #" + rc + ItemLine(item);
    NoLineEnds(name, rc, item);
    hide LoadText, LoadLine, HasSection, Save, ItemLine, CleanItem, CleanName, Plain;
    SavedWithRight(sec, item);
    var st, st1 := Idle([UNNAMED]), Idle([UNNAMED] + [Section(name, "", "", [])]);
    LoadCons(st, l, c + "\n" + "");
    LoadHeader(st, name);
    LoadCons(st1, c, "");
    SignLineLoads(st1, rc, ItemLine(item));
    LoadEnd(LoadLine(st1, c));
  }

  lemma NoLineEnds(name: string, rc: string, item: Item)
    requires CleanName(name) && Plain(rc) && CleanItem(item)
    ensures '\n' !in "[" + name + "]" && '\n' !in " #" + rc + ItemLine(item) && '\n' !in ItemLine(item)
    ensures ItemLine(item) != "" && !HasSection([UNNAMED], name)
  {
    ItemLineIs(item);
  }

  lemma LoadEnd(st: Loading)
    requires st.sections != []
    ensures LoadText(st, "") == st
  {
  }

  lemma SavedWithRight(sec: Section, item: Item)
    requires sec.name != "" && sec.comment == "" && sec.rightComment != "" && sec.items == [item] && item.comment == ""
    requires '\n' !in ItemLine(item) && ItemLine(item) != ""
    ensures Save([UNNAMED, sec])
         == ("[" + sec.name + "]") + "\n" + ((" #" + sec.rightComment + ItemLine(item)) + "\n" + "")
  {
    var h, r, il := "[" + sec.name + "]", " #" + sec.rightComment, ItemLine(item);
    OneItemText(item);
    TwoSectionsText(sec);
    HeaderWithRight(sec);
    hide ItemLine, SaveItems, Save, Header;
    assert sec.comment + Header(sec) == Header(sec);
    Regroup(h + "\n", r, il);
  }

  lemma HeaderWithRight(sec: Section)
    requires sec.name != "" && sec.rightComment != ""
    ensures Header(sec) == ("[" + sec.name + "]") + "\n" + (" #" + sec.rightComment)
  {
    assert "[" + sec.name + "]\n" == ("[" + sec.name + "]") + "\n";
  }

  lemma Regroup(h: string, r: string, il: string)
    ensures h + r + (il + "\n") == h + ((r + il) + "\n" + "")
  {
  }

  lemma OneItemText(item: Item)
    requires item.comment == "" && '\n' !in ItemLine(item) && ItemLine(item) != ""
    ensures SaveItems([item]) == ItemLine(item) + "\n"
  {
    var il := ItemLine(item);
    assert EndLine(il) == il + "\n";
    hide ItemLine;
    assert [item][1..] == [];
    assert SaveItem(item) == il + "\n";
  }

  lemma TwoSectionsText(sec: Section)
    ensures Save([UNNAMED, sec]) == SaveSection(sec)
  {
    assert SaveSection(UNNAMED) == "";
    hide SaveSection;
    assert [UNNAMED, sec][1..] == [sec] && [sec][1..] == [];
    assert Save([sec]) == SaveSection(sec) + Save([]) == SaveSection(sec);
    assert "" + Save([sec]) == Save([sec]);
  }

  lemma SignLineLoads(st: Loading, a: string, b: string)
    requires st.sections != []
    ensures var r := LoadLine(st, " #" + a + b); r.sections == st.sections && r.err == st.err
  {
    var t := "#" + (a + b);
    assert " #" + a + b == " " + t;
    TrimDropsFirstSpace(t);
    TrimKeepsHead(t);
  }

  /**
   For every text that `Load` accepts: saving and loading gives exactly the same sections if and only if no
   section has a right comment.
   */
  lemma RoundTrip(text: string)
    requires Load(text).err == RET_OK
    ensures var secs := Load(text).sections;
            (Load(Save(secs)).err == RET_OK && Load(Save(secs)).sections == secs) <==> NoSectionRight(secs)
  {
    var secs := Load(text).sections;
    LoadIsClean(text);
    hide Load, Save, CleanConfig, NoSectionRight;
    if NoSectionRight(secs) {
      ReloadSame(secs);
    } else {
      ReloadHasNoSectionRight(secs);
    }
  }
}
