/** Loading what was saved. */
module ConfigRoundTrip {
  import opened ConfigText
  import opened ConfigFormat
  import opened Spaces

  /** A state of `Load` between two entries. */
  function Idle(secs: seq<Section>): (st: Loading) { Loading(secs, "", RET_OK) }

  // ----- lines -----

  lemma LoadCons(st: Loading, line: string, rest: string)
    requires st.sections != [] && st.err == RET_OK && '\n' !in line
    ensures LoadText(st, line + "\n" + rest) == LoadText(LoadLine(st, line), rest)
  {
    hide LoadLine;
    var text := line + "\n" + rest;
    FindAt(line, '\n', rest);
    assert text[..|line|] == line && text[|line| + 1..] == rest;
  }

  lemma LoadCommentLine(st: Loading, l: string)
    requires st.sections != [] && CommentLine(l)
    ensures LoadLine(st, l) == st.(comment := st.comment + (l + "\n"))
  {
    TrimTrimmed(l);
    assert st.comment + l + "\n" == st.comment + (l + "\n");
  }

  lemma {:induction false} LoadBlock(st: Loading, c: string, rest: string)
    requires st.sections != [] && st.err == RET_OK && Block(c)
    ensures LoadText(st, c + rest) == LoadText(st.(comment := st.comment + c), rest)
    decreases |c|
  {
    hide LoadText, LoadLine, Block, Find;
    if c == "" {
      assert c + rest == rest && st.comment + c == st.comment;
    } else {
      BlockParts(c);
      var i := Find(c, '\n');
      var l, more := c[..i], c[i + 1..];
      CutLine(c, i, rest);
      LoadCons(st, l, more + rest);
      LoadCommentLine(st, l);
      LoadBlock(st.(comment := st.comment + (l + "\n")), more, rest);
      Associative(st.comment, l + "\n", more);
    }
  }

  lemma {:induction false} BlockEnds(c: string)
    requires Block(c) && c != ""
    ensures c[|c| - 1] == '\n'
    decreases |c|
  {
    var i := Find(c, '\n');
    if i + 1 < |c| {
      BlockEnds(c[i + 1..]);
    }
  }

  // ----- an item line -----

  lemma ConcatTrimmed(a: string, b: string)
    requires a != "" && b != "" && !IsSpace(a[0]) && !IsSpace(b[|b| - 1])
    ensures Trimmed(a + b)
  {
  }

  /** key=value before the comment sign. */
  function Pair(item: Item): (s: string) { item.key + "=" + item.value }

  lemma PairIsClean(item: Item)
    requires CleanItem(item)
    ensures Plain(Pair(item)) && Pair(item) != "" && '#' !in Pair(item) && Pair(item)[0] != '[' && Pair(item)[0] != '#'
  {
    var p := Pair(item);
    assert p[0] == if item.key == "" then '=' else item.key[0];
    assert p[|p| - 1] == if item.value == "" then '=' else item.value[|item.value| - 1];
  }

  lemma ItemLineIs(item: Item)
    requires CleanItem(item)
    ensures ItemLine(item) == Pair(item) + (if item.rightComment != "" then " #" + item.rightComment else "")
    ensures Plain(ItemLine(item)) && ItemLine(item) != "" && ItemLine(item)[0] == Pair(item)[0]
  {
    PairIsClean(item);
    var p, r := Pair(item), item.rightComment;
    if r != "" {
      assert ItemLine(item) == p + (" #" + r);
      ConcatTrimmed(p, " #" + r);
    } else {
      assert p + "" == p;
    }
  }

  /** Taking a line apart at the comment sign. */
  lemma SplitAtSign(p: string, r: string)
    requires p != "" && Plain(p) && '#' !in p && Plain(r)
    ensures Clean(p + (" #" + r)) == p && Right(p + (" #" + r)) == r
  {
    var l := p + (" #" + r);
    assert l == (p + " ") + ['#'] + r;
    FindAt(p + " ", '#', r);
    assert l[..|p| + 1] == p + " " && l[|p| + 2..] == r;
    TrimDropsLastSpace(p);
    TrimTrimmed(r);
  }

  lemma NoSign(p: string)
    requires Plain(p) && '#' !in p
    ensures Clean(p) == p && Right(p) == ""
  {
    assert p[..|p|] == p;
    TrimTrimmed(p);
  }

  lemma ItemLineParts(item: Item)
    requires CleanItem(item)
    ensures Clean(ItemLine(item)) == Pair(item) && Right(ItemLine(item)) == item.rightComment
  {
    PairIsClean(item);
    ItemLineIs(item);
    hide Clean, Right, ItemLine, Pair;
    if item.rightComment != "" {
      SplitAtSign(Pair(item), item.rightComment);
    } else {
      assert Pair(item) + "" == Pair(item);
      NoSign(Pair(item));
    }
  }

  lemma SplitPair(item: Item)
    requires CleanItem(item)
    ensures var p := Pair(item);
            var eq := Find(p, '=');
            eq < |p| && Trim(p[..eq]) == item.key && Trim(p[eq + 1..]) == item.value
  {
    var p := Pair(item);
    assert p == item.key + ['='] + item.value;
    FindAt(item.key, '=', item.value);
    assert p[..|item.key|] == item.key && p[|item.key| + 1..] == item.value;
    TrimTrimmed(item.key);
    TrimTrimmed(item.value);
  }

  lemma LoadItemLine(st: Loading, item: Item)
    requires st.sections != [] && CleanItem(item)
    ensures LoadLine(st, ItemLine(item)) == Idle(PushItem(st.sections, item.(comment := st.comment)))
  {
    hide Clean, Right, ItemLine, Pair, Find, Trim, CleanItem;
    PairIsClean(item);
    ItemLineIs(item);
    ItemLineParts(item);
    SplitPair(item);
    TrimTrimmed(ItemLine(item));
  }

  // ----- items -----

  /** A comment after saving and loading: ended by a line end. */
  function NormComment(c: string): (d: string) { if Block(c) then c else Trim(c) + "\n" }

  function NormItem(item: Item): (r: Item) { item.(comment := NormComment(item.comment)) }

  function NormItems(items: seq<Item>): (r: seq<Item>)
    ensures |r| == |items|
  {
    if items == [] then [] else [NormItem(items[0])] + NormItems(items[1..])
  }

  lemma LoadItemComment(st: Loading, c: string, rest: string)
    requires st.sections != [] && st.err == RET_OK && st.comment == "" && ItemComment(c)
    ensures LoadText(st, EndLine(c) + rest) == LoadText(st.(comment := NormComment(c)), rest)
  {
    hide LoadText, LoadLine, Block, EndLine, Trim;
    EndLineOfComment(c);
    if Block(c) {
      LoadBlock(st, c, rest);
      assert st.comment + c == c;
    } else {
      LoadCons(st, c, rest);
      LoneComment(st, c);
    }
  }

  lemma EndLineOfComment(c: string)
    requires ItemComment(c)
    ensures EndLine(c) == if Block(c) then c else c + "\n"
  {
    if Block(c) && c != "" {
      BlockEnds(c);
    }
  }

  lemma LoneComment(st: Loading, c: string)
    requires st.sections != [] && st.comment == "" && c != "" && c[0] == '#'
    ensures LoadLine(st, c) == st.(comment := Trim(c) + "\n")
  {
    TrimKeepsHead(c);
    assert "" + Trim(c) == Trim(c);
  }

  lemma LoadSavedItem(secs: seq<Section>, item: Item, rest: string)
    requires secs != [] && CleanItem(item)
    ensures LoadText(Idle(secs), SaveItem(item) + rest) == LoadText(Idle(PushItem(secs, NormItem(item))), rest)
  {
    var l := ItemLine(item);
    ItemLineIs(item);
    assert EndLine(l) == l + "\n";
    hide LoadText, LoadLine, ItemLine, EndLine, NormComment, PushItem;
    assert SaveItem(item) + rest == EndLine(item.comment) + (l + "\n" + rest);
    LoadItemComment(Idle(secs), item.comment, l + "\n" + rest);
    var st := Idle(secs).(comment := NormComment(item.comment));
    LoadCons(st, l, rest);
    LoadItemLine(st, item);
  }

  /** Several new items in the current section. */
  function PushItems(secs: seq<Section>, items: seq<Item>): (r: seq<Section>)
    requires secs != []
    ensures r != []
  {
    var last := secs[|secs| - 1];
    secs[|secs| - 1 := last.(items := last.items + items)]
  }

  lemma PushItemsCons(secs: seq<Section>, item: Item, items: seq<Item>)
    requires secs != []
    ensures PushItems(PushItem(secs, item), items) == PushItems(secs, [item] + items)
  {
    var last := secs[|secs| - 1];
    assert last.items + [item] + items == last.items + ([item] + items);
  }

  lemma PushNothing(secs: seq<Section>)
    requires secs != []
    ensures PushItems(secs, []) == secs
  {
    var last := secs[|secs| - 1];
    assert last.items + [] == last.items;
  }

  lemma {:induction false} LoadSavedItems(secs: seq<Section>, items: seq<Item>, rest: string)
    requires secs != [] && forall i :: 0 <= i < |items| ==> CleanItem(items[i])
    ensures LoadText(Idle(secs), SaveItems(items) + rest) == LoadText(Idle(PushItems(secs, NormItems(items))), rest)
    decreases |items|
  {
    hide LoadText, SaveItem, NormItem, PushItem, PushItems, CleanItem;
    if items == [] {
      assert SaveItems(items) + rest == rest;
      PushNothing(secs);
    } else {
      var more := SaveItems(items[1..]) + rest;
      assert SaveItems(items) + rest == SaveItem(items[0]) + more;
      LoadSavedItem(secs, items[0], more);
      PushItemNonEmpty(secs, NormItem(items[0]));
      LoadSavedItems(PushItem(secs, NormItem(items[0])), items[1..], rest);
      PushItemsCons(secs, NormItem(items[0]), NormItems(items[1..]));
    }
  }

  lemma PushItemNonEmpty(secs: seq<Section>, item: Item)
    requires secs != []
    ensures PushItem(secs, item) != []
  {
  }

  // ----- sections -----

  function NormSection(sec: Section): (r: Section) { sec.(items := NormItems(sec.items)) }

  function NormSections(secs: seq<Section>): (r: seq<Section>)
    ensures |r| == |secs|
  {
    if secs == [] then [] else [NormSection(secs[0])] + NormSections(secs[1..])
  }

  lemma LoadHeader(st: Loading, name: string)
    requires st.sections != [] && CleanName(name) && !HasSection(st.sections, name)
    ensures LoadLine(st, "[" + name + "]") == Idle(st.sections + [Section(name, st.comment, "", [])])
  {
    var l := "[" + name + "]";
    assert Trimmed(l);
    TrimTrimmed(l);
    assert '#' !in l && l[..|l|] == l;
    assert l == ("[" + name) + [']'] + "";
    FindAt("[" + name, ']', "");
    assert l[1..|name| + 1] == name;
    TrimTrimmed(name);
    hide HasSection, Trim;
  }

  lemma LoadSavedSection(secs: seq<Section>, sec: Section, rest: string)
    requires secs != [] && CleanSection(sec) && sec.name != "" && sec.rightComment == "" && !HasSection(secs, sec.name)
    ensures LoadText(Idle(secs), SaveSection(sec) + rest) == LoadText(Idle(secs + [NormSection(sec)]), rest)
  {
    hide LoadText, LoadLine, HasSection, Block, SaveSection, SaveItems, CleanItem, NormItems, PushItems, CleanName;
    var l, body := "[" + sec.name + "]", SaveItems(sec.items) + rest;
    SectionText(sec, rest);
    LoadBlock(Idle(secs), sec.comment, l + "\n" + body);
    assert "" + sec.comment == sec.comment;
    var st := Idle(secs).(comment := sec.comment);
    LoadCons(st, l, body);
    LoadHeader(st, sec.name);
    var begun := Section(sec.name, sec.comment, "", []);
    LoadSavedItems(secs + [begun], sec.items, rest);
    PushToNew(secs, begun, NormItems(sec.items));
  }

  lemma PushToNew(secs: seq<Section>, sec: Section, items: seq<Item>)
    requires sec.items == []
    ensures PushItems(secs + [sec], items) == secs + [sec.(items := items)]
  {
    assert [] + items == items;
  }

  lemma SectionText(sec: Section, rest: string)
    requires CleanSection(sec) && sec.name != "" && sec.rightComment == ""
    ensures SaveSection(sec) + rest == sec.comment + (("[" + sec.name + "]") + "\n" + (SaveItems(sec.items) + rest))
    ensures '\n' !in "[" + sec.name + "]"
  {
    hide SaveItems, Block, CleanItem;
    assert Header(sec) == ("[" + sec.name + "]") + "\n";
  }

  /** Names that are all different from those already there. */
  ghost predicate NewNames(done: seq<Section>, secs: seq<Section>) {
    && (forall i :: 0 <= i < |secs| ==> secs[i].name != "" && !HasSection(done, secs[i].name))
    && (forall i, j :: 0 <= i < j < |secs| ==> secs[i].name != secs[j].name)
  }

  lemma NewNamesStep(done: seq<Section>, secs: seq<Section>, sec': Section)
    requires NewNames(done, secs) && secs != [] && sec'.name == secs[0].name
    ensures NewNames(done + [sec'], secs[1..])
  {
    var d := done + [sec'];
    forall i | 0 <= i < |secs| - 1 ensures !HasSection(d, secs[1..][i].name) {
      var name := secs[i + 1].name;
      assert !HasSection(done, name);
      forall k | 0 <= k < |d| ensures d[k].name != name {
        assert k < |done| ==> d[k] == done[k];
      }
    }
  }

  lemma {:induction false} LoadSavedSections(done: seq<Section>, secs: seq<Section>)
    requires done != [] && NewNames(done, secs) && NoSectionRight(secs)
    requires AllClean(secs)
    ensures LoadText(Idle(done), Save(secs)) == Idle(done + NormSections(secs))
    decreases |secs|
  {
    hide LoadText, SaveSection, CleanSection, NewNames, AllClean, NoSectionRight, HasSection, NormSection;
    if secs == [] {
      LoadNothing(done);
      assert done + [] == done;
    } else {
      var sec, tail := secs[0], secs[1..];
      SplitRequirements(done, secs);
      LoadSavedSection(done, sec, Save(tail));
      LoadSavedSections(done + [NormSection(sec)], tail);
      assert done + [NormSection(sec)] + NormSections(tail) == done + ([NormSection(sec)] + NormSections(tail));
    }
  }

  lemma LoadNothing(secs: seq<Section>)
    requires secs != []
    ensures LoadText(Idle(secs), "") == Idle(secs)
  {
  }

  lemma SplitRequirements(done: seq<Section>, secs: seq<Section>)
    requires secs != [] && NewNames(done, secs) && NoSectionRight(secs) && AllClean(secs)
    ensures CleanSection(secs[0]) && secs[0].name != "" && secs[0].rightComment == "" && !HasSection(done, secs[0].name)
    ensures NewNames(done + [NormSection(secs[0])], secs[1..]) && NoSectionRight(secs[1..]) && AllClean(secs[1..])
  {
    hide CleanSection, HasSection;
    NewNamesStep(done, secs, NormSection(secs[0]));
  }

  /** A saved and loaded configuration: the unnamed section is always there, comments are ended. */
  function Normalise(secs: seq<Section>): (r: seq<Section>)
    ensures r != []
  {
    if secs != [] && secs[0].name == "" then NormSections(secs) else [UNNAMED] + NormSections(secs)
  }

  /** Loading a saved clean configuration without section right comments gives its normal form. */
  lemma LoadSave(secs: seq<Section>)
    requires CleanConfig(secs) && NoSectionRight(secs)
    ensures Load(Save(secs)) == Idle(Normalise(secs))
  {
    hide LoadText, CleanSection, NewNames, HasSection, SaveSection, DistinctNames, AllNamed, AllClean, NoSectionRight;
    if secs != [] {
      CleanTail(secs);
      NoRightTail(secs);
    }
    if secs != [] && secs[0].name == "" {
      NamesAfterUnnamed(NormSection(secs[0]), secs[1..]);
      LoadSaveUnnamed(secs[0], secs[1..]);
    } else {
      NamesAfterUnnamed(UNNAMED, secs);
      LoadSavedSections([UNNAMED], secs);
    }
  }

  lemma NoRightTail(secs: seq<Section>)
    requires NoSectionRight(secs) && secs != []
    ensures NoSectionRight(secs[1..])
  {
  }

  lemma LoadSaveUnnamed(sec: Section, rest: seq<Section>)
    requires CleanSection(sec) && sec.name == "" && NewNames([NormSection(sec)], rest) && NoSectionRight(rest)
    requires AllClean(rest)
    ensures LoadText(Idle([UNNAMED]), SaveSection(sec) + Save(rest)) == Idle([NormSection(sec)] + NormSections(rest))
  {
    UnnamedText(sec);
    NormUnnamed(sec);
    hide LoadText, NormItems, SaveItems, SaveSection, Save, CleanItem, NewNames, HasSection, Block, NormSections, NormSection;
    LoadSavedItems([UNNAMED], sec.items, Save(rest));
    LoadSavedSections([NormSection(sec)], rest);
  }

  lemma NormUnnamed(sec: Section)
    requires CleanSection(sec) && sec.name == ""
    ensures PushItems([UNNAMED], NormItems(sec.items)) == [NormSection(sec)]
  {
    hide NormItems, Block, CleanItem;
    assert [] + NormItems(sec.items) == NormItems(sec.items);
  }

  /** Named sections with different names come after an unnamed one. */
  lemma NamesAfterUnnamed(first: Section, secs: seq<Section>)
    requires first.name == ""
    requires AllNamed(secs) && DistinctNames(secs)
    ensures NewNames([first], secs)
  {
  }

  lemma UnnamedText(sec: Section)
    requires CleanSection(sec) && sec.name == ""
    ensures SaveSection(sec) == SaveItems(sec.items)
  {
    hide SaveItems, CleanItem, Block;
    assert "" + "" + SaveItems(sec.items) == SaveItems(sec.items);
  }
}
