/** The INI format: what `Load` makes of a text, and the text that `SaveAs` writes. */
module ConfigFormat {
  import opened ConfigText

  /** IniItem */
  datatype Item = Item(key: string, value: string, comment: string, rightComment: string)

  /** IniSection */
  datatype Section = Section(name: string, comment: string, rightComment: string, items: seq<Item>)

  const RET_OK := 0
  const ERR_UNMATCHED_BRACKETS := 2
  const ERR_SECTION_EMPTY := 3
  const ERR_SECTION_ALREADY_EXISTS := 4
  const ERR_PARSE_KEY_VALUE_FAILED := 5

  const UNNAMED := Section("", "", "", [])

  predicate HasSection(secs: seq<Section>, name: string) { exists i :: 0 <= i < |secs| && secs[i].name == name }

  // ----- loading -----

  /** What `Load` has so far: the sections, the last of which is current, and the pending comment. */
  datatype Loading = Loading(sections: seq<Section>, comment: string, err: int)

  /** `UpdateSection` */
  function AddSection(st: Loading, clean: string, right: string): (r: Loading)
    requires clean != "" && clean[0] == '['
  {
    var index := Find(clean, ']');
    if index == |clean| then st.(err := ERR_UNMATCHED_BRACKETS)
    else if index - 1 <= 0 then st.(err := ERR_SECTION_EMPTY)
    else
      var name := Trim(clean[1..index]);
      if HasSection(st.sections, name) then st.(err := ERR_SECTION_ALREADY_EXISTS)
      else Loading(st.sections + [Section(name, st.comment, right, [])], "", RET_OK)
  }

  /** A new item at the end of the current section. */
  function PushItem(secs: seq<Section>, item: Item): (r: seq<Section>)
    requires secs != []
  {
    var last := secs[|secs| - 1];
    secs[|secs| - 1 := last.(items := last.items + [item])]
  }

  /** `AddKeyValuePair` */
  function AddItem(st: Loading, clean: string, right: string): (r: Loading)
    requires st.sections != []
  {
    var eq := Find(clean, '=');
    if eq == |clean| then st.(err := ERR_PARSE_KEY_VALUE_FAILED)
    else
      Loading(PushItem(st.sections, Item(Trim(clean[..eq]), Trim(clean[eq + 1..]), st.comment, right)), "", RET_OK)
  }

  /** The part of a line before the comment sign, and the part after it. */
  function Clean(l: string): (s: string) { Trim(l[..Find(l, '#')]) }

  function Right(l: string): (s: string) {
    var i := Find(l, '#');
    if i == |l| then "" else Trim(l[i + 1..])
  }

  /** One turn of the loop in `Load`. */
  function LoadLine(st: Loading, line: string): (r: Loading)
    requires st.sections != []
    ensures r.sections != []
  {
    var l := Trim(line);
    if l == "" then st.(comment := st.comment + "\n")
    else if l[0] == '#' then st.(comment := st.comment + l + "\n")
    else
      var clean := Clean(l);
      if clean != "" && clean[0] == '[' then AddSection(st, clean, Right(l)) else AddItem(st, clean, Right(l))
  }

  /** The loop: lines as getline delivers them, until the end or an error. */
  function LoadText(st: Loading, text: string): (r: Loading)
    requires st.sections != []
    ensures r.sections != []
    decreases |text|
  {
    if text == "" || st.err != RET_OK then st
    else
      var i := Find(text, '\n');
      LoadText(LoadLine(st, text[..i]), if i < |text| then text[i + 1..] else "")
  }

  function Load(text: string): (r: Loading)
    ensures r.sections != []
  {
    LoadText(Loading([UNNAMED], "", RET_OK), text)
  }

  // ----- saving -----

  function EndLine(s: string): (t: string) {
    if s != "" && s[|s| - 1] != '\n' then s + "\n" else s
  }

  function ItemLine(item: Item): (s: string) {
    item.key + "=" + item.value + (if item.rightComment != "" then " #" + item.rightComment else "")
  }

  function SaveItem(item: Item): (s: string) { EndLine(item.comment) + EndLine(ItemLine(item)) }

  function SaveItems(items: seq<Item>): (s: string) {
    if items == [] then "" else SaveItem(items[0]) + SaveItems(items[1..])
  }

  function Header(sec: Section): (s: string) {
    (if sec.name != "" then "[" + sec.name + "]\n" else "")
      + (if sec.rightComment != "" then " #" + sec.rightComment else "")
  }

  function SaveSection(sec: Section): (s: string) { sec.comment + Header(sec) + SaveItems(sec.items) }

  function Save(secs: seq<Section>): (s: string) {
    if secs == [] then "" else SaveSection(secs[0]) + Save(secs[1..])
  }

  // ----- configurations that come from loading and clean edits -----

  predicate Plain(s: string) { Trimmed(s) && '\n' !in s }

  predicate CleanName(s: string) { Plain(s) && s != "" && ']' !in s && '#' !in s }

  predicate CleanKey(s: string) { Plain(s) && '=' !in s && '#' !in s && (s == "" || s[0] != '[') }

  predicate CleanValue(s: string) { Plain(s) && '#' !in s }

  /** A comment line as `Load` stores it. */
  predicate CommentLine(l: string) { Plain(l) && (l == "" || l[0] == '#') }

  /** Any number of comment lines, each with its line end. */
  predicate Block(c: string)
    decreases |c|
  {
    c == "" || (var i := Find(c, '\n'); i < |c| && CommentLine(c[..i]) && Block(c[i + 1..]))
  }

  lemma BlockParts(c: string)
    requires Block(c) && c != ""
    ensures var i := Find(c, '\n'); i < |c| && CommentLine(c[..i]) && Block(c[i + 1..])
  {
  }

  /** The comment of an item: lines as loaded, or one line without line end as `setValue` leaves it. */
  predicate ItemComment(c: string) { Block(c) || (c != "" && c[0] == '#' && '\n' !in c) }

  predicate CleanItem(item: Item) {
    CleanKey(item.key) && CleanValue(item.value) && ItemComment(item.comment) && Plain(item.rightComment)
  }

  ghost predicate CleanSection(sec: Section) {
    && (if sec.name == "" then sec.comment == "" && sec.rightComment == "" else CleanName(sec.name))
    && Block(sec.comment) && Plain(sec.rightComment)
    && forall i :: 0 <= i < |sec.items| ==> CleanItem(sec.items[i])
  }

  ghost predicate DistinctNames(secs: seq<Section>) {
    forall i, j :: 0 <= i < j < |secs| ==> secs[i].name != secs[j].name
  }

  ghost predicate AllNamed(secs: seq<Section>) { forall i :: 0 <= i < |secs| ==> secs[i].name != "" }

  ghost predicate AllClean(secs: seq<Section>) { forall i :: 0 <= i < |secs| ==> CleanSection(secs[i]) }

  /** Names are unique, and the unnamed section, if there is one, is the first. */
  ghost predicate GoodNames(secs: seq<Section>) {
    DistinctNames(secs) && (secs == [] || AllNamed(secs[1..]))
  }

  ghost predicate CleanConfig(secs: seq<Section>) { GoodNames(secs) && AllClean(secs) }

  /** Everything after the first section. */
  lemma CleanTail(secs: seq<Section>)
    requires CleanConfig(secs) && secs != []
    ensures CleanSection(secs[0]) && DistinctNames(secs[1..]) && AllNamed(secs[1..]) && AllClean(secs[1..])
    ensures secs[0].name != "" ==> AllNamed(secs)
  {
    hide CleanSection;
    var t := secs[1..];
    assert forall i :: 0 <= i < |t| ==> t[i] == secs[i + 1];
    forall i | 0 <= i < |secs| && secs[0].name != "" ensures secs[i].name != "" {
      assert i > 0 ==> secs[i] == t[i - 1];
    }
  }

  ghost predicate NoSectionRight(secs: seq<Section>) {
    forall i :: 0 <= i < |secs| ==> secs[i].rightComment == ""
  }

  /** All item comments are as loaded. */
  ghost predicate LoadedItems(items: seq<Item>) { forall i :: 0 <= i < |items| ==> Block(items[i].comment) }

  ghost predicate LoadedComments(secs: seq<Section>) {
    forall i :: 0 <= i < |secs| ==> LoadedItems(secs[i].items)
  }
}
