/** Looking up, setting and deleting; and what edits mean for saving. */
module ConfigEdit {
  import opened ConfigText
  import opened ConfigFormat
  import opened ConfigRoundTrip
  import opened ConfigLoaded
  import opened Options

  // ----- lookups -----

  /** All values of a key, in order; `getValue` returns the first, `GetValues` all of them. */
  function ItemValues(items: seq<Item>, key: string): (vs: seq<string>) {
    if items == [] then []
    else (if items[0].key == key then [items[0].value] else []) + ItemValues(items[1..], key)
  }

  function Values(secs: seq<Section>, name: string, key: string): (vs: seq<string>) {
    if secs == [] then []
    else if secs[0].name == name then ItemValues(secs[0].items, key)
    else Values(secs[1..], name, key)
  }

  // ----- edits -----

  /** The first item with the key gets the value and the comment; otherwise a new item is added at the end. */
  function SetItem(items: seq<Item>, key: string, value: string, comment: string): (r: seq<Item>) {
    if items == [] then [Item(key, value, comment, "")]
    else if items[0].key == key then [items[0].(value := value, comment := comment)] + items[1..]
    else [items[0]] + SetItem(items[1..], key, value, comment)
  }

  function SetInSection(secs: seq<Section>, name: string, key: string, value: string, comment: string): (r: seq<Section>) {
    if secs == [] then []
    else if secs[0].name == name then [secs[0].(items := SetItem(secs[0].items, key, value, comment))] + secs[1..]
    else [secs[0]] + SetInSection(secs[1..], name, key, value, comment)
  }

  /** A missing section is created: the unnamed one at the front, others at the end. */
  function EnsureSection(secs: seq<Section>, name: string): (r: seq<Section>) {
    var sec := Section(name, "", "", []);
    if HasSection(secs, name) then secs else if name == "" then [sec] + secs else secs + [sec]
  }

  function CommentText(comment: string): (c: string) { if comment != "" then "#" + comment else "" }

  /** `setValue` */
  function SetValue(secs: seq<Section>, name: string, key: string, value: string, comment: string): (r: seq<Section>) {
    SetInSection(EnsureSection(secs, name), name, key, value, CommentText(comment))
  }

  function DeleteItem(items: seq<Item>, key: string): (r: seq<Item>) {
    if items == [] then [] else if items[0].key == key then items[1..] else [items[0]] + DeleteItem(items[1..], key)
  }

  /** `DeleteKey` */
  function DeleteKey(secs: seq<Section>, name: string, key: string): (r: seq<Section>) {
    if secs == [] then []
    else if secs[0].name == name then [secs[0].(items := DeleteItem(secs[0].items, key))] + secs[1..]
    else [secs[0]] + DeleteKey(secs[1..], name, key)
  }

  /** `DeleteSection` */
  function DeleteSection(secs: seq<Section>, name: string): (r: seq<Section>) {
    if secs == [] then [] else if secs[0].name == name then secs[1..] else [secs[0]] + DeleteSection(secs[1..], name)
  }

  function Tail(vs: seq<string>): (r: seq<string>) { if vs == [] then [] else vs[1..] }

  // ----- what edits do to lookups -----

  lemma {:induction false} SetItemValues(items: seq<Item>, key: string, value: string, comment: string, k: string)
    ensures ItemValues(SetItem(items, key, value, comment), k)
         == if k == key then [value] + Tail(ItemValues(items, k)) else ItemValues(items, k)
  {
    var r := SetItem(items, key, value, comment);
    if items == [] {
      assert r[1..] == [];
    } else {
      assert r[1..] == if items[0].key == key then items[1..] else SetItem(items[1..], key, value, comment);
      if items[0].key != key {
        SetItemValues(items[1..], key, value, comment, k);
      }
    }
  }

  lemma {:induction false} SetInSectionValues(secs: seq<Section>, name: string, key: string, value: string, comment: string,
                                              n: string, k: string)
    requires HasSection(secs, name)
    ensures Values(SetInSection(secs, name, key, value, comment), n, k)
         == if n == name && k == key then [value] + Tail(Values(secs, n, k)) else Values(secs, n, k)
  {
    var r := SetInSection(secs, name, key, value, comment);
    if secs[0].name == name {
      assert r[1..] == secs[1..];
      SetItemValues(secs[0].items, key, value, comment, k);
    } else {
      assert r[1..] == SetInSection(secs[1..], name, key, value, comment);
      HasSectionTail(secs, name);
      SetInSectionValues(secs[1..], name, key, value, comment, n, k);
    }
  }

  lemma HasSectionTail(secs: seq<Section>, name: string)
    requires HasSection(secs, name) && secs[0].name != name
    ensures HasSection(secs[1..], name)
  {
    var i :| 0 <= i < |secs| && secs[i].name == name;
    assert secs[1..][i - 1].name == name;
  }

  lemma {:induction false} ValuesSnoc(secs: seq<Section>, sec: Section, n: string, k: string)
    requires sec.items == []
    ensures Values(secs + [sec], n, k) == Values(secs, n, k)
  {
    if secs == [] {
      assert (secs + [sec])[1..] == [];
    } else {
      assert (secs + [sec])[1..] == secs[1..] + [sec];
      ValuesSnoc(secs[1..], sec, n, k);
    }
  }

  lemma {:induction false} ValuesMissing(secs: seq<Section>, n: string, k: string)
    requires !HasSection(secs, n)
    ensures Values(secs, n, k) == []
  {
    if secs != [] {
      assert !HasSection(secs[1..], n) by {
        forall i | 0 <= i < |secs| - 1 ensures secs[1..][i].name != n { assert secs[i + 1].name != n; }
      }
      ValuesMissing(secs[1..], n, k);
    }
  }

  lemma EnsureSectionValues(secs: seq<Section>, name: string, n: string, k: string)
    ensures Values(EnsureSection(secs, name), n, k) == Values(secs, n, k)
    ensures HasSection(EnsureSection(secs, name), name)
  {
    var sec := Section(name, "", "", []);
    if !HasSection(secs, name) {
      ValuesMissing(secs, name, k);
      if name == "" {
        assert ([sec] + secs)[1..] == secs && ([sec] + secs)[0].name == name;
      } else {
        ValuesSnoc(secs, sec, n, k);
        assert (secs + [sec])[|secs|].name == name;
      }
    }
  }

  /** The last set wins, and disturbs no other pair: only the first value of this key in this section changes. */
  lemma SetThenLookup(secs: seq<Section>, name: string, key: string, value: string, comment: string, n: string, k: string)
    ensures Values(SetValue(secs, name, key, value, comment), n, k)
         == if n == name && k == key then [value] + Tail(Values(secs, n, k)) else Values(secs, n, k)
  {
    EnsureSectionValues(secs, name, n, k);
    SetInSectionValues(EnsureSection(secs, name), name, key, value, CommentText(comment), n, k);
  }

  // ----- the whole item that a set leaves -----

  function FirstItem(items: seq<Item>, key: string): (r: Option<Item>) {
    if items == [] then None else if items[0].key == key then Some(items[0]) else FirstItem(items[1..], key)
  }

  /** The item that a lookup finds: the first with the key in the first section of the name. */
  function FirstItemOf(secs: seq<Section>, name: string, key: string): (r: Option<Item>) {
    if secs == [] then None
    else if secs[0].name == name then FirstItem(secs[0].items, key)
    else FirstItemOf(secs[1..], name, key)
  }

  function RightOf(r: Option<Item>): (s: string) { if r.Some? then r.value.rightComment else "" }

  lemma {:induction false} SetItemFirst(items: seq<Item>, key: string, value: string, comment: string, k: string)
    ensures FirstItem(SetItem(items, key, value, comment), k)
         == if k == key then Some(Item(key, value, comment, RightOf(FirstItem(items, key)))) else FirstItem(items, k)
  {
    if items == [] {
      assert [Item(key, value, comment, "")][1..] == [];
    } else if items[0].key != key {
      SetItemFirst(items[1..], key, value, comment, k);
      assert ([items[0]] + SetItem(items[1..], key, value, comment))[1..] == SetItem(items[1..], key, value, comment);
    } else {
      var item := items[0].(value := value, comment := comment);
      assert ([item] + items[1..])[1..] == items[1..];
    }
  }

  lemma {:induction false} SetInSectionFirst(secs: seq<Section>, name: string, key: string, value: string, comment: string,
                                             n: string, k: string)
    requires HasSection(secs, name)
    ensures FirstItemOf(SetInSection(secs, name, key, value, comment), n, k)
         == if n == name && k == key then Some(Item(key, value, comment, RightOf(FirstItemOf(secs, n, k))))
            else FirstItemOf(secs, n, k)
  {
    var r := SetInSection(secs, name, key, value, comment);
    if secs[0].name == name {
      SetItemFirst(secs[0].items, key, value, comment, k);
      hide SetItem;
      assert r[1..] == secs[1..];
    } else {
      HasSectionTail(secs, name);
      SetInSectionFirst(secs[1..], name, key, value, comment, n, k);
      assert r[1..] == SetInSection(secs[1..], name, key, value, comment);
    }
  }

  lemma {:induction false} FirstSnoc(secs: seq<Section>, sec: Section, n: string, k: string)
    requires sec.items == []
    ensures FirstItemOf(secs + [sec], n, k) == FirstItemOf(secs, n, k)
  {
    if secs == [] {
      assert secs + [sec] == [sec] && [sec][1..] == [];
    } else {
      assert (secs + [sec])[1..] == secs[1..] + [sec];
      FirstSnoc(secs[1..], sec, n, k);
    }
  }

  lemma {:induction false} FirstMissing(secs: seq<Section>, n: string, k: string)
    requires !HasSection(secs, n)
    ensures FirstItemOf(secs, n, k) == None
  {
    if secs != [] {
      FirstMissing(secs[1..], n, k);
    }
  }

  /**
   Setting leaves the value and the comment, with its sign, in the first item of the key, keeps that item's right
   comment, and changes no other item that a lookup finds.
   */
  lemma SetThenItem(secs: seq<Section>, name: string, key: string, value: string, comment: string, n: string, k: string)
    ensures FirstItemOf(SetValue(secs, name, key, value, comment), n, k)
         == if n == name && k == key
            then Some(Item(key, value, if comment == "" then "" else "#" + comment, RightOf(FirstItemOf(secs, n, k))))
            else FirstItemOf(secs, n, k)
  {
    var sec := Section(name, "", "", []);
    EnsureSectionValues(secs, name, n, k);
    SetInSectionFirst(EnsureSection(secs, name), name, key, value, CommentText(comment), n, k);
    hide SetInSection;
    if !HasSection(secs, name) {
      if name == "" {
        assert ([sec] + secs)[1..] == secs;
        if n == name {
          FirstMissing(secs, n, k);
        }
      } else {
        FirstSnoc(secs, sec, n, k);
      }
    }
  }

  lemma {:induction false} DeleteItemValues(items: seq<Item>, key: string, k: string)
    ensures ItemValues(DeleteItem(items, key), k)
         == if k == key then Tail(ItemValues(items, k)) else ItemValues(items, k)
  {
    if items != [] && items[0].key != key {
      assert DeleteItem(items, key)[1..] == DeleteItem(items[1..], key);
      DeleteItemValues(items[1..], key, k);
    }
  }

  /** Deleting a key removes its first value and disturbs no other pair. */
  lemma {:induction false} DeleteThenLookup(secs: seq<Section>, name: string, key: string, n: string, k: string)
    ensures Values(DeleteKey(secs, name, key), n, k)
         == if n == name && k == key then Tail(Values(secs, n, k)) else Values(secs, n, k)
  {
    if secs != [] {
      var r := DeleteKey(secs, name, key);
      if secs[0].name == name {
        assert r[1..] == secs[1..];
        DeleteItemValues(secs[0].items, key, k);
      } else {
        assert r[1..] == DeleteKey(secs[1..], name, key);
        DeleteThenLookup(secs[1..], name, key, n, k);
      }
    }
  }

  /** Deleting a section removes exactly its pairs, since names are unique. */
  lemma {:induction false} DeleteSectionThenLookup(secs: seq<Section>, name: string, n: string, k: string)
    requires DistinctNames(secs)
    ensures Values(DeleteSection(secs, name), n, k) == if n == name then [] else Values(secs, n, k)
  {
    if secs != [] {
      assert DistinctNames(secs[1..]);
      if secs[0].name == name {
        if n == name {
          assert !HasSection(secs[1..], n) by {
            forall i | 0 <= i < |secs| - 1 ensures secs[1..][i].name != n { assert secs[i + 1].name != secs[0].name; }
          }
          ValuesMissing(secs[1..], n, k);
        }
      } else {
        assert DeleteSection(secs, name)[1..] == DeleteSection(secs[1..], name);
        DeleteSectionThenLookup(secs[1..], name, n, k);
      }
    }
  }

  // ----- edits keep a configuration clean -----

  /** Arguments of `setValue` that the file format can express. */
  predicate CleanSet(name: string, key: string, value: string, comment: string) {
    (name == "" || CleanName(name)) && CleanKey(key) && CleanValue(value) && '\n' !in comment
  }

  ghost predicate CleanItems(items: seq<Item>) { forall i :: 0 <= i < |items| ==> CleanItem(items[i]) }

  lemma {:induction false} SetItemClean(items: seq<Item>, key: string, value: string, comment: string)
    requires CleanItems(items) && CleanKey(key) && CleanValue(value) && ItemComment(comment)
    ensures CleanItems(SetItem(items, key, value, comment))
  {
    assert CleanItem(Item(key, value, comment, ""));
    if items != [] {
      assert CleanItem(items[0]);
      assert CleanItem(items[0].(key := key, value := value, comment := comment));
      hide CleanItem;
      assert CleanItems(items[1..]);
      if items[0].key != key {
        SetItemClean(items[1..], key, value, comment);
      }
    }
  }

  /** The sections have the same names, one by one. */
  ghost predicate SameNames(a: seq<Section>, b: seq<Section>) {
    |a| == |b| && forall i :: 0 <= i < |a| ==> a[i].name == b[i].name
  }

  lemma SameNamesGood(a: seq<Section>, b: seq<Section>)
    requires SameNames(a, b) && GoodNames(a)
    ensures GoodNames(b)
  {
    if b != [] {
      forall i | 0 <= i < |b| - 1 ensures b[1..][i].name != "" { assert a[1..][i].name != ""; }
    }
  }

  lemma {:induction false} SetInSectionClean(secs: seq<Section>, name: string, key: string, value: string, comment: string)
    requires AllClean(secs) && CleanKey(key) && CleanValue(value) && ItemComment(comment)
    ensures AllClean(SetInSection(secs, name, key, value, comment))
    ensures SameNames(secs, SetInSection(secs, name, key, value, comment))
  {
    hide CleanSection, CleanKey, CleanValue, ItemComment, SetItem;
    if secs != [] {
      ChangedSectionClean(secs[0], key, value, comment);
      assert AllClean(secs[1..]);
      SetInSectionClean(secs[1..], name, key, value, comment);
    }
  }

  lemma ChangedSectionClean(sec: Section, key: string, value: string, comment: string)
    requires CleanSection(sec) && CleanKey(key) && CleanValue(value) && ItemComment(comment)
    ensures CleanSection(sec.(items := SetItem(sec.items, key, value, comment)))
  {
    hide CleanItem, Block, SetItem, CleanKey, CleanValue, ItemComment;
    SetItemClean(sec.items, key, value, comment);
  }

  lemma EnsureSectionClean(secs: seq<Section>, name: string)
    requires CleanConfig(secs) && (name == "" || CleanName(name))
    ensures CleanConfig(EnsureSection(secs, name))
  {
    var sec := Section(name, "", "", []);
    assert CleanSection(sec);
    hide CleanSection, HasSection;
    if !HasSection(secs, name) {
      if name == "" {
        MissingIsDifferent(secs, name);
        assert ([sec] + secs)[1..] == secs;
        assert AllNamed(secs);
      } else {
        DistinctSnoc(secs, sec);
        if secs != [] {
          assert (secs + [sec])[1..] == secs[1..] + [sec];
        }
      }
    }
  }

  lemma MissingIsDifferent(secs: seq<Section>, name: string)
    requires !HasSection(secs, name)
    ensures forall i :: 0 <= i < |secs| ==> secs[i].name != name
  {
  }

  lemma SetClean(secs: seq<Section>, name: string, key: string, value: string, comment: string)
    requires CleanConfig(secs) && CleanSet(name, key, value, comment)
    ensures CleanConfig(SetValue(secs, name, key, value, comment))
  {
    var c := CommentText(comment);
    assert ItemComment(c);
    hide CleanKey, CleanValue, ItemComment, CleanName, AllClean, GoodNames;
    EnsureSectionClean(secs, name);
    var e := EnsureSection(secs, name);
    SetInSectionClean(e, name, key, value, c);
    SameNamesGood(e, SetInSection(e, name, key, value, c));
  }

  lemma {:induction false} DeleteItemClean(items: seq<Item>, key: string)
    requires CleanItems(items)
    ensures CleanItems(DeleteItem(items, key))
  {
    hide CleanItem;
    if items != [] {
      assert CleanItems(items[1..]);
      if items[0].key != key {
        DeleteItemClean(items[1..], key);
      }
    }
  }

  lemma {:induction false} DeleteKeyClean(secs: seq<Section>, name: string, key: string)
    requires AllClean(secs)
    ensures AllClean(DeleteKey(secs, name, key)) && SameNames(secs, DeleteKey(secs, name, key))
  {
    hide CleanSection, DeleteItem;
    if secs != [] {
      DeletedSectionClean(secs[0], key);
      assert AllClean(secs[1..]);
      DeleteKeyClean(secs[1..], name, key);
    }
  }

  lemma DeletedSectionClean(sec: Section, key: string)
    requires CleanSection(sec)
    ensures CleanSection(sec.(items := DeleteItem(sec.items, key)))
  {
    hide CleanItem, Block, DeleteItem;
    DeleteItemClean(sec.items, key);
  }

  lemma {:induction false} DeleteSectionClean(secs: seq<Section>, name: string)
    requires CleanConfig(secs)
    ensures CleanConfig(DeleteSection(secs, name))
    ensures AllNamed(secs) ==> AllNamed(DeleteSection(secs, name))
    ensures forall n :: !HasSection(secs, n) ==> !HasSection(DeleteSection(secs, name), n)
    decreases |secs|
  {
    hide CleanSection;
    if secs != [] {
      var rest := secs[1..];
      CleanTail(secs);
      assert CleanConfig(rest) by {
        if rest != [] {
          assert rest[1..] == secs[2..];
        }
      }
      TailHasFewer(secs);
      if secs[0].name != name {
        DeleteSectionClean(rest, name);
        var d := DeleteSection(rest, name);
        assert !HasSection(rest, secs[0].name) by {
          forall i | 0 <= i < |rest| ensures rest[i].name != secs[0].name { assert rest[i] == secs[i + 1]; }
        }
        ConsClean(secs[0], d);
        assert DeleteSection(secs, name) == [secs[0]] + d;
        forall n | !HasSection(secs, n) ensures !HasSection([secs[0]] + d, n) {
          assert secs[0].name != n;
          assert !HasSection(rest, n) && !HasSection(d, n);
          MissingIsDifferent(d, n);
        }
      }
    }
  }

  lemma TailHasFewer(secs: seq<Section>)
    requires secs != []
    ensures forall n :: !HasSection(secs, n) ==> !HasSection(secs[1..], n)
  {
    forall n | !HasSection(secs, n) ensures !HasSection(secs[1..], n) {
      forall i | 0 <= i < |secs| - 1 ensures secs[1..][i].name != n { assert secs[i + 1].name != n; }
    }
  }

  lemma ConsClean(sec: Section, secs: seq<Section>)
    requires CleanSection(sec) && CleanConfig(secs) && AllNamed(secs) && !HasSection(secs, sec.name)
    ensures CleanConfig([sec] + secs)
  {
    hide CleanSection;
    assert ([sec] + secs)[1..] == secs;
    MissingIsDifferent(secs, sec.name);
  }

  // ----- any run of operations -----

  datatype Op =
    | OpLoad(text: string)
    | OpSet(name: string, key: string, value: string, comment: string)
    | OpDeleteKey(name: string, key: string)
    | OpDeleteSection(name: string)

  function Apply(secs: seq<Section>, op: Op): (r: seq<Section>) {
    match op
    case OpLoad(text) => Load(text).sections
    case OpSet(name, key, value, comment) => SetValue(secs, name, key, value, comment)
    case OpDeleteKey(name, key) => DeleteKey(secs, name, key)
    case OpDeleteSection(name) => DeleteSection(secs, name)
  }

  function Run(secs: seq<Section>, ops: seq<Op>): (r: seq<Section>)
    decreases |ops|
  {
    if ops == [] then secs else Run(Apply(secs, ops[0]), ops[1..])
  }

  predicate CleanOp(op: Op) { op.OpSet? ==> CleanSet(op.name, op.key, op.value, op.comment) }

  lemma ApplyClean(secs: seq<Section>, op: Op)
    requires CleanConfig(secs) && CleanOp(op)
    ensures CleanConfig(Apply(secs, op))
  {
    hide AllClean, GoodNames, CleanSet;
    match op
    case OpLoad(text) => LoadIsClean(text);
    case OpSet(name, key, value, comment) => SetClean(secs, name, key, value, comment);
    case OpDeleteKey(name, key) =>
      DeleteKeyClean(secs, name, key);
      SameNamesGood(secs, DeleteKey(secs, name, key));
    case OpDeleteSection(name) => DeleteSectionClean(secs, name);
  }

  lemma {:induction false} RunClean(secs: seq<Section>, ops: seq<Op>)
    requires CleanConfig(secs) && forall i :: 0 <= i < |ops| ==> CleanOp(ops[i])
    ensures CleanConfig(Run(secs, ops))
    decreases |ops|
  {
    hide CleanConfig, CleanOp, Apply;
    if ops != [] {
      ApplyClean(secs, ops[0]);
      RunClean(Apply(secs, ops[0]), ops[1..]);
    }
  }

  lemma {:induction false} NormItemsValues(items: seq<Item>, k: string)
    ensures ItemValues(NormItems(items), k) == ItemValues(items, k)
  {
    if items != [] {
      NormItemsValues(items[1..], k);
      assert NormItems(items)[1..] == NormItems(items[1..]);
    }
  }

  lemma {:induction false} NormSectionsValues(secs: seq<Section>, n: string, k: string)
    ensures Values(NormSections(secs), n, k) == Values(secs, n, k)
  {
    if secs != [] {
      NormItemsValues(secs[0].items, k);
      NormSectionsValues(secs[1..], n, k);
      assert NormSections(secs)[1..] == NormSections(secs[1..]);
    }
  }

  lemma NormaliseValues(secs: seq<Section>, n: string, k: string)
    requires CleanConfig(secs)
    ensures Values(Normalise(secs), n, k) == Values(secs, n, k)
  {
    NormSectionsValues(secs, n, k);
    if !(secs != [] && secs[0].name == "") {
      var r := [UNNAMED] + NormSections(secs);
      assert r[1..] == NormSections(secs);
      if n == "" {
        if secs != [] {
          CleanTail(secs);
        }
        assert !HasSection(secs, "");
        ValuesMissing(secs, n, k);
      }
    }
  }

  lemma {:induction false} NormSectionsRight(secs: seq<Section>)
    ensures forall i :: 0 <= i < |secs| ==> NormSections(secs)[i].rightComment == secs[i].rightComment
  {
    if secs != [] {
      NormSectionsRight(secs[1..]);
      assert forall i :: 0 < i < |secs| ==> NormSections(secs)[i] == NormSections(secs[1..])[i - 1];
    }
  }

  lemma NormaliseRight(secs: seq<Section>)
    ensures NoSectionRight(Normalise(secs)) <==> NoSectionRight(secs)
  {
    NormSectionsRight(secs);
    if !(secs != [] && secs[0].name == "") {
      assert Normalise(secs)[1..] == NormSections(secs);
      assert forall i :: 0 <= i < |secs| ==> Normalise(secs)[i + 1] == NormSections(secs)[i];
    }
  }

  /** A clean configuration comes back from saving and loading exactly if no section has a right comment. */
  lemma ReloadNormal(secs: seq<Section>)
    requires CleanConfig(secs)
    ensures Load(Save(secs)) == Idle(Normalise(secs)) <==> NoSectionRight(secs)
  {
    hide Load, Save, CleanConfig, NoSectionRight, Normalise;
    if NoSectionRight(secs) {
      LoadSave(secs);
    } else {
      ReloadHasNoSectionRight(secs);
      NormaliseRight(secs);
    }
  }

  /**
   After any run of loads, sets with clean arguments and deletions, starting from an empty configuration:
   names are unique with the unnamed section first; saving and loading gives the normal form exactly if no
   section has a right comment; and then every lookup gives the same values.
   */
  lemma EditsSurviveSaving(ops: seq<Op>, n: string, k: string)
    requires forall i :: 0 <= i < |ops| ==> CleanOp(ops[i])
    ensures GoodNames(Run([], ops))
    ensures Load(Save(Run([], ops))) == Idle(Normalise(Run([], ops))) <==> NoSectionRight(Run([], ops))
    ensures NoSectionRight(Run([], ops)) ==>
              Load(Save(Run([], ops))).err == RET_OK
              && Values(Load(Save(Run([], ops))).sections, n, k) == Values(Run([], ops), n, k)
  {
    RunClean([], ops);
    var secs := Run([], ops);
    hide Run, CleanOp, NoSectionRight, Load, Save, Normalise;
    ReloadNormal(secs);
    NormaliseValues(secs, n, k);
  }
}
