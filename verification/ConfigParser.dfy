/** The class `ConfigParser`, with the loops of the source. */
module ConfigParser {
  import opened ConfigText
  import opened ConfigFormat
  import opened ConfigLoaded
  import opened ConfigEdit
  import opened Spaces

  const ERR_NOT_FOUND_KEY := 8
  const ERR_NOT_FOUND_SECTION := 9

  // ----- strings -----

  /** `trim` */
  method TrimLoop(str0: string) returns (str: string)
    ensures str == Trim(str0)
  {
    str := str0;
    var len, i := |str|, 0;
    while i < len && IsSpace(str[i])
      invariant 0 <= i <= len && TrimLeft(str[i..]) == TrimLeft(str)
    {
      assert str[i..][1..] == str[i + 1..];
      i := i + 1;
    }
    assert i < len ==> str[i..][0] == str[i];
    if i != 0 {
      str := str[i..];
    } else {
      assert str[0..] == str;
    }
    ghost var left := str;
    i := |str| - 1;
    assert str[..i + 1] == str;
    while i >= 0 && IsSpace(str[i])
      invariant -1 <= i < |str| && TrimRight(str[..i + 1]) == TrimRight(left) && str == left
      decreases i
    {
      assert str[..i + 1][..i] == str[..i];
      i := i - 1;
    }
    str := str[..i + 1];
  }

  /** `find`, for a separator of one character */
  method FindLoop(str: string, sep: char) returns (pos: nat)
    ensures pos == Find(str, sep)
  {
    pos := 0;
    while pos < |str| && str[pos] != sep
      invariant pos <= |str| && Find(str, sep) == pos + Find(str[pos..], sep)
    {
      assert str[pos..][1..] == str[pos + 1..];
      pos := pos + 1;
    }
    assert pos < |str| ==> str[pos..][0] == sep;
  }

  /** `split` */
  method Split(str: string, sep: char) returns (found: bool, left: string, right: string)
    ensures found == (Find(str, sep) < |str|)
    ensures left == Trim(str[..Find(str, sep)])
    ensures right == if found then Trim(str[Find(str, sep) + 1..]) else ""
  {
    var pos := FindLoop(str, sep);
    if pos < |str| {
      found := true;
      left := TrimLoop(str[..pos]);
      right := TrimLoop(str[pos + 1..]);
    } else {
      assert str[..pos] == str;
      found := false;
      left := TrimLoop(str);
      right := "";
    }
  }

  /** Sections are held by value; they are reachable only through the list. */
  class Parser {
    var sections: seq<Section>

    constructor ()
      ensures sections == []
    {
      sections := [];
    }

    /** `getSection`: the index of the first section with the name, or the number of sections. */
    method GetSection(name: string) returns (i: nat)
      ensures i <= |sections| && (i < |sections| ==> sections[i].name == name)
      ensures forall j :: 0 <= j < i ==> sections[j].name != name
      ensures i < |sections| <==> HasSection(sections, name)
    {
      i := 0;
      while i < |sections| && sections[i].name != name
        invariant i <= |sections| && forall j :: 0 <= j < i ==> sections[j].name != name
      {
        i := i + 1;
      }
    }

    /** The text is the content of the file; that the file can be opened is taken for granted. */
    method Load(text: string) returns (err: int)
      modifies this
      ensures sections == ConfigFormat.Load(text).sections && err == ConfigFormat.Load(text).err
      ensures Loaded(sections)
    {
      hide ConfigFormat.LoadLine, LoadText, Loaded, Find;
      LoadIsClean(text);
      var comment := "";
      var ifs := text;
      err := RET_OK;
      sections := [UNNAMED];
      while ifs != "" && err == RET_OK
        invariant sections != []
        invariant LoadText(Loading(sections, comment, err), ifs) == ConfigFormat.Load(text)
        decreases |ifs|
      {
        LoadTextStep(Loading(sections, comment, err), ifs);
        var i := FindLoop(ifs, '\n');
        var line := ifs[..i];
        ifs := if i < |ifs| then ifs[i + 1..] else "";
        comment, err := LoadOneLine(line, comment);
      }
      LoadTextEnd(Loading(sections, comment, err), ifs);
    }

    /** The body of the loop in `Load`. */
    method LoadOneLine(line0: string, comment0: string) returns (comment: string, err: int)
      requires sections != []
      modifies this
      ensures Loading(sections, comment, err) == LoadLine(old(Loading(sections, comment0, RET_OK)), line0)
    {
      hide Trim, Find;
      comment, err := comment0, RET_OK;
      var line := TrimLoop(line0);
      if |line| <= 0 {
        comment := comment + "\n";
        return;
      }
      if line[0] == '#' {
        comment := comment + line + "\n";
        return;
      }
      var _, cleanLine, rightComment := Split(line, '#');
      if cleanLine != "" && cleanLine[0] == '[' {
        err := UpdateSection(cleanLine, comment, rightComment);
      } else {
        err := AddKeyValuePair(cleanLine, comment, rightComment);
      }
      if err == RET_OK {
        comment := "";
      }
    }

    method UpdateSection(cleanLine: string, comment: string, rightComment: string) returns (err: int)
      requires sections != [] && cleanLine != "" && cleanLine[0] == '['
      modifies this
      ensures var r := AddSection(old(Loading(sections, comment, RET_OK)), cleanLine, rightComment);
              sections == r.sections && err == r.err
    {
      hide Trim, Find;
      var index := FindLoop(cleanLine, ']');
      if index == |cleanLine| {
        return ERR_UNMATCHED_BRACKETS;
      }
      var len := index - 1;
      if len <= 0 {
        return ERR_SECTION_EMPTY;
      }
      var s := TrimLoop(cleanLine[1..1 + len]);
      var i := GetSection(s);
      if i < |sections| {
        return ERR_SECTION_ALREADY_EXISTS;
      }
      sections := sections + [Section(s, comment, rightComment, [])];
      err := RET_OK;
    }

    method AddKeyValuePair(cleanLine: string, comment: string, rightComment: string) returns (err: int)
      requires sections != []
      modifies this
      ensures var r := AddItem(old(Loading(sections, comment, RET_OK)), cleanLine, rightComment);
              sections == r.sections && err == r.err
    {
      hide Trim, Find;
      var found, key, value := Split(cleanLine, '=');
      if !found {
        return ERR_PARSE_KEY_VALUE_FAILED;
      }
      var last := |sections| - 1;
      var item := Item(key, value, comment, rightComment);
      sections := sections[last := sections[last].(items := sections[last].items + [item])];
      err := RET_OK;
    }

    /** The text written to the file. */
    method SaveAs() returns (data: string)
      ensures data == Save(sections)
    {
      hide SaveSection;
      data := "";
      for i := 0 to |sections|
        invariant data + Save(sections[i..]) == Save(sections)
      {
        assert sections[i..][1..] == sections[i + 1..];
        Associative(data, SaveSection(sections[i]), Save(sections[i + 1..]));
        data := SaveOne(data, sections[i]);
      }
      assert data + "" == data;
    }

    /** The body of the loop in `SaveAs`. */
    method SaveOne(data0: string, sect: Section) returns (data: string)
      ensures data == data0 + SaveSection(sect)
    {
      data := data0;
      if sect.comment != "" {
        data := data + sect.comment;
      }
      if sect.name != "" {
        data := data + ("[" + sect.name + "]");
        data := data + "\n";
      }
      if sect.rightComment != "" {
        data := data + (" #" + sect.rightComment);
      }
      assert data == data0 + (sect.comment + Header(sect));
      ghost var before := data;
      hide SaveItem, Header;
      for j := 0 to |sect.items|
        invariant data + SaveItems(sect.items[j..]) == before + SaveItems(sect.items)
      {
        assert sect.items[j..][1..] == sect.items[j + 1..];
        Associative(data, SaveItem(sect.items[j]), SaveItems(sect.items[j + 1..]));
        data := SaveOneItem(data, sect.items[j]);
      }
      assert data + "" == data;
      Associative(data0, sect.comment + Header(sect), SaveItems(sect.items));
    }

    method SaveOneItem(data0: string, item: Item) returns (data: string)
      ensures data == data0 + SaveItem(item)
    {
      data := data0;
      if item.comment != "" {
        data := data + item.comment;
        if data[|data| - 1] != '\n' {
          data := data + "\n";
        }
      }
      assert data == data0 + EndLine(item.comment);
      ghost var before := data;
      data := data + (item.key + "=" + item.value);
      if item.rightComment != "" {
        data := data + (" #" + item.rightComment);
      }
      assert data == before + ItemLine(item);
      assert data[|data| - 1] == ItemLine(item)[|ItemLine(item)| - 1];
      if data[|data| - 1] != '\n' {
        data := data + "\n";
      }
      assert data == before + EndLine(ItemLine(item));
      Associative(data0, EndLine(item.comment), EndLine(ItemLine(item)));
    }

    /** `getValue`: the first value of the key in the section, and its comment. */
    method GetValue(section: string, key: string) returns (err: int, value: string, comment: string)
      ensures err == 0 <==> Values(sections, section, key) != []
      ensures err == 0 ==> value == Values(sections, section, key)[0]
      ensures err == 9 <==> !HasSection(sections, section)
      ensures err == 0 || err == 9 || err == 8
      ensures err == 0 ==>
                var item := FirstItemOf(sections, section, key);
                item.Some? && value == item.value.value && comment == item.value.comment
    {
      value, comment := "", "";
      var i := GetSection(section);
      if i == |sections| {
        ValuesMissing(sections, section, key);
        return ERR_NOT_FOUND_SECTION, value, comment;
      }
      ValuesAt(sections, section, key, i);
      var items := sections[i].items;
      for j := 0 to |items|
        invariant ItemValues(items[j..], key) == ItemValues(items, key)
        invariant FirstItem(items[j..], key) == FirstItem(items, key)
      {
        assert items[j..][1..] == items[j + 1..];
        if items[j].key == key {
          return RET_OK, items[j].value, items[j].comment;
        }
        assert [] + ItemValues(items[j + 1..], key) == ItemValues(items[j + 1..], key);
      }
      err := ERR_NOT_FOUND_KEY;
    }

    /** `setValue` */
    method SetValue(section: string, key: string, value: string, comment: string)
      modifies this
      ensures sections == ConfigEdit.SetValue(old(sections), section, key, value, comment)
      ensures CleanConfig(old(sections)) && CleanSet(section, key, value, comment) ==> CleanConfig(sections)
      ensures forall n, k :: Values(sections, n, k)
                == if n == section && k == key then [value] + Tail(Values(old(sections), n, k)) else Values(old(sections), n, k)
    {
      hide Values, CleanConfig, CleanSet;
      forall n, k ensures Values(ConfigEdit.SetValue(sections, section, key, value, comment), n, k)
                == if n == section && k == key then [value] + Tail(Values(sections, n, k)) else Values(sections, n, k) {
        SetThenLookup(sections, section, key, value, comment, n, k);
      }
      if CleanConfig(sections) && CleanSet(section, key, value, comment) {
        SetClean(sections, section, key, value, comment);
      }
      ghost var secs := sections;
      var comt := if comment != "" then "#" + comment else "";
      var i := GetSection(section);
      if i == |sections| {
        var sect := Section(section, "", "", []);
        if section == "" {
          sections := [sect] + sections;
          i := 0;
        } else {
          sections := sections + [sect];
        }
      }
      assert sections == EnsureSection(secs, section);
      SetAt(sections, section, key, value, comt, i);
      var items := SetItemLoop(sections[i].items, key, value, comt);
      sections := sections[i := sections[i].(items := items)];
    }

    /** The loop over the items in `setValue`, and what follows it. */
    method SetItemLoop(items0: seq<Item>, key: string, value: string, comt: string) returns (items: seq<Item>)
      ensures items == SetItem(items0, key, value, comt)
    {
      hide SetItem;
      items := items0;
      for j := 0 to |items|
        invariant items == items0
        invariant items0[..j] + SetItem(items0[j..], key, value, comt) == SetItem(items0, key, value, comt)
      {
        SetItemAt(items0, j, key, value, comt);
        if items[j].key == key {
          items := items[j := items[j].(value := value, comment := comt)];
          Cut(items, j, items0[j + 1..]);
          return;
        }
        Cut(items0, j, SetItem(items0[j + 1..], key, value, comt));
      }
      assert items0[|items0|..] == [];
      SetItemAtEnd(key, value, comt);
      items := items + [Item(key, value, comt, "")];
    }

    /** `DeleteSection` */
    method DeleteSection(section: string)
      modifies this
      ensures sections == ConfigEdit.DeleteSection(old(sections), section)
      ensures CleanConfig(old(sections)) ==> CleanConfig(sections)
    {
      hide CleanConfig;
      if CleanConfig(sections) {
        DeleteSectionClean(sections, section);
      }
      var i := GetSection(section);
      DeleteSectionAt(sections, section, i);
      if i < |sections| {
        sections := sections[..i] + sections[i + 1..];
      }
    }

    /** `DeleteKey` */
    method DeleteKey(section: string, key: string)
      modifies this
      ensures sections == ConfigEdit.DeleteKey(old(sections), section, key)
      ensures CleanConfig(old(sections)) ==> CleanConfig(sections)
    {
      hide CleanConfig, CleanSection;
      if CleanConfig(sections) {
        ApplyClean(sections, OpDeleteKey(section, key));
      }
      var i := GetSection(section);
      DeleteKeyAt(sections, section, key, i);
      if i < |sections| {
        var items := DeleteItemLoop(sections[i].items, key);
        sections := sections[i := sections[i].(items := items)];
      }
    }

    method DeleteItemLoop(items0: seq<Item>, key: string) returns (items: seq<Item>)
      ensures items == DeleteItem(items0, key)
    {
      items := items0;
      for j := 0 to |items|
        invariant items == items0
        invariant items0[..j] + DeleteItem(items0[j..], key) == DeleteItem(items0, key)
      {
        assert items0[j..][1..] == items0[j + 1..];
        if items[j].key == key {
          items := items[..j] + items[j + 1..];
          return;
        }
        assert items0[..j] + ([items0[j]] + DeleteItem(items0[j + 1..], key))
            == items0[..j + 1] + DeleteItem(items0[j + 1..], key);
      }
      assert items0[..|items0|] + [] == items0;
    }
  }

  lemma LoadTextStep(st: Loading, text: string)
    requires st.sections != [] && text != "" && st.err == RET_OK
    ensures var i := Find(text, '\n');
            LoadText(st, text) == LoadText(LoadLine(st, text[..i]), if i < |text| then text[i + 1..] else "")
  {
    hide LoadLine;
  }

  lemma LoadTextEnd(st: Loading, text: string)
    requires st.sections != [] && (text == "" || st.err != RET_OK)
    ensures LoadText(st, text) == st
  {
  }

  // ----- the recursive definitions at the index that the loops find -----

  /** `i` is the index that `getSection` returns. */
  ghost predicate FirstNamed(secs: seq<Section>, name: string, i: nat) {
    i <= |secs| && (i < |secs| ==> secs[i].name == name) && forall j :: 0 <= j < i ==> secs[j].name != name
  }

  lemma SetItemAt(items: seq<Item>, j: nat, key: string, value: string, comment: string)
    requires j < |items|
    ensures SetItem(items[j..], key, value, comment)
         == if items[j].key == key then [items[j].(value := value, comment := comment)] + items[j + 1..]
            else [items[j]] + SetItem(items[j + 1..], key, value, comment)
  {
    assert items[j..][1..] == items[j + 1..];
  }

  lemma SetItemAtEnd(key: string, value: string, comment: string)
    ensures SetItem([], key, value, comment) == [Item(key, value, comment, "")]
  {
  }

  lemma Cut(items: seq<Item>, j: nat, rest: seq<Item>)
    requires j < |items|
    ensures items[..j] + ([items[j]] + rest) == items[..j + 1] + rest
    ensures rest == items[j + 1..] ==> items[..j] + ([items[j]] + rest) == items
  {
  }

  lemma FirstNamedTail(secs: seq<Section>, name: string, i: nat)
    requires FirstNamed(secs, name, i) && i > 0
    ensures FirstNamed(secs[1..], name, i - 1)
  {
  }

  lemma {:induction false} ValuesAt(secs: seq<Section>, name: string, key: string, i: nat)
    requires FirstNamed(secs, name, i) && i < |secs|
    ensures Values(secs, name, key) == ItemValues(secs[i].items, key)
    ensures FirstItemOf(secs, name, key) == FirstItem(secs[i].items, key)
  {
    if i > 0 {
      FirstNamedTail(secs, name, i);
      ValuesAt(secs[1..], name, key, i - 1);
    }
  }

  lemma {:induction false} SetAt(secs: seq<Section>, name: string, key: string, value: string, comment: string, i: nat)
    requires FirstNamed(secs, name, i) && i < |secs|
    ensures SetInSection(secs, name, key, value, comment)
         == secs[i := secs[i].(items := SetItem(secs[i].items, key, value, comment))]
  {
    if i > 0 {
      FirstNamedTail(secs, name, i);
      SetAt(secs[1..], name, key, value, comment, i - 1);
    }
  }

  lemma {:induction false} DeleteKeyAt(secs: seq<Section>, name: string, key: string, i: nat)
    requires FirstNamed(secs, name, i)
    ensures ConfigEdit.DeleteKey(secs, name, key)
         == if i < |secs| then secs[i := secs[i].(items := DeleteItem(secs[i].items, key))] else secs
  {
    if i > 0 {
      FirstNamedTail(secs, name, i);
      DeleteKeyAt(secs[1..], name, key, i - 1);
    }
  }

  lemma {:induction false} DeleteSectionAt(secs: seq<Section>, name: string, i: nat)
    requires FirstNamed(secs, name, i)
    ensures ConfigEdit.DeleteSection(secs, name) == if i < |secs| then secs[..i] + secs[i + 1..] else secs
  {
    if i > 0 {
      FirstNamedTail(secs, name, i);
      DeleteSectionAt(secs[1..], name, i - 1);
      if i < |secs| {
        assert secs[1..][..i - 1] == secs[1..i] && secs[1..][i..] == secs[i + 1..];
      }
    }
  }
}
