/** What each line of a configuration file means, in its characters: headers, items, comments and errors. */
module ConfigLines {
  import opened ConfigText
  import opened ConfigFormat
  import opened ConfigRoundTrip
  import opened Spaces

  // ----- trimming, once more -----

  ghost predicate AllSpaces(s: string) { forall i :: 0 <= i < |s| ==> IsSpace(s[i]) }

  lemma {:induction false} TrimLeftPast(pre: string, s: string)
    requires AllSpaces(pre)
    ensures TrimLeft(pre + s) == TrimLeft(s)
  {
    if pre == "" {
      assert pre + s == s;
    } else {
      assert (pre + s)[1..] == pre[1..] + s;
      TrimLeftPast(pre[1..], s);
    }
  }

  lemma {:induction false} TrimRightPast(s: string, post: string)
    requires AllSpaces(post)
    ensures TrimRight(s + post) == TrimRight(s)
  {
    hide IsSpace;
    if post == "" {
      assert s + post == s;
    } else {
      var n := |post| - 1;
      assert (s + post)[..|s + post| - 1] == s + post[..n];
      TrimRightPast(s, post[..n]);
    }
  }

  /** A character that is no space stops both trims. */
  lemma {:induction false} TrimLeftStops(a: string, c: char, b: string)
    requires !IsSpace(c)
    ensures TrimLeft(a + [c] + b) == TrimLeft(a) + [c] + b
  {
    hide IsSpace;
    if a != "" && IsSpace(a[0]) {
      assert (a + [c] + b)[1..] == a[1..] + [c] + b;
      TrimLeftStops(a[1..], c, b);
    } else {
      assert (a + [c] + b)[0] == if a == "" then c else a[0];
    }
  }

  lemma {:induction false} TrimRightStops(a: string, c: char, b: string)
    requires !IsSpace(c)
    ensures TrimRight(a + [c] + b) == a + [c] + TrimRight(b)
  {
    hide IsSpace;
    if b != "" && IsSpace(b[|b| - 1]) {
      var n := |b| - 1;
      assert (a + [c] + b)[..|a + [c] + b| - 1] == a + [c] + b[..n];
      TrimRightStops(a, c, b[..n]);
    } else {
      var s := a + [c] + b;
      assert s[|s| - 1] == if b == "" then c else b[|b| - 1];
    }
  }

  lemma TrimAround(a: string, c: char, b: string)
    requires !IsSpace(c)
    ensures Trim(a + [c] + b) == TrimLeft(a) + [c] + TrimRight(b)
  {
    TrimLeftStops(a, c, b);
    TrimRightStops(TrimLeft(a), c, b);
  }

  lemma {:induction false} TrimLeftTwice(s: string)
    ensures TrimLeft(TrimLeft(s)) == TrimLeft(s)
  {
    hide IsSpace;
    if s != "" && IsSpace(s[0]) {
      TrimLeftTwice(s[1..]);
    }
  }

  lemma {:induction false} TrimRightTwice(s: string)
    ensures TrimRight(TrimRight(s)) == TrimRight(s)
  {
    hide IsSpace;
    if s != "" && IsSpace(s[|s| - 1]) {
      TrimRightTwice(s[..|s| - 1]);
    }
  }

  lemma TrimOfRight(s: string)
    ensures Trim(TrimRight(s)) == Trim(s)
  {
    var i := TrimLeftIs(s);
    hide IsSpace, TrimLeft, TrimRight;
    if i < |s| {
      var pre, c, rest := s[..i], s[i], s[i + 1..];
      assert s == pre + [c] + rest;
      TrimAround(pre, c, rest);
      TrimRightStops(pre, c, rest);
      TrimAround(pre, c, TrimRight(rest));
      TrimRightTwice(rest);
    } else {
      assert AllSpaces(s) && "" + s == s;
      SpacesOnly(s);
    }
  }

  lemma SpacesOnly(s: string)
    requires AllSpaces(s)
    ensures TrimRight(s) == "" && Trim(s) == "" && Trim("") == ""
  {
    hide IsSpace;
    TrimRightPast("", s);
    assert "" + s == s;
    TrimLeftPast(s, "");
    assert s + "" == s;
  }

  lemma TrimTwice(s: string)
    ensures Trim(TrimLeft(s)) == Trim(s) && Trim(TrimRight(s)) == Trim(s)
    ensures TrimLeft(s) == "" <==> Trim(s) == ""
    ensures Trim(s) != "" ==> TrimLeft(s) != "" && TrimLeft(s)[0] == Trim(s)[0]
  {
    TrimOfRight(s);
    TrimLeftTwice(s);
    var i := TrimLeftIs(s);
    if i < |s| {
      assert TrimLeft(s)[0] == s[i];
      hide TrimLeft;
      TrimRightHead(TrimLeft(s));
    }
  }

  lemma TrimRightHead(t: string)
    requires t != "" && !IsSpace(t[0])
    ensures TrimRight(t) != "" && TrimRight(t)[0] == t[0]
  {
    hide IsSpace;
    assert t == "" + [t[0]] + t[1..];
    TrimRightStops("", t[0], t[1..]);
  }

  lemma TrimNothing(s: string)
    ensures Trim(s) == "" <==> AllSpaces(s)
  {
    hide IsSpace;
    var i := TrimLeftIs(s);
    TrimTwice(s);
    if i == |s| {
      assert TrimLeft(s) == "";
    }
  }

  // ----- the part of a line before its comment sign -----

  function Body(line: string): (b: string) { line[..Find(line, '#')] }

  /** The comment after the sign, if there is one. */
  function Note(line: string): (r: string) {
    if Find(line, '#') < |line| then Trim(line[Find(line, '#') + 1..]) else ""
  }

  lemma BlankLine(line: string)
    ensures Trim(Body(line)) == "" <==> Trim(line) == "" || Trim(line)[0] == '#'
  {
    hide IsSpace, Trim;
    var i := Find(line, '#');
    TrimNothing(Body(line));
    TrimNothing(line);
    if i == |line| {
      assert Body(line) == line;
      TrimChars(line, '#');
    } else {
      var rest := line[i + 1..];
      assert line == Body(line) + ['#'] + rest;
      SignIsNoSpace();
      TrimAround(Body(line), '#', rest);
      TrimTwice(Body(line));
      var left := TrimLeft(Body(line));
      assert Trim(line) == left + ['#'] + TrimRight(rest);
      assert Trim(line)[0] == if left == "" then '#' else left[0];
      LeftChars(Body(line));
    }
  }

  lemma SignIsNoSpace()
    ensures !IsSpace('#') && !IsSpace('[') && !IsSpace(']') && !IsSpace('=')
  {
  }

  lemma LeftChars(s: string)
    requires '#' !in s
    ensures '#' !in TrimLeft(s)
  {
    var i := TrimLeftIs(s);
  }

  lemma CleanIsBody(line: string)
    requires Trim(Body(line)) != ""
    ensures Clean(Trim(line)) == Trim(Body(line)) && Right(Trim(line)) == Note(line)
  {
    hide IsSpace, Trim;
    var i, b := Find(line, '#'), Body(line);
    TrimTwice(b);
    if i == |line| {
      assert b == line;
      TrimChars(line, '#');
      assert Find(Trim(line), '#') == |Trim(line)|;
      assert Trim(line)[..|Trim(line)|] == Trim(line);
      TrimTrimmed(Trim(line));
      TrimTrimmed(line);
    } else {
      var rest, left := line[i + 1..], TrimLeft(b);
      assert line == b + ['#'] + rest;
      SignIsNoSpace();
      TrimAround(b, '#', rest);
      LeftChars(b);
      FindAt(left, '#', TrimRight(rest));
      var l := left + ['#'] + TrimRight(rest);
      assert l[..|left|] == left && l[|left| + 1..] == TrimRight(rest);
      TrimTwice(rest);
    }
  }

  // ----- every line -----

  /** A line adds to the pending comment, or is a header, or is an item: its first character decides. */
  lemma LineIs(st: Loading, line: string)
    requires st.sections != []
    ensures var c := Trim(Body(line));
            if c == "" then LoadLine(st, line) == st.(comment := st.comment + (Trim(line) + "\n"))
            else LoadLine(st, line) == if c[0] == '[' then AddSection(st, c, Note(line)) else AddItem(st, c, Note(line))
  {
    hide Trim, AddSection, AddItem, Clean, Right;
    BlankLine(line);
    if Trim(Body(line)) == "" {
      assert Trim(line) == "" ==> st.comment + (Trim(line) + "\n") == st.comment + "\n";
      assert st.comment + Trim(line) + "\n" == st.comment + (Trim(line) + "\n");
    } else {
      CleanIsBody(line);
    }
  }

  /** For every line: when each error is reported; no error changes the sections. */
  lemma ErrorsAre(st: Loading, line: string)
    requires st.sections != [] && st.err == 0
    ensures var c, err := Trim(Body(line)), LoadLine(st, line).err;
            var header := c != "" && c[0] == '[';
            && (err == 2 <==> header && ']' !in c)
            && (err == 3 <==> header && |c| > 1 && c[1] == ']')
            && (err == 4 <==> header && ']' in c && c[1] != ']' && HasSection(st.sections, Trim(c[1..Find(c, ']')])))
            && (err == 5 <==> c != "" && c[0] != '[' && '=' !in c)
            && (err == 0 || 2 <= err <= 5)
    ensures LoadLine(st, line).err != 0 ==> LoadLine(st, line).sections == st.sections
  {
    hide Trim, LoadLine, HasSection;
    LineIs(st, line);
    var c := Trim(Body(line));
    if c != "" && c[0] == '[' {
      HeaderBracket(c);
    }
  }

  lemma HeaderBracket(c: string)
    requires c != "" && c[0] == '['
    ensures Find(c, ']') >= 1 && (Find(c, ']') == 1 <==> |c| == 1 || c[1] == ']')
    ensures ']' in c ==> |c| > 1
  {
    if |c| > 1 {
      assert c[1..][0] == c[1];
    }
  }

  /** A comment after the sign, or none. */
  predicate NoteText(tail: string, note: string) {
    (tail == "" && note == "") || (tail != "" && tail[0] == '#' && note == Trim(tail[1..]))
  }

  lemma BodyIs(b: string, tail: string, note: string)
    requires '#' !in b && NoteText(tail, note)
    ensures Body(b + tail) == b && Note(b + tail) == note
  {
    hide Trim;
    var line := b + tail;
    if tail == "" {
      assert line == b && b[..|b|] == b;
    } else {
      assert line == b + ['#'] + tail[1..];
      FindAt(b, '#', tail[1..]);
      assert line[..|b|] == b && line[|b| + 1..] == tail[1..];
    }
  }

  /**
   A header, whatever spaces stand around it and whatever follows the bracket: it adds the section of the trimmed
   name with the pending comment and the trimmed right comment, unless there is one of that name.
   */
  lemma HeaderLine(st: Loading, pre: string, inner: string, junk: string, tail: string, note: string)
    requires st.sections != [] && AllSpaces(pre) && inner != "" && ']' !in inner && '#' !in inner && '#' !in junk
    requires NoteText(tail, note)
    ensures LoadLine(st, pre + ['['] + inner + [']'] + junk + tail)
         == if HasSection(st.sections, Trim(inner)) then st.(err := 4)
            else Loading(st.sections + [Section(Trim(inner), st.comment, note, [])], "", 0)
  {
    hide Trim, LoadLine, HasSection, IsSpace;
    var b := pre + ['['] + inner + [']'] + junk;
    SignIsNoSpace();
    assert '#' !in pre by { SpacesHaveNoSign(pre); }
    BodyIs(b, tail, note);
    var c := HeaderBody(pre, inner, junk);
    LineIs(st, b + tail);
  }

  lemma SpacesHaveNoSign(pre: string)
    requires AllSpaces(pre)
    ensures '#' !in pre
  {
  }

  lemma HeaderBody(pre: string, inner: string, junk: string) returns (c: string)
    requires AllSpaces(pre) && inner != "" && ']' !in inner
    ensures c == Trim(pre + ['['] + inner + [']'] + junk) && c != "" && c[0] == '['
    ensures Find(c, ']') == 1 + |inner| < |c| && c[1..1 + |inner|] == inner
  {
    hide IsSpace;
    var b := pre + ['['] + inner + [']'] + junk;
    c := ['['] + inner + [']'] + TrimRight(junk);
    SignIsNoSpace();
    assert b == (pre + ['['] + inner) + [']'] + junk;
    TrimAround(pre + ['['] + inner, ']', junk);
    TrimLeftStops(pre, '[', inner);
    TrimLeftPast(pre, "");
    assert pre + "" == pre;
    assert TrimLeft(pre) == "";
    assert "" + ['['] + inner == ['['] + inner;
    FindAt(['['] + inner, ']', TrimRight(junk));
  }

  /**
   An item, whatever spaces stand around its parts: it goes to the end of the current section with the pending
   comment and the trimmed right comment.  A key may not begin like a header.
   */
  lemma ItemLineLoads(st: Loading, key: string, value: string, tail: string, note: string)
    requires st.sections != [] && '=' !in key && '#' !in key && '#' !in value && NoteText(tail, note)
    requires Trim(key) == "" || Trim(key)[0] != '['
    ensures LoadLine(st, key + ['='] + value + tail)
         == Loading(PushItem(st.sections, Item(Trim(key), Trim(value), st.comment, note)), "", 0)
  {
    hide Trim, LoadLine, PushItem;
    var b := key + ['='] + value;
    BodyIs(b, tail, note);
    ItemBody(key, value);
    LineIs(st, b + tail);
  }

  lemma ItemBody(key: string, value: string)
    requires '=' !in key && (Trim(key) == "" || Trim(key)[0] != '[')
    ensures var c := Trim(key + ['='] + value);
            && c != "" && c[0] != '[' && Find(c, '=') < |c|
            && Trim(c[..Find(c, '=')]) == Trim(key) && Trim(c[Find(c, '=') + 1..]) == Trim(value)
  {
    hide IsSpace, Trim;
    SignIsNoSpace();
    var left, right := TrimLeft(key), TrimRight(value);
    TrimAround(key, '=', value);
    var c := left + ['='] + right;
    assert '=' !in left by { var i := TrimLeftIs(key); }
    FindAt(left, '=', right);
    assert c[..|left|] == left && c[|left| + 1..] == right;
    TrimTwice(key);
    TrimTwice(value);
    assert c[0] == if left == "" then '=' else left[0];
  }

  // ----- what is written -----

  /** An item is one line, after its comment; a header is one line, and the right comment of a section follows it. */
  lemma SavedText(item: Item, sec: Section)
    requires CleanItem(item) && CleanSection(sec)
    ensures SaveItem(item)
         == (if item.comment == "" || item.comment[|item.comment| - 1] == '\n' then item.comment else item.comment + "\n")
            + (item.key + "=" + item.value + (if item.rightComment != "" then " #" + item.rightComment else "") + "\n")
    ensures SaveSection(sec)
         == sec.comment + ((if sec.name != "" then "[" + sec.name + "]\n" else "")
                           + (if sec.rightComment != "" then " #" + sec.rightComment else "")) + SaveItems(sec.items)
  {
    ItemLineIs(item);
    assert EndLine(ItemLine(item)) == ItemLine(item) + "\n";
  }

  /** Loading goes line by line and stops at the first error. */
  lemma LoadStops(st: Loading, line: string, rest: string)
    requires st.sections != [] && st.err == 0 && '\n' !in line
    ensures var t := LoadLine(st, line);
            LoadText(st, line + "\n" + rest) == if t.err != 0 then t else LoadText(t, rest)
  {
    hide LoadLine;
    LoadCons(st, line, rest);
  }

  lemma LoadNothingGives()
    ensures Load("").sections == [Section("", "", "", [])] && Load("").err == 0
  {
  }
}
