/** Strings as `ConfigParser` takes them apart: trimming, searching for a character, splitting at it. */
module ConfigText {
  import opened Spaces

  function TrimLeft(s: string): (t: string) {
    if s != "" && IsSpace(s[0]) then TrimLeft(s[1..]) else s
  }

  function Trim(s: string): (t: string) { TrimRight(TrimLeft(s)) }

  predicate Trimmed(s: string) { s == "" || (!IsSpace(s[0]) && !IsSpace(s[|s| - 1])) }

  /** The first position of `c`, or the length. */
  function Find(s: string, c: char): (i: nat)
    ensures i <= |s| && c !in s[..i] && (i < |s| ==> s[i] == c)
    ensures i == |s| <==> c !in s
  {
    if s == "" || s[0] == c then 0
    else
      var i := 1 + Find(s[1..], c);
      assert s[..i] == [s[0]] + s[1..][..i - 1];
      assert s == [s[0]] + s[1..];
      i
  }

  lemma {:induction false} FindAt(a: string, c: char, b: string)
    requires c !in a
    ensures Find(a + [c] + b, c) == |a|
  {
    if a == "" {
      assert ([] + [c] + b)[0] == c;
    } else {
      assert (a + [c] + b)[1..] == a[1..] + [c] + b;
      FindAt(a[1..], c, b);
    }
  }

  /** A text cut at a line end, with something behind it. */
  lemma CutLine(c: string, i: nat, rest: string)
    requires i < |c| && c[i] == '\n'
    ensures c + rest == c[..i] + "\n" + (c[i + 1..] + rest)
    ensures c == c[..i] + "\n" + c[i + 1..]
  {
    var l, more := c[..i], c[i + 1..];
    assert c == l + "\n" + more;
    Associative(l + "\n", more, rest);
  }

  lemma Associative(a: string, b: string, c: string)
    ensures a + b + c == a + (b + c)
  {
  }

  // ----- trimming -----

  /** Trimming removes spaces at both ends and nothing else. */
  ghost predicate IsTrimOf(t: string, s: string, i: nat, j: nat) {
    && i <= j <= |s| && t == s[i..j]
    && (forall k :: 0 <= k < i ==> IsSpace(s[k]))
    && (forall k :: j <= k < |s| ==> IsSpace(s[k]))
  }

  lemma {:induction false} TrimLeftIs(s: string)
    returns (i: nat)
    ensures i <= |s| && TrimLeft(s) == s[i..] && (forall k :: 0 <= k < i ==> IsSpace(s[k]))
    ensures i < |s| ==> !IsSpace(s[i])
  {
    if s != "" && IsSpace(s[0]) {
      i := TrimLeftIs(s[1..]);
      i := i + 1;
      assert s[1..][i - 1..] == s[i..];
      forall k | 0 <= k < i ensures IsSpace(s[k]) { assert k > 0 ==> s[k] == s[1..][k - 1]; }
    } else {
      i := 0;
    }
  }

  lemma {:induction false} TrimRightIs(s: string)
    returns (j: nat)
    ensures j <= |s| && TrimRight(s) == s[..j] && (forall k :: j <= k < |s| ==> IsSpace(s[k]))
    ensures j > 0 ==> !IsSpace(s[j - 1])
  {
    if s != "" && IsSpace(s[|s| - 1]) {
      j := TrimRightIs(s[..|s| - 1]);
      assert s[..|s| - 1][..j] == s[..j];
      forall k | j <= k < |s| ensures IsSpace(s[k]) { assert k < |s| - 1 ==> s[k] == s[..|s| - 1][k]; }
    } else {
      j := |s|;
    }
  }

  lemma TrimIs(s: string)
    returns (i: nat, j: nat)
    ensures IsTrimOf(Trim(s), s, i, j) && Trimmed(Trim(s))
  {
    i := TrimLeftIs(s);
    var t := s[i..];
    j := TrimRightIs(t);
    forall k | i + j <= k < |s| ensures IsSpace(s[k]) { assert s[k] == t[k - i]; }
    assert t[..j] == s[i..i + j];
    if j > 0 {
      assert t[..j][0] == s[i];
    }
    j := i + j;
  }

  /** The trimmed string has only characters of the original. */
  lemma TrimChars(s: string, c: char)
    requires c !in s
    ensures c !in Trim(s)
  {
    var i, j := TrimIs(s);
  }

  lemma TrimTrimmed(s: string)
    ensures Trimmed(Trim(s))
    ensures Trimmed(s) ==> Trim(s) == s
  {
    var i, j := TrimIs(s);
  }

  /** Trimming keeps a first character that is no space. */
  lemma TrimKeepsHead(s: string)
    requires s != "" && !IsSpace(s[0])
    ensures Trim(s) != "" && Trim(s)[0] == s[0]
  {
    var i, j := TrimIs(s);
    assert i == 0;
  }

  lemma TrimDropsLastSpace(s: string)
    requires s != "" && Trimmed(s)
    ensures Trim(s + " ") == s
  {
    var t := s + " ";
    assert t[0] == s[0] && t[..|s|] == s;
    assert TrimLeft(t) == t;
    assert TrimRight(t) == TrimRight(s) == s;
  }

  /** A space in front does not matter. */
  lemma TrimDropsFirstSpace(s: string)
    ensures Trim(" " + s) == Trim(s)
  {
    assert (" " + s)[1..] == s;
  }
}
