/**
 What it means that a bracket is closed: a grammar of balanced text, in the characters themselves, against which the
 scans are measured.
 */
module BalancedText {
  import opened LintText
  import opened FlatMatching

  datatype Kind = Round | Square | Curly

  function OpenOf(k: Kind): (c: char) {
    match k
    case Round => '('
    case Square => '['
    case Curly => '{'
  }

  function CloseOf(k: Kind): (c: char) {
    match k
    case Round => ')'
    case Square => ']'
    case Curly => '}'
  }

  /** Text in which every ( [ { is closed by its own partner, and every ) ] } closes one. */
  datatype Nested = Empty | Other(c: char, rest: Nested) | Pair(kind: Kind, inner: Nested, rest: Nested)

  predicate IsBracket(c: char) { c == '(' || c == '[' || c == '{' || c == ')' || c == ']' || c == '}' }

  predicate Proper(b: Nested) {
    match b
    case Empty => true
    case Other(c, rest) => !IsBracket(c) && Proper(rest)
    case Pair(_, inner, rest) => Proper(inner) && Proper(rest)
  }

  function Text(b: Nested): (s: string) {
    match b
    case Empty => ""
    case Other(c, rest) => [c] + Text(rest)
    case Pair(k, inner, rest) => [OpenOf(k)] + Text(inner) + [CloseOf(k)] + Text(rest)
  }

  /** Template arguments: no statement ends between < and >, < and > pair up, and ( [ { enclose any nested text. */
  datatype Args =
    | NoArgs
    | Char(c: char, next: Args)
    | Group(kind: Kind, enclosed: Nested, next: Args)
    | Angle(args: Args, next: Args)

  predicate ProperArgs(a: Args) {
    match a
    case NoArgs => true
    case Char(c, next) => !IsBracket(c) && c != '<' && c != '>' && c != ';' && ProperArgs(next)
    case Group(_, enclosed, next) => Proper(enclosed) && ProperArgs(next)
    case Angle(args, next) => ProperArgs(args) && ProperArgs(next)
  }

  function ArgText(a: Args): (s: string) {
    match a
    case NoArgs => ""
    case Char(c, next) => [c] + ArgText(next)
    case Group(k, enclosed, next) => [OpenOf(k)] + Text(enclosed) + [CloseOf(k)] + ArgText(next)
    case Angle(args, next) => ['<'] + ArgText(args) + ['>'] + ArgText(next)
  }

  /** `s` stands in the text at `i`. */
  ghost predicate StandsAt(text: string, i: nat, s: string) { i + |s| <= |text| && text[i..i + |s|] == s }

  lemma StandsParts(text: string, i: nat, a: string, b: string)
    requires StandsAt(text, i, a + b)
    ensures StandsAt(text, i, a) && StandsAt(text, i + |a|, b)
  {
    assert text[i..i + |a|] == (a + b)[..|a|];
    assert text[i + |a|..i + |a| + |b|] == (a + b)[|a|..];
  }

  lemma StandsBoth(text: string, i: nat, a: string, b: string)
    requires StandsAt(text, i, a) && StandsAt(text, i + |a|, b)
    ensures StandsAt(text, i, a + b)
  {
    assert text[i..i + |a| + |b|] == text[i..i + |a|] + text[i + |a|..i + |a| + |b|];
  }

  /** A bracket, what it encloses, its partner, and what follows. */
  lemma StandsPair(text: string, i: nat, o: char, a: string, c: char, b: string)
    ensures StandsAt(text, i, [o] + a + [c] + b)
       <==> i < |text| && text[i] == o && StandsAt(text, i + 1, a)
            && i + 1 + |a| < |text| && text[i + 1 + |a|] == c && StandsAt(text, i + 2 + |a|, b)
  {
    if StandsAt(text, i, [o] + a + [c] + b) {
      StandsParts(text, i, [o] + a + [c], b);
      StandsParts(text, i, [o] + a, [c]);
      StandsParts(text, i, [o], a);
      assert text[i..i + 1][0] == o && text[i + 1 + |a|..i + 2 + |a|][0] == c;
    }
    if i < |text| && text[i] == o && StandsAt(text, i + 1, a)
       && i + 1 + |a| < |text| && text[i + 1 + |a|] == c && StandsAt(text, i + 2 + |a|, b) {
      StandsBoth(text, i, [o], a);
      StandsBoth(text, i, [o] + a, [c]);
      StandsBoth(text, i, [o] + a + [c], b);
    }
  }

  lemma StandsChar(text: string, i: nat, c: char, b: string)
    ensures StandsAt(text, i, [c] + b) <==> i < |text| && text[i] == c && StandsAt(text, i + 1, b)
  {
    if StandsAt(text, i, [c] + b) {
      StandsParts(text, i, [c], b);
      assert text[i..i + 1][0] == c;
    }
    if i < |text| && text[i] == c && StandsAt(text, i + 1, b) {
      StandsBoth(text, i, [c], b);
    }
  }

  // ----- the forward scan, step by step, in characters -----

  ghost predicate Lesses(x: string) { forall i :: 0 <= i < |x| ==> x[i] == '<' }

  /** Something is open, and the innermost of it is a ( [ { with tentative < above it. */
  ghost predicate InBracket(f: string, k: Kind) { f != [] && f[|f| - 1] == OpenOf(k) }

  lemma {:induction false} PopLesses(f: string, k: Kind, x: string)
    requires InBracket(f, k) && Lesses(x)
    ensures PopAll(f + x, '<') == f
  {
    if x == [] {
      assert f + x == f;
    } else {
      assert (f + x)[..|f + x| - 1] == f + x[..|x| - 1];
      PopLesses(f, k, x[..|x| - 1]);
    }
  }

  /** What a character that is no bracket does to the < above the innermost bracket. */
  function NextLesses(c: char, x: string): (y: string) {
    if c == '<' then x + ['<'] else if c == '>' then (if x == [] then [] else x[..|x| - 1]) else if c == ';' then [] else x
  }

  lemma OtherStep(c: char, i: nat, f: string, k: Kind, x: string)
    requires InBracket(f, k) && Lesses(x) && !IsBracket(c)
    ensures Lesses(NextLesses(c, x)) && ForwardStep(c, i, f + x) == Go(f + NextLesses(c, x), i + 1)
  {
    PopLesses(f, k, x);
    hide PopAll;
    if c == '<' {
      assert f + x + ['<'] == f + (x + ['<']);
    } else if c == '>' {
      if x == [] {
        assert f + x == f;
      } else {
        assert (f + x)[|f + x| - 1] == '<';
        assert Pop(f + x) == f + x[..|x| - 1];
      }
    } else if c == ';' {
      assert f + [] == f;
    }
  }

  lemma OpenStep(i: nat, stack: string, k: Kind)
    ensures ForwardStep(OpenOf(k), i, stack) == Go(stack + [OpenOf(k)], i + 1)
  {
  }

  lemma CloseStep(i: nat, f: string, k: Kind, x: string)
    requires InBracket(f, k) && Lesses(x)
    ensures ForwardStep(CloseOf(k), i, f + x) == if |f| == 1 then Stop(Found(i + 1)) else Go(Pop(f), i + 1)
  {
    PopLesses(f, k, x);
    hide PopAll;
  }

  /** Nothing else closes. */
  lemma WrongClose(c: char, i: nat, f: string, k: Kind, x: string)
    requires InBracket(f, k) && Lesses(x) && IsClose(c) && c != CloseOf(k)
    ensures ForwardStep(c, i, f + x) == Stop(Failed)
  {
    PopLesses(f, k, x);
    hide PopAll;
  }

  lemma ForwardGo(text: string, i: nat, stack: string)
    requires i < |text|
    ensures ForwardStep(text[i], i, stack).Go? ==> Forward(text, i, stack) == Forward(text, i + 1, ForwardStep(text[i], i, stack).stack)
    ensures ForwardStep(text[i], i, stack).Stop? ==> Forward(text, i, stack) == ForwardStep(text[i], i, stack).result
  {
    hide ForwardStep;
  }

  // ----- balanced text is passed over -----

  lemma {:induction false} PassNested(text: string, i: nat, f: string, k: Kind, x: string, b: Nested) returns (y: string)
    requires InBracket(f, k) && Lesses(x) && Proper(b) && StandsAt(text, i, Text(b))
    ensures Lesses(y) && i + |Text(b)| <= |text| && Forward(text, i, f + x) == Forward(text, i + |Text(b)|, f + y)
    decreases b, 0
  {
    hide ForwardStep, Forward, StandsAt, IsBracket;
    match b
    case Empty =>
      y := x;
      StandsFits(text, i, "");
    case Other(c, rest) =>
      StandsChar(text, i, c, Text(rest));
      OtherStep(c, i, f, k, x);
      ForwardGo(text, i, f + x);
      y := PassNested(text, i + 1, f, k, NextLesses(c, x), rest);
    case Pair(kk, inner, rest) =>
      StandsPair(text, i, OpenOf(kk), Text(inner), CloseOf(kk), Text(rest));
      PassPair(text, i, f + x, kk, inner);
      y := PassNested(text, i + 2 + |Text(inner)|, f, k, x, rest);
  }

  lemma StandsFits(text: string, i: nat, s: string)
    requires StandsAt(text, i, s)
    ensures i + |s| <= |text|
  {
  }

  lemma {:induction false} PassPair(text: string, i: nat, stack: string, k: Kind, inner: Nested)
    requires stack != [] && Proper(inner)
    requires i < |text| && text[i] == OpenOf(k) && StandsAt(text, i + 1, Text(inner))
    requires i + 1 + |Text(inner)| < |text| && text[i + 1 + |Text(inner)|] == CloseOf(k)
    ensures Forward(text, i, stack) == Forward(text, i + 2 + |Text(inner)|, stack)
    decreases inner, 1
  {
    hide ForwardStep, Forward, StandsAt;
    var f, e := stack + [OpenOf(k)], i + 1 + |Text(inner)|;
    OpenStep(i, stack, k);
    ForwardGo(text, i, stack);
    assert f + [] == f;
    var y := PassNested(text, i + 1, f, k, [], inner);
    CloseStep(e, f, k, y);
    ForwardGo(text, e, f + y);
    assert Pop(f) == stack;
  }

  lemma {:induction false} PassArgs(text: string, i: nat, f: string, a: Args)
    requires f != [] && ProperArgs(a) && StandsAt(text, i, ArgText(a))
    ensures i + |ArgText(a)| <= |text| && Forward(text, i, f) == Forward(text, i + |ArgText(a)|, f)
    decreases a
  {
    hide ForwardStep, Forward, StandsAt, IsBracket;
    match a
    case NoArgs => StandsFits(text, i, "");
    case Char(c, next) =>
      StandsChar(text, i, c, ArgText(next));
      PlainStep(c, i, f);
      ForwardGo(text, i, f);
      PassArgs(text, i + 1, f, next);
    case Group(k, enclosed, next) =>
      StandsPair(text, i, OpenOf(k), Text(enclosed), CloseOf(k), ArgText(next));
      PassPair(text, i, f, k, enclosed);
      PassArgs(text, i + 2 + |Text(enclosed)|, f, next);
    case Angle(args, next) =>
      StandsPair(text, i, '<', ArgText(args), '>', ArgText(next));
      var e := i + 1 + |ArgText(args)|;
      AngleSteps(i, e, f);
      ForwardGo(text, i, f);
      PassArgs(text, i + 1, f + ['<'], args);
      ForwardGo(text, e, f + ['<']);
      PassArgs(text, e + 1, f, next);
  }

  lemma PlainStep(c: char, i: nat, f: string)
    requires !IsBracket(c) && c != '<' && c != '>' && c != ';'
    ensures ForwardStep(c, i, f) == Go(f, i + 1)
  {
  }

  lemma AngleSteps(i: nat, e: nat, f: string)
    requires f != []
    ensures ForwardStep('<', i, f) == Go(f + ['<'], i + 1) && ForwardStep('>', e, f + ['<']) == Go(f, e + 1)
  {
    assert Pop(f + ['<']) == f;
  }

  // ----- what is passed over is balanced -----

  lemma KindOf(c: char) returns (k: Kind)
    requires IsBracket(c)
    ensures c == OpenOf(k) || c == CloseOf(k)
    ensures IsOpen(c) <==> c == OpenOf(k)
    ensures IsClose(c) <==> c == CloseOf(k)
  {
    k := if c == '(' || c == ')' then Round else if c == '[' || c == ']' then Square else Curly;
  }

  /** A scan that finds an end first closes the innermost bracket, after balanced text. */
  lemma {:induction false} ParseNested(text: string, i: nat, f: string, k: Kind, x: string, e: nat) returns (p: nat, b: Nested)
    requires i <= |text| && InBracket(f, k) && Lesses(x) && Forward(text, i, f + x) == Found(e)
    ensures i <= p < |text| && p == i + |Text(b)| && StandsAt(text, i, Text(b)) && Proper(b) && text[p] == CloseOf(k)
    ensures if |f| == 1 then e == p + 1 else Forward(text, p + 1, Pop(f)) == Found(e)
    decreases |text| - i
  {
    hide ForwardStep, StandsAt;
    assert i < |text|;
    var c := text[i];
    hide Forward;
    ForwardGo(text, i, f + x);
    if !IsBracket(c) {
      OtherStep(c, i, f, k, x);
      p, b := ParseNested(text, i + 1, f, k, NextLesses(c, x), e);
      StandsChar(text, i, c, Text(b));
      b := Other(c, b);
    } else {
      var kk := KindOf(c);
      if c == OpenOf(kk) {
        OpenStep(i, f + x, kk);
        var g := f + x + [c];
        assert g + [] == g && Pop(g) == f + x;
        var q, inner := ParseNested(text, i + 1, g, kk, [], e);
        p, b := ParseNested(text, q + 1, f, k, x, e);
        StandsPair(text, i, OpenOf(kk), Text(inner), CloseOf(kk), Text(b));
        b := Pair(kk, inner, b);
      } else {
        if c != CloseOf(k) {
          WrongClose(c, i, f, k, x);
          assert false;
        }
        CloseStep(i, f, k, x);
        p, b := i, Empty;
        StandsNothing(text, i);
      }
    }
  }

  lemma StandsNothing(text: string, i: nat)
    requires i <= |text|
    ensures StandsAt(text, i, "")
  {
  }

  function LessRun(n: nat): (x: string)
    ensures |x| == n && Lesses(x)
  {
    seq(n, _ => '<')
  }

  lemma {:induction false} PopRun(n: nat)
    ensures PopAll(LessRun(n), '<') == []
  {
    if n > 0 {
      assert LessRun(n)[..n - 1] == LessRun(n - 1);
      PopRun(n - 1);
    }
  }

  /** The steps outside of all ( [ {. */
  lemma RunStep(c: char, i: nat, n: nat)
    requires n > 0
    ensures c == '>' ==> ForwardStep(c, i, LessRun(n)) == if n == 1 then Stop(Found(i + 1)) else Go(LessRun(n - 1), i + 1)
    ensures c == '<' ==> ForwardStep(c, i, LessRun(n)) == Go(LessRun(n + 1), i + 1)
    ensures c == ';' || IsClose(c) ==> ForwardStep(c, i, LessRun(n)) == Stop(Failed)
  {
    PopRun(n);
    hide PopAll;
    assert Pop(LessRun(n)) == LessRun(n - 1);
    assert LessRun(n) + ['<'] == LessRun(n + 1);
  }

  /** A group in parentheses, with something open around it. */
  lemma ParseGroup(text: string, i: nat, stack: string, e: nat) returns (k: Kind, q: nat, inner: Nested)
    requires i < |text| && IsOpen(text[i]) && stack != [] && Forward(text, i, stack) == Found(e)
    ensures text[i] == OpenOf(k) && q == i + 1 + |Text(inner)| && q < |text| && text[q] == CloseOf(k)
    ensures StandsAt(text, i + 1, Text(inner)) && Proper(inner) && Forward(text, q + 1, stack) == Found(e)
  {
    hide ForwardStep, StandsAt, Forward;
    k := KindOf(text[i]);
    OpenStep(i, stack, k);
    ForwardGo(text, i, stack);
    var g := stack + [text[i]];
    assert g + [] == g && Pop(g) == stack;
    q, inner := ParseNested(text, i + 1, g, k, [], e);
  }

  lemma {:induction false} ParseArgs(text: string, i: nat, n: nat, e: nat) returns (p: nat, a: Args)
    requires i <= |text| && n > 0 && Forward(text, i, LessRun(n)) == Found(e)
    ensures i <= p < |text| && p == i + |ArgText(a)| && StandsAt(text, i, ArgText(a)) && ProperArgs(a) && text[p] == '>'
    ensures if n == 1 then e == p + 1 else Forward(text, p + 1, LessRun(n - 1)) == Found(e)
    decreases |text| - i
  {
    hide ForwardStep, StandsAt, LessRun;
    assert i < |text|;
    var c := text[i];
    hide Forward;
    ForwardGo(text, i, LessRun(n));
    RunStep(c, i, n);
    if c == '>' {
      p, a := i, NoArgs;
      StandsNothing(text, i);
    } else if c == '<' {
      var q, inner := ParseArgs(text, i + 1, n + 1, e);
      p, a := ParseArgs(text, q + 1, n, e);
      StandsPair(text, i, '<', ArgText(inner), '>', ArgText(a));
      a := Angle(inner, a);
    } else if IsOpen(c) {
      var kk, q, inner := ParseGroup(text, i, LessRun(n), e);
      p, a := ParseArgs(text, q + 1, n, e);
      StandsPair(text, i, OpenOf(kk), Text(inner), CloseOf(kk), ArgText(a));
      a := Group(kk, inner, a);
    } else {
      assert c != ';' && !IsClose(c);
      PlainStep(c, i, LessRun(n));
      p, a := ParseArgs(text, i + 1, n, e);
      StandsChar(text, i, c, ArgText(a));
      a := Char(c, a);
    }
  }

  // ----- what the scans find -----

  /** Between the bracket of this kind at `a` and its partner at `e - 1` the text is balanced. */
  ghost predicate Encloses(text: string, a: nat, e: nat, k: Kind) {
    && a + 2 <= e <= |text| && text[a] == OpenOf(k) && text[e - 1] == CloseOf(k)
    && exists b: Nested :: Proper(b) && text[a + 1..e - 1] == Text(b)
  }

  /** Between the < at `a` and the > at `e - 1` there are template arguments. */
  ghost predicate EnclosesArgs(text: string, a: nat, e: nat) {
    && a + 2 <= e <= |text| && text[a] == '<' && text[e - 1] == '>'
    && exists b: Args :: ProperArgs(b) && text[a + 1..e - 1] == ArgText(b)
  }

  lemma StandsSlice(text: string, i: nat, j: nat, s: string)
    requires i <= j <= |text|
    ensures text[i..j] == s <==> j == i + |s| && StandsAt(text, i, s)
  {
  }

  lemma FirstBracket(text: string, a: nat, k: Kind)
    requires a < |text| && text[a] == OpenOf(k)
    ensures Forward(text, a, []) == Forward(text, a + 1, [OpenOf(k)])
  {
    hide ForwardStep;
    OpenStep(a, [], k);
    ForwardGo(text, a, []);
    assert [] + [OpenOf(k)] == [OpenOf(k)];
  }

  lemma BracketFound(text: string, a: nat, e: nat, k: Kind)
    requires a < |text| && text[a] == OpenOf(k) && Forward(text, a, []) == Found(e)
    ensures Encloses(text, a, e, k)
  {
    hide Forward, ForwardStep, StandsAt;
    FirstBracket(text, a, k);
    assert [OpenOf(k)] + [] == [OpenOf(k)];
    var p, b := ParseNested(text, a + 1, [OpenOf(k)], k, [], e);
    StandsSlice(text, a + 1, e - 1, Text(b));
  }

  lemma BracketReached(text: string, a: nat, e: nat, k: Kind, b: Nested)
    requires a + 2 <= e <= |text| && text[a] == OpenOf(k) && text[e - 1] == CloseOf(k)
    requires Proper(b) && text[a + 1..e - 1] == Text(b)
    ensures Forward(text, a, []) == Found(e)
  {
    hide Forward, ForwardStep, StandsAt;
    var f := [OpenOf(k)];
    FirstBracket(text, a, k);
    StandsSlice(text, a + 1, e - 1, Text(b));
    assert f + [] == f;
    var y := PassNested(text, a + 1, f, k, [], b);
    CloseStep(e - 1, f, k, y);
    ForwardGo(text, e - 1, f + y);
  }

  /** From ( [ { the scan ends exactly where the grammar says. */
  lemma BracketEnds(text: string, a: nat, e: nat, k: Kind)
    requires a < |text| && text[a] == OpenOf(k)
    ensures Forward(text, a, []) == Found(e) <==> Encloses(text, a, e, k)
  {
    hide Forward;
    if Forward(text, a, []) == Found(e) {
      BracketFound(text, a, e, k);
    }
    if Encloses(text, a, e, k) {
      var b :| Proper(b) && text[a + 1..e - 1] == Text(b);
      BracketReached(text, a, e, k, b);
    }
  }

  lemma FirstAngle(text: string, a: nat)
    requires a < |text| && text[a] == '<'
    ensures Forward(text, a, []) == Forward(text, a + 1, LessRun(1))
  {
    assert [] + ['<'] == ['<'] == LessRun(1);
    hide LessRun, PopAll;
    ForwardGo(text, a, []);
  }

  lemma AngleFound(text: string, a: nat, e: nat)
    requires a < |text| && text[a] == '<' && Forward(text, a, []) == Found(e)
    ensures EnclosesArgs(text, a, e)
  {
    hide Forward, StandsAt, LessRun;
    FirstAngle(text, a);
    var p, b := ParseArgs(text, a + 1, 1, e);
    StandsSlice(text, a + 1, e - 1, ArgText(b));
  }

  lemma AngleReached(text: string, a: nat, e: nat, b: Args)
    requires a + 2 <= e <= |text| && text[a] == '<' && text[e - 1] == '>'
    requires ProperArgs(b) && text[a + 1..e - 1] == ArgText(b)
    ensures Forward(text, a, []) == Found(e)
  {
    hide Forward, ForwardStep, StandsAt, LessRun;
    FirstAngle(text, a);
    StandsSlice(text, a + 1, e - 1, ArgText(b));
    PassArgs(text, a + 1, LessRun(1), b);
    RunStep('>', e - 1, 1);
    ForwardGo(text, e - 1, LessRun(1));
  }

  /** From < the scan ends exactly after template arguments and their >. */
  lemma AngleEnds(text: string, a: nat, e: nat)
    requires a < |text| && text[a] == '<'
    ensures Forward(text, a, []) == Found(e) <==> EnclosesArgs(text, a, e)
  {
    hide Forward;
    if Forward(text, a, []) == Found(e) {
      AngleFound(text, a, e);
    }
    if EnclosesArgs(text, a, e) {
      var b :| ProperArgs(b) && text[a + 1..e - 1] == ArgText(b);
      AngleReached(text, a, e, b);
    }
  }

  // ----- balance depends on the brackets only -----

  ghost predicate SameBrackets(s: string, t: string) {
    |s| == |t| && forall i :: 0 <= i < |s| ==> (IsBracket(s[i]) || IsBracket(t[i]) ==> s[i] == t[i])
  }

  lemma SamePart(s: string, t: string, i: nat, j: nat)
    requires SameBrackets(s, t) && i <= j <= |s|
    ensures SameBrackets(s[i..j], t[i..j])
  {
    hide IsBracket;
  }

  lemma {:induction false} Reskin(s: string, t: string, b: Nested) returns (c: Nested)
    requires SameBrackets(s, t) && Proper(b) && s == Text(b)
    ensures Proper(c) && t == Text(c)
    decreases b
  {
    hide IsBracket, SameBrackets;
    match b
    case Empty =>
      c := Empty;
      SameLength(s, t);
    case Other(x, rest) =>
      var tail := ReskinFirst(s, t, Text(rest), x);
      var d := Reskin(Text(rest), tail, rest);
      c := Other(t[0], d);
    case Pair(k, inner, rest) =>
      var left, right := ReskinPair(s, t, k, Text(inner), Text(rest));
      var d := Reskin(Text(inner), left, inner);
      var e := Reskin(Text(rest), right, rest);
      c := Pair(k, d, e);
  }

  lemma SameLength(s: string, t: string)
    requires SameBrackets(s, t)
    ensures |s| == |t|
  {
  }

  lemma ReskinFirst(s: string, t: string, rest: string, x: char) returns (tail: string)
    requires SameBrackets(s, t) && s == [x] + rest && !IsBracket(x)
    ensures |t| > 0 && t == [t[0]] + tail && !IsBracket(t[0]) && SameBrackets(rest, tail)
  {
    tail := t[1..];
    assert s[0] == x && s[1..|s|] == rest && t[1..|t|] == tail;
    SamePart(s, t, 1, |s|);
  }

  lemma ReskinPair(s: string, t: string, k: Kind, inner: string, rest: string) returns (left: string, right: string)
    requires SameBrackets(s, t) && s == [OpenOf(k)] + inner + [CloseOf(k)] + rest
    ensures t == [OpenOf(k)] + left + [CloseOf(k)] + right && SameBrackets(inner, left) && SameBrackets(rest, right)
  {
    var m := 1 + |inner|;
    left, right := t[1..m], t[m + 1..|t|];
    assert s[0] == OpenOf(k) && s[1..m] == inner && s[m] == CloseOf(k) && s[m + 1..|s|] == rest;
    KindIsBracket(k);
    SamePart(s, t, 1, m);
    SamePart(s, t, m + 1, |s|);
    hide IsBracket;
    assert t == [t[0]] + t[1..m] + [t[m]] + t[m + 1..|t|];
  }

  lemma KindIsBracket(k: Kind)
    ensures IsBracket(OpenOf(k)) && IsBracket(CloseOf(k))
  {
  }

  lemma EnclosesSame(s: string, t: string, a: nat, e: nat, k: Kind)
    requires SameBrackets(s, t)
    ensures Encloses(s, a, e, k) ==> Encloses(t, a, e, k)
  {
    if Encloses(s, a, e, k) {
      var b :| Proper(b) && s[a + 1..e - 1] == Text(b);
      KindIsBracket(k);
      SamePart(s, t, a + 1, e - 1);
      hide IsBracket;
      var c := Reskin(s[a + 1..e - 1], t[a + 1..e - 1], b);
    }
  }
}
