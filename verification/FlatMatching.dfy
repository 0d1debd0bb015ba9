/** Characters and lines of C++ text, as cpplint looks at them. */
module LintText {
  import opened Spaces

  predicate IsOpen(c: char) { c == '(' || c == '[' || c == '{' }

  predicate IsClose(c: char) { c == ')' || c == ']' || c == '}' }

  /** Brackets, with < and > as those of template arguments. */
  predicate IsOpener(c: char) { IsOpen(c) || c == '<' }

  predicate IsCloser(c: char) { IsClose(c) || c == '>' }

  /** The bracket that pairs with `c`. */
  function Mirror(c: char): (d: char)
    ensures IsOpen(c) <==> IsClose(d)
    ensures IsClose(c) <==> IsOpen(d)
    ensures IsOpener(c) <==> IsCloser(d)
    ensures IsCloser(c) <==> IsOpener(d)
  {
    match c
    case '(' => ')'
    case '[' => ']'
    case '{' => '}'
    case ')' => '('
    case ']' => '['
    case '}' => '{'
    case '<' => '>'
    case '>' => '<'
    case _ => c
  }

  predicate IsWordChar(c: char) {
    'a' <= c <= 'z' || 'A' <= c <= 'Z' || '0' <= c <= '9' || c == '_'
  }

  /** The text ends with the word `operator`, spaces aside. */
  predicate EndsWithOperator(s: string) {
    var t := TrimRight(s);
    |t| >= 8 && t[|t| - 8..] == "operator" && (|t| == 8 || !IsWordChar(t[|t| - 9]))
  }

  /** A character after which `operator` was found is the final r or a space, never a bracket. */
  lemma OperatorEnd(s: string)
    requires EndsWithOperator(s)
    ensures s != []
    ensures !IsOpen(s[|s| - 1]) && !IsClose(s[|s| - 1])
  {
    var t := TrimRight(s);
    if |t| == |s| {
      assert s[|s| - 1] == t[|t| - 8..][7];
    }
  }

  /** The word `operator` stands at `i`, is not the end of a longer word, and only spaces follow. */
  ghost predicate OperatorAt(s: string, i: nat) {
    && i + 8 <= |s| && s[i..i + 8] == "operator" && (i == 0 || !IsWordChar(s[i - 1]))
    && forall j :: i + 8 <= j < |s| ==> IsSpace(s[j])
  }

  ghost predicate AfterOperator(s: string) { exists i: nat :: OperatorAt(s, i) }

  lemma OperatorIs(s: string)
    ensures EndsWithOperator(s) <==> AfterOperator(s)
  {
    var t := TrimRight(s);
    if EndsWithOperator(s) {
      assert s[|t| - 8..|t| - 8 + 8] == t[|t| - 8..];
      assert OperatorAt(s, |t| - 8);
    }
    if i: nat :| OperatorAt(s, i) {
      assert s[i + 7] == s[i..i + 8][7] == "operator"[7] == 'r' && !IsSpace('r');
      assert |t| == i + 8;
      assert t[i..] == s[i..i + 8];
    }
  }

  /** Positions of several lines as offsets into the unsplit text. */
  function Flatten(lines: seq<string>): (text: string) {
    if lines == [] then "" else lines[0] + Flatten(lines[1..])
  }

  function Offset(lines: seq<string>, l: nat, p: nat): (k: nat)
    requires l <= |lines|
  {
    |Flatten(lines[..l])| + p
  }

  lemma {:induction false} FlattenAppend(a: seq<string>, b: seq<string>)
    ensures Flatten(a + b) == Flatten(a) + Flatten(b)
  {
    if a == [] {
      assert a + b == b;
    } else {
      assert (a + b)[1..] == a[1..] + b;
      FlattenAppend(a[1..], b);
    }
  }

  lemma FlattenTake(lines: seq<string>, l: nat)
    requires l < |lines|
    ensures Flatten(lines[..l + 1]) == Flatten(lines[..l]) + lines[l]
  {
    assert lines[..l + 1] == lines[..l] + [lines[l]];
    FlattenAppend(lines[..l], [lines[l]]);
    assert Flatten([lines[l]]) == lines[l] + "" == lines[l];
  }

  lemma FlattenSplit(lines: seq<string>, l: nat)
    requires l < |lines|
    ensures Flatten(lines) == Flatten(lines[..l]) + lines[l] + Flatten(lines[l + 1..])
  {
    assert lines == lines[..l + 1] + lines[l + 1..];
    FlattenAppend(lines[..l + 1], lines[l + 1..]);
    FlattenTake(lines, l);
  }

  lemma {:induction false} FlattenMonotone(lines: seq<string>, l: nat, l': nat)
    requires l < l' <= |lines|
    ensures |Flatten(lines[..l])| + |lines[l]| <= |Flatten(lines[..l'])|
  {
    assert lines[..l'] == lines[..l] + lines[l..l'];
    FlattenAppend(lines[..l], lines[l..l']);
  }

  /** Two character positions with the same offset are the same position. */
  lemma OffsetInjective(lines: seq<string>, l: nat, p: nat, l': nat, p': nat)
    requires l < |lines| && p < |lines[l]| && l' < |lines| && p' < |lines[l']|
    requires Offset(lines, l, p) == Offset(lines, l', p')
    ensures l == l' && p == p'
  {
    if l < l' {
      FlattenMonotone(lines, l, l');
    } else if l' < l {
      FlattenMonotone(lines, l', l);
    }
  }
}

/**
 Matching of brackets in unsplit text: the reference that both scanners of cpplint are compared with.  < and > are
 tentative brackets: they give way when a ( [ { around them is closed or a statement ends.
 */
module FlatMatching {
  import opened LintText

  /** What a scan found: a match, a mismatch, or the end of the text with this stack still open. */
  datatype Scan = Found(pos: nat) | Failed | Open(stack: string)

  /** The effect of one character of a scan: stop with a result, or go on at `next`. */
  datatype Outcome = Stop(result: Scan) | Go(stack: string, next: int)

  function PopAll(stack: string, c: char): (s: string)
    ensures s <= stack
  {
    if stack != [] && stack[|stack| - 1] == c then PopAll(stack[..|stack| - 1], c) else stack
  }

  function Pop(stack: string): (s: string)
    requires stack != []
  {
    stack[..|stack| - 1]
  }

  predicate Top(stack: string, c: char) { stack != [] && stack[|stack| - 1] == c }

  /** Close the innermost bracket, which has to be `b`; `found` is the result if it was the only one. */
  function MatchTop(stack: string, b: char, found: nat, next: int): (o: Outcome) {
    if !Top(stack, b) then Stop(Failed)
    else if |stack| == 1 then Stop(Found(found))
    else Go(Pop(stack), next)
  }

  function ForwardStep(c: char, i: nat, stack: string): (o: Outcome) {
    if IsOpener(c) then Go(stack + [c], i + 1)
    else if IsClose(c) then MatchTop(PopAll(stack, '<'), Mirror(c), i + 1, i + 1)
    else if c == '>' && Top(stack, '<') then MatchTop(stack, '<', i + 1, i + 1)
    else if c == ';' then (if PopAll(stack, '<') == [] then Stop(Failed) else Go(PopAll(stack, '<'), i + 1))
    else Go(stack, i + 1)
  }

  function BackwardStep(c: char, i: nat, stack: string): (o: Outcome) {
    if IsCloser(c) then Go(stack + [c], i - 1)
    else if IsOpen(c) then MatchTop(PopAll(stack, '>'), Mirror(c), i, i - 1)
    else if c == '<' && Top(stack, '>') then MatchTop(stack, '>', i, i - 1)
    else if c == ';' then (if PopAll(stack, '>') == [] then Stop(Failed) else Go(PopAll(stack, '>'), i - 1))
    else Go(stack, i - 1)
  }

  /** Scan forward from `i`; `Found` is the position just after the match. */
  function Forward(text: string, i: nat, stack: string): (r: Scan)
    requires i <= |text|
    ensures r.Found? ==> i < r.pos <= |text|
    decreases |text| - i
  {
    if i == |text| then Open(stack)
    else
      match ForwardStep(text[i], i, stack)
      case Stop(r) => r
      case Go(s, _) => Forward(text, i + 1, s)
  }

  /** Scan backward from just before `i`; `Found` is the position of the match. */
  function Backward(text: string, i: nat, stack: string): (r: Scan)
    requires i <= |text|
    ensures r.Found? ==> r.pos < i
    decreases i
  {
    if i == 0 then Open(stack)
    else
      match BackwardStep(text[i - 1], i - 1, stack)
      case Stop(r) => r
      case Go(s, _) => Backward(text, i - 1, s)
  }

  // ----- what is open before a cut faces what is unmatched after it -----

  /**
   Up to tentative brackets, the two stacks are mirror images.  Inside of a ( [ { the numbers of < and > may
   differ, because that bracket makes up for it; outside of all of them they are the same.
   */
  ghost predicate Facing(f: string, b: string)
    decreases |f|
  {
    var s, t := PopAll(f, '<'), PopAll(b, '>');
    if s == [] || t == [] then s == [] && t == [] && |f| == |b|
    else t[|t| - 1] == Mirror(s[|s| - 1]) && Facing(Pop(s), Pop(t))
  }

  lemma PopAllPush(s: string, d: char, c: char)
    ensures PopAll(s + [d], c) == if d == c then PopAll(s, c) else s + [d]
  {
    assert (s + [d])[..|s|] == s;
  }

  lemma PopAllKeeps(s: string, c: char)
    requires !Top(s, c)
    ensures PopAll(s, c) == s
  {
  }

  lemma {:induction false} PopAllTwice(s: string, c: char)
    ensures PopAll(PopAll(s, c), c) == PopAll(s, c)
    ensures !Top(PopAll(s, c), c)
  {
    if Top(s, c) {
      PopAllTwice(s[..|s| - 1], c);
    }
  }

  /** Above the innermost ( [ { tentative brackets do not count. */
  lemma FacingSame(f: string, b: string, f': string, b': string)
    requires PopAll(f, '<') == PopAll(f', '<') && PopAll(b, '>') == PopAll(b', '>')
    requires PopAll(f, '<') != [] || PopAll(b, '>') != []
    ensures Facing(f, b) == Facing(f', b')
  {
    hide PopAll;
  }

  lemma FacingAngles(f: string, b: string)
    ensures Facing(f + ['<'], b + ['>']) == Facing(f, b)
  {
    PopAllPush(f, '<', '<');
    PopAllPush(b, '>', '>');
    hide PopAll;
  }

  lemma FacingBrackets(f: string, b: string, c: char)
    requires IsOpen(c)
    ensures Facing(f + [c], b + [Mirror(c)]) == Facing(f, b)
  {
    PopAllPush(f, c, '<');
    PopAllPush(b, Mirror(c), '>');
    hide PopAll;
    assert Pop(f + [c]) == f && Pop(b + [Mirror(c)]) == b;
  }

  lemma FacingEmpty(f: string, b: string)
    requires Facing(f, b)
    ensures f == [] <==> b == []
  {
  }

  /** A bracket closed by the forward scan is pushed by the backward scan. */
  lemma AnswerLast(f: string, c: char)
    requires IsClose(c) && PopAll(f, '<') == [Mirror(c)]
    ensures Facing(f, [c])
  {
    PopAllTwice(f, '<');
    hide PopAll, Facing;
    assert [] + [Mirror(c)] == [Mirror(c)] && [] + [c] == [c] && Mirror(Mirror(c)) == c;
    NothingFacing();
    FacingBrackets([], [], Mirror(c));
    FacingSame([Mirror(c)], [c], f, [c]);
  }

  lemma NothingFacing()
    ensures Facing([], [])
  {
  }

  lemma AnswerClose(f: string, c: char, b: string)
    requires IsClose(c) && Top(PopAll(f, '<'), Mirror(c)) && Facing(Pop(PopAll(f, '<')), b)
    ensures Facing(f, b + [c])
  {
    PopAllTwice(f, '<');
    hide PopAll, Facing;
    var s := PopAll(f, '<');
    assert s == Pop(s) + [Mirror(c)] && Mirror(Mirror(c)) == c;
    FacingBrackets(Pop(s), b, Mirror(c));
    FacingSame(s, b + [c], f, b + [c]);
  }

  /** A bracket opened by the forward scan is matched by the backward scan, and is not the last one. */
  lemma AnswerOpen(f: string, c: char, b: string)
    requires IsOpen(c) && f != [] && Facing(f + [c], b)
    ensures var t := PopAll(b, '>'); Top(t, Mirror(c)) && |t| > 1 && Facing(f, Pop(t))
  {
    PopAllPush(f, c, '<');
    hide PopAll;
    assert Pop(f + [c]) == f;
    FacingEmpty(f, Pop(PopAll(b, '>')));
  }

  lemma AnswerLess(f: string, b: string)
    requires f != [] && Facing(f + ['<'], b)
    ensures if Top(b, '>') then |b| > 1 && Facing(f, Pop(b)) else Facing(f, b)
  {
    hide Facing, PopAll;
    PopAllPush(f, '<', '<');
    FacingEmpty(f + ['<'], b);
    if Top(b, '>') {
      assert b == Pop(b) + ['>'];
      FacingAngles(f, Pop(b));
      FacingEmpty(f, Pop(b));
    } else {
      PopAllKeeps(b, '>');
      FacingSame(f + ['<'], b, f, b);
    }
  }

  lemma AnswerGreater(f: string, b: string)
    requires f != [] && Facing(if Top(f, '<') then Pop(f) else f, b)
    ensures Facing(f, b + ['>'])
  {
    hide Facing, PopAll;
    if Top(f, '<') {
      assert f == Pop(f) + ['<'];
      FacingAngles(Pop(f), b);
    } else {
      PopAllKeeps(f, '<');
      PopAllPush(b, '>', '>');
      FacingSame(f, b, f, b + ['>']);
    }
  }

  lemma AnswerSemicolon(f: string, b: string)
    requires PopAll(f, '<') != [] && Facing(PopAll(f, '<'), b)
    ensures PopAll(b, '>') != [] && Facing(f, PopAll(b, '>'))
  {
    PopAllTwice(f, '<');
    PopAllTwice(b, '>');
    hide PopAll;
    FacingSame(PopAll(f, '<'), b, f, PopAll(b, '>'));
  }

  /** Each step of the forward scan that goes on has an answer of the backward scan that goes on. */
  lemma Answer(c: char, k: nat, f: string, b: string)
    requires f != [] && ForwardStep(c, k, f).Go? && Facing(ForwardStep(c, k, f).stack, b)
    ensures ForwardStep(c, k, f).stack != []
    ensures BackwardStep(c, k, b).Go? && Facing(f, BackwardStep(c, k, b).stack)
  {
    hide Facing, PopAll;
    if IsOpen(c) {
      AnswerOpen(f, c, b);
    } else if c == '<' {
      AnswerLess(f, b);
    } else if IsClose(c) {
      AnswerClose(f, c, b);
    } else if c == '>' {
      AnswerGreater(f, b);
    } else if c == ';' {
      AnswerSemicolon(f, b);
    }
  }

  lemma AnswerStop(c: char, k: nat, f: string, e: nat)
    requires f != [] && ForwardStep(c, k, f) == Stop(Found(e))
    ensures e == k + 1 && IsCloser(c) && Facing(f, [c])
  {
    hide Facing, PopAll;
    if IsClose(c) {
      assert PopAll(f, '<') == [Mirror(c)];
      AnswerLast(f, c);
    } else {
      NothingFacing();
      assert f == ['<'] == [] + ['<'] && ['>'] == [] + ['>'];
      FacingAngles([], []);
    }
  }

  /** At any cut of a matched expression, what is open before the cut faces what is unmatched after it. */
  lemma {:induction false} ThereAndBack(text: string, k: nat, f: string, e: nat) returns (b: string)
    requires k <= |text| && f != [] && Forward(text, k, f) == Found(e)
    ensures 0 < e <= |text| && IsCloser(text[e - 1])
    ensures Facing(f, b) && Backward(text, e, []) == Backward(text, k, b)
    decreases |text| - k
  {
    hide ForwardStep, BackwardStep, Facing, IsCloser;
    var c := text[k];
    match ForwardStep(c, k, f)
    case Stop(r) =>
      AnswerStop(c, k, f, e);
      PushCloser(c, k);
      b := [c];
    case Go(f', _) =>
      GoesOn(c, k, f);
      var b' := ThereAndBack(text, k + 1, f', e);
      Answer(c, k, f, b');
      b := BackwardStep(c, k, b').stack;
  }

  lemma GoesOn(c: char, k: nat, f: string)
    requires f != [] && ForwardStep(c, k, f).Go?
    ensures ForwardStep(c, k, f).stack != []
  {
  }

  lemma GoesBack(c: char, k: nat, b: string)
    requires b != [] && BackwardStep(c, k, b).Go?
    ensures BackwardStep(c, k, b).stack != []
  {
  }

  lemma PushCloser(c: char, k: nat)
    requires IsCloser(c)
    ensures BackwardStep(c, k, []) == Go([c], k - 1)
  {
    assert [] + [c] == [c];
  }

  lemma FlatThere(text: string, a: nat, e: nat)
    requires a < |text| && IsOpener(text[a]) && Forward(text, a, []) == Found(e)
    ensures 0 < e <= |text| && IsCloser(text[e - 1]) && Backward(text, e, []) == Found(a)
  {
    var c := text[a];
    assert [] + [c] == [c];
    var b := ThereAndBack(text, a + 1, [c], e);
    OnlyOne(c, a, b);
  }

  lemma OnlyOne(c: char, a: nat, b: string)
    requires IsOpener(c) && Facing([c], b)
    ensures BackwardStep(c, a, b) == Stop(Found(a))
  {
    var t := PopAll(b, '>');
    assert [c] == [] + [c];
    PopAllPush([], c, '<');
    if IsOpen(c) {
      FacingEmpty([], Pop(t));
    } else {
      assert b == ['>'];
    }
  }

  // ----- the same backwards, by turning the text around -----

  function MirrorAll(s: string): (t: string)
    ensures |t| == |s| && forall i :: 0 <= i < |s| ==> t[i] == Mirror(s[i])
  {
    seq(|s|, i requires 0 <= i < |s| => Mirror(s[i]))
  }

  /** The text read from its end, with each bracket turned around. */
  function Turned(text: string): (t: string)
    ensures |t| == |text|
  {
    seq(|text|, i requires 0 <= i < |text| => Mirror(text[|text| - 1 - i]))
  }

  lemma TurnedTwice(text: string)
    ensures Turned(Turned(text)) == text
  {
    hide Turned;
    forall i | 0 <= i < |text| ensures Turned(Turned(text))[i] == text[i] {
      TurnedAt(Turned(text), i);
      TurnedAt(text, |text| - 1 - i);
      assert Mirror(Mirror(text[i])) == text[i];
    }
  }

  lemma TurnedAt(text: string, i: nat)
    requires i < |text|
    ensures Turned(text)[i] == Mirror(text[|text| - 1 - i])
  {
  }

  lemma {:induction false} MirrorPopAll(s: string, c: char)
    ensures PopAll(MirrorAll(s), Mirror(c)) == MirrorAll(PopAll(s, c))
  {
    if s != [] {
      assert Mirror(Mirror(s[|s| - 1])) == s[|s| - 1] && Mirror(Mirror(c)) == c;
      assert MirrorAll(s)[..|s| - 1] == MirrorAll(s[..|s| - 1]);
      if s[|s| - 1] == c {
        MirrorPopAll(s[..|s| - 1], c);
      }
    }
  }

  lemma MirrorMatchTop(s: string, b: char, found: nat, next: int, found': nat, next': int)
    ensures match MatchTop(s, b, found, next)
            case Stop(r) => MatchTop(MirrorAll(s), Mirror(b), found', next')
                         == Stop(if r.Found? then Found(found') else r)
            case Go(t, _) => MatchTop(MirrorAll(s), Mirror(b), found', next') == Go(MirrorAll(t), next')
  {
    assert Mirror(Mirror(b)) == b;
    if s != [] {
      assert Mirror(Mirror(s[|s| - 1])) == s[|s| - 1];
      assert Pop(MirrorAll(s)) == MirrorAll(Pop(s));
    }
  }

  /** A step backward is a step forward in the turned text. */
  lemma TurnStep(c: char, i: nat, b: string, j: nat)
    ensures match BackwardStep(c, i, b)
            case Stop(r) => (r.Found? ==> r == Found(i)) && !r.Open?
                            && ForwardStep(Mirror(c), j, MirrorAll(b)) == Stop(if r.Found? then Found(j + 1) else r)
            case Go(t, _) => ForwardStep(Mirror(c), j, MirrorAll(b)) == Go(MirrorAll(t), j + 1)
  {
    hide PopAll, MatchTop;
    MirrorPopAll(b, '>');
    MirrorMatchTop(PopAll(b, '>'), Mirror(c), i, i - 1, j + 1, j + 1);
    MirrorMatchTop(b, '>', i, i - 1, j + 1, j + 1);
    MatchResult(PopAll(b, '>'), Mirror(c), i, i - 1);
    MatchResult(b, '>', i, i - 1);
    MirrorTop(b, '>');
    assert MirrorAll(b + [c]) == MirrorAll(b) + [Mirror(c)];
  }

  lemma MatchResult(s: string, b: char, found: nat, next: int)
    ensures var o := MatchTop(s, b, found, next); o.Stop? ==> o.result == Failed || o.result == Found(found)
  {
  }

  lemma MirrorTop(s: string, c: char)
    ensures Top(MirrorAll(s), Mirror(c)) == Top(s, c)
  {
    assert Mirror(Mirror(c)) == c;
    if s != [] {
      assert Mirror(Mirror(s[|s| - 1])) == s[|s| - 1];
    }
  }

  lemma {:induction false} TurnScan(text: string, i: nat, b: string)
    requires i <= |text|
    ensures match Backward(text, i, b)
            case Found(a) => Forward(Turned(text), |text| - i, MirrorAll(b)) == Found(|text| - a)
            case Failed => Forward(Turned(text), |text| - i, MirrorAll(b)) == Failed
            case Open(s) => Forward(Turned(text), |text| - i, MirrorAll(b)) == Open(MirrorAll(s))
    decreases i
  {
    hide BackwardStep, ForwardStep, Mirror, Turned;
    if i > 0 {
      TurnedAt(text, |text| - i);
      TurnStep(text[i - 1], i - 1, b, |text| - i);
      match BackwardStep(text[i - 1], i - 1, b)
      case Stop(r) =>
      case Go(t, _) => TurnScan(text, i - 1, t);
    }
  }

  lemma FlatBack(text: string, a: nat, e: nat)
    requires 0 < e <= |text| && IsCloser(text[e - 1]) && Backward(text, e, []) == Found(a)
    ensures a < |text| && IsOpener(text[a]) && Forward(text, a, []) == Found(e)
  {
    hide *;
    var n, turned := |text|, Turned(text);
    TurnedBracket(text, e - 1);
    TurnFound(text, e, a);
    FlatThere(turned, n - e, n - a);
    TurnFound(turned, n - a, n - e);
    TurnedBracket(turned, n - 1 - a);
    TurnedTwice(text);
  }

  lemma TurnFound(text: string, e: nat, a: nat)
    requires e <= |text| && Backward(text, e, []) == Found(a)
    ensures a < e && Forward(Turned(text), |text| - e, []) == Found(|text| - a)
  {
    hide Backward, Forward, Mirror, Turned;
    assert MirrorAll([]) == [];
    TurnScan(text, e, []);
  }

  lemma TurnedBracket(text: string, i: nat)
    requires i < |text|
    ensures IsCloser(text[i]) <==> IsOpener(Turned(text)[|text| - 1 - i])
  {
    hide Mirror, Turned;
    TurnedAt(text, |text| - 1 - i);
  }

  /** The two scans are inverse to each other on unsplit text. */
  lemma FlatDuality(text: string, a: nat, e: nat)
    requires a < |text| && 0 < e <= |text|
    ensures IsOpener(text[a]) && Forward(text, a, []) == Found(e)
       <==> IsCloser(text[e - 1]) && Backward(text, e, []) == Found(a)
  {
    hide Forward, Backward;
    if IsOpener(text[a]) && Forward(text, a, []) == Found(e) {
      FlatThere(text, a, e);
    }
    if IsCloser(text[e - 1]) && Backward(text, e, []) == Found(a) {
      FlatBack(text, a, e);
    }
  }

  // ----- parts of a text -----

  /** The position enters a step only where it says what was found and where to go on. */
  lemma ForwardShift(c: char, i: nat, j: nat, stack: string)
    ensures match ForwardStep(c, i, stack)
            case Stop(r) => (r.Found? ==> r == Found(i + 1))
                            && ForwardStep(c, j, stack) == Stop(if r.Found? then Found(j + 1) else r)
            case Go(s, _) => ForwardStep(c, j, stack) == Go(s, j + 1)
    ensures var o := ForwardStep(c, i, stack); o.Stop? ==> !o.result.Open?
  {
  }

  lemma BackwardShift(c: char, i: nat, j: nat, stack: string)
    ensures match BackwardStep(c, i, stack)
            case Stop(r) => (r.Found? ==> r == Found(i))
                            && BackwardStep(c, j, stack) == Stop(if r.Found? then Found(j) else r)
            case Go(s, _) => BackwardStep(c, j, stack) == Go(s, j - 1)
    ensures var o := BackwardStep(c, i, stack); o.Stop? ==> !o.result.Open?
  {
  }

  /** Scanning a text is scanning its first part and going on with what that part left open. */
  lemma {:induction false} ForwardConcat(a: string, b: string, c: string, i: nat, stack: string)
    requires i <= |b|
    ensures Forward(a + b + c, |a| + i, stack)
         == match Forward(b, i, stack)
            case Found(e) => Found(|a| + e)
            case Failed => Failed
            case Open(s) => Forward(a + b + c, |a| + |b|, s)
    decreases |b| - i
  {
    hide ForwardStep;
    if i < |b| {
      assert (a + b + c)[|a| + i] == b[i];
      ForwardShift(b[i], i, |a| + i, stack);
      match ForwardStep(b[i], i, stack)
      case Stop(_) =>
      case Go(s, _) => ForwardConcat(a, b, c, i + 1, s);
    }
  }

  lemma {:induction false} BackwardConcat(a: string, b: string, c: string, i: nat, stack: string)
    requires i <= |b|
    ensures Backward(a + b + c, |a| + i, stack)
         == match Backward(b, i, stack)
            case Found(p) => Found(|a| + p)
            case Failed => Failed
            case Open(s) => Backward(a + b + c, |a|, s)
    decreases i
  {
    hide BackwardStep;
    if i > 0 {
      assert (a + b + c)[|a| + i - 1] == b[i - 1];
      BackwardShift(b[i - 1], i - 1, |a| + i - 1, stack);
      match BackwardStep(b[i - 1], i - 1, stack)
      case Stop(_) =>
      case Go(s, _) => BackwardConcat(a, b, c, i - 1, s);
    }
  }
}
