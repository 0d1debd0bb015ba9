/**
 Bracket matching in cpplint: `CloseExpression` scans forward from an opening bracket and
 `ReverseCloseExpression` scans backward from a closing one, both over elided source lines.
 */
module BracketMatcher {
  import opened LintText
  import opened FlatMatching
  import opened Spaces

  /** The effect of one character of `FindEndOfExpressionInLine`. */
  function EndStep(line: string, i: nat, stack: string): (o: Outcome)
    requires i < |line|
  {
    var c := line[i];
    if IsOpen(c) then Go(stack + [c], i + 1)
    else if c == '<' then
      if i > 0 && line[i - 1] == '<' then
        if Top(stack, '<') then (if |stack| == 1 then Stop(Failed) else Go(Pop(stack), i + 1))
        else Go(stack, i + 1)
      else if i > 0 && EndsWithOperator(line[..i]) then Go(stack, i + 1)
      else Go(stack + ['<'], i + 1)
    else if IsClose(c) then
      var s := PopAll(stack, '<');
      if s == [] then Stop(Failed)
      else if s[|s| - 1] == Mirror(c) then (if |s| == 1 then Stop(Found(i + 1)) else Go(Pop(s), i + 1))
      else Stop(Failed)
    else if c == '>' then
      if i > 0 && (line[i - 1] == '-' || EndsWithOperator(line[..i - 1])) then Go(stack, i + 1)
      else if Top(stack, '<') then (if |stack| == 1 then Stop(Found(i + 1)) else Go(Pop(stack), i + 1))
      else Go(stack, i + 1)
    else if c == ';' then
      var s := PopAll(stack, '<');
      if s == [] then Stop(Failed) else Go(s, i + 1)
    else Go(stack, i + 1)
  }

  function EndInLine(line: string, i: nat, stack: string): (r: Scan)
    requires i <= |line|
    decreases |line| - i
  {
    if i == |line| then Open(stack)
    else
      match EndStep(line, i, stack)
      case Stop(r) => r
      case Go(s, _) => EndInLine(line, i + 1, s)
  }

  /** At `i` there is a >= between two spaces. */
  predicate SpacedGreaterEqual(line: string, i: nat)
    requires 0 < i < |line|
  {
    i + 2 < |line| && IsSpace(line[i - 1]) && line[i] == '>' && line[i + 1] == '=' && IsSpace(line[i + 2])
  }

  /** The effect of one character of `FindStartOfExpressionInLine`; `next` is where the scan goes on. */
  function StartStep(line: string, i: nat, stack: string): (o: Outcome)
    requires i < |line|
  {
    var c := line[i];
    if IsClose(c) then Go(stack + [c], i - 1)
    else if c == '>' then
      if i > 0 && (line[i - 1] == '-' || SpacedGreaterEqual(line, i) || EndsWithOperator(line[..i]))
      then Go(stack, i - 2)
      else Go(stack + ['>'], i - 1)
    else if c == '<' then
      if i > 0 && line[i - 1] == '<' then Go(stack, i - 2)
      else if Top(stack, '>') then (if |stack| == 1 then Stop(Found(i)) else Go(Pop(stack), i - 1))
      else Go(stack, i - 1)
    else if IsOpen(c) then
      var s := PopAll(stack, '>');
      if s == [] then Stop(Failed)
      else if s[|s| - 1] == Mirror(c) then (if |s| == 1 then Stop(Found(i)) else Go(Pop(s), i - 1))
      else Stop(Failed)
    else if c == ';' then
      var s := PopAll(stack, '>');
      if s == [] then Stop(Failed) else Go(s, i - 1)
    else Go(stack, i - 1)
  }

  function StartInLine(line: string, i: int, stack: string): (r: Scan)
    requires i < |line|
    decreases if i < 0 then 0 else i + 1
  {
    if i < 0 then Open(stack)
    else
      match StartStep(line, i, stack)
      case Stop(r) => r
      case Go(s, next) => StartInLine(line, next, s)
  }

  /** Where an expression ends or starts. */
  datatype Place = At(line: nat, pos: nat) | NotFound

  function CloseFrom(lines: seq<string>, l: nat, i: nat, stack: string): (r: Place)
    requires l < |lines| && i <= |lines[l]|
    decreases |lines| - l
  {
    match EndInLine(lines[l], i, stack)
    case Found(e) => At(l, e)
    case Failed => NotFound
    case Open(s) => if s == [] || l + 1 == |lines| then NotFound else CloseFrom(lines, l + 1, 0, s)
  }

  function Close(lines: seq<string>, l: nat, p: nat): (r: Place)
    requires l < |lines| && p < |lines[l]|
  {
    var line := lines[l];
    if !(IsOpen(line[p]) || line[p] == '<') then NotFound
    else if line[p] == '<' && p + 1 < |line| && (line[p + 1] == '<' || line[p + 1] == '=') then NotFound
    else CloseFrom(lines, l, p, [])
  }

  function StartFrom(lines: seq<string>, l: nat, i: int, stack: string): (r: Place)
    requires l < |lines| && i < |lines[l]|
    decreases l
  {
    match StartInLine(lines[l], i, stack)
    case Found(p) => At(l, p)
    case Failed => NotFound
    case Open(s) => if s == [] || l == 0 then NotFound else StartFrom(lines, l - 1, |lines[l - 1]| - 1, s)
  }

  function ReverseClose(lines: seq<string>, l: nat, p: nat): (r: Place)
    requires l < |lines| && p < |lines[l]|
  {
    if IsClose(lines[l][p]) || lines[l][p] == '>' then StartFrom(lines, l, p, []) else NotFound
  }

  // ----- the loops of the source -----

  method FindEndOfExpressionInLine(line: string, startpos: nat, stack0: string) returns (r: Scan)
    requires startpos <= |line|
    ensures r == EndInLine(line, startpos, stack0)
  {
    var stack := stack0;
    for i := startpos to |line|
      invariant EndInLine(line, i, stack) == EndInLine(line, startpos, stack0)
    {
      var c := line[i];
      if IsOpen(c) {
        stack := stack + [c];
      } else if c == '<' {
        if i > 0 && line[i - 1] == '<' {
          if Top(stack, '<') {
            stack := Pop(stack);
            if stack == [] { return Failed; }
          }
        } else if i > 0 && EndsWithOperator(line[..i]) {
        } else {
          stack := stack + ['<'];
        }
      } else if IsClose(c) {
        stack := PopWhile(stack, '<');
        if stack == [] { return Failed; }
        if stack[|stack| - 1] == Mirror(c) {
          stack := Pop(stack);
          if stack == [] { return Found(i + 1); }
        } else {
          return Failed;
        }
      } else if c == '>' {
        if i > 0 && (line[i - 1] == '-' || EndsWithOperator(line[..i - 1])) {
        } else if Top(stack, '<') {
          stack := Pop(stack);
          if stack == [] { return Found(i + 1); }
        }
      } else if c == ';' {
        stack := PopWhile(stack, '<');
        if stack == [] { return Failed; }
      }
    }
    r := Open(stack);
  }

  method PopWhile(stack0: string, c: char) returns (stack: string)
    ensures stack == PopAll(stack0, c)
  {
    stack := stack0;
    while stack != [] && stack[|stack| - 1] == c
      invariant PopAll(stack, c) == PopAll(stack0, c)
      decreases |stack|
    {
      stack := Pop(stack);
    }
  }

  method CloseExpression(lines: seq<string>, linenum: nat, pos: nat) returns (r: Place)
    requires linenum < |lines| && pos < |lines[linenum]|
    ensures r == Close(lines, linenum, pos)
  {
    var l: nat, line := linenum, lines[linenum];
    if !(IsOpen(line[pos]) || line[pos] == '<')
       || (line[pos] == '<' && pos + 1 < |line| && (line[pos + 1] == '<' || line[pos + 1] == '=')) {
      return NotFound;
    }
    var found := FindEndOfExpressionInLine(line, pos, []);
    while found.Open? && found.stack != [] && l < |lines| - 1
      invariant l < |lines|
      invariant CloseFrom(lines, linenum, pos, [])
             == match found
                case Found(e) => At(l, e)
                case Failed => NotFound
                case Open(s) => if s == [] || l + 1 == |lines| then NotFound else CloseFrom(lines, l + 1, 0, s)
      decreases |lines| - l
    {
      l := l + 1;
      found := FindEndOfExpressionInLine(lines[l], 0, found.stack);
    }
    r := if found.Found? then At(l, found.pos) else NotFound;
  }

  method FindStartOfExpressionInLine(line: string, endpos: int, stack0: string) returns (r: Scan)
    requires -1 <= endpos < |line|
    ensures r == StartInLine(line, endpos, stack0)
  {
    var stack, i := stack0, endpos;
    while i >= 0
      invariant i < |line|
      invariant StartInLine(line, i, stack) == StartInLine(line, endpos, stack0)
      decreases i
    {
      var c := line[i];
      if IsClose(c) {
        stack := stack + [c];
      } else if c == '>' {
        if i > 0 && (line[i - 1] == '-' || SpacedGreaterEqual(line, i) || EndsWithOperator(line[..i])) {
          i := i - 1;
        } else {
          stack := stack + ['>'];
        }
      } else if c == '<' {
        if i > 0 && line[i - 1] == '<' {
          i := i - 1;
        } else if Top(stack, '>') {
          stack := Pop(stack);
          if stack == [] { return Found(i); }
        }
      } else if IsOpen(c) {
        stack := PopWhile(stack, '>');
        if stack == [] { return Failed; }
        if stack[|stack| - 1] == Mirror(c) {
          stack := Pop(stack);
          if stack == [] { return Found(i); }
        } else {
          return Failed;
        }
      } else if c == ';' {
        stack := PopWhile(stack, '>');
        if stack == [] { return Failed; }
      }
      i := i - 1;
    }
    r := Open(stack);
  }

  method ReverseCloseExpression(lines: seq<string>, linenum: nat, pos: nat) returns (r: Place)
    requires linenum < |lines| && pos < |lines[linenum]|
    ensures r == ReverseClose(lines, linenum, pos)
  {
    var l: nat, line := linenum, lines[linenum];
    if !(IsClose(line[pos]) || line[pos] == '>') {
      return NotFound;
    }
    var found := FindStartOfExpressionInLine(line, pos, []);
    while found.Open? && found.stack != [] && l > 0
      invariant l < |lines|
      invariant StartFrom(lines, linenum, pos, [])
             == match found
                case Found(p) => At(l, p)
                case Failed => NotFound
                case Open(s) => if s == [] || l == 0 then NotFound else StartFrom(lines, l - 1, |lines[l - 1]| - 1, s)
      decreases l
    {
      l := l - 1;
      found := FindStartOfExpressionInLine(lines[l], |lines[l]| - 1, found.stack);
    }
    r := if found.Found? then At(l, found.pos) else NotFound;
  }

  // ----- two ways to look at a line -----

  /** `Brackets` looks at ( [ { only; `Templates` also at < and >, which takes lines without surprises. */
  datatype View = Brackets | Templates

  /** The character as the flat scan sees it: what the view leaves out is a space. */
  function SeenAt(line: string, i: nat, v: View): (c: char)
    requires i < |line|
  {
    match v
    case Brackets => if line[i] == '<' || line[i] == '>' || line[i] == ';' then ' ' else line[i]
    case Templates => if line[i] == '>' && i > 0 && line[i - 1] == '-' then ' ' else line[i]
  }

  function Seen(line: string, v: View): (t: string)
    ensures |t| == |line| && forall i :: 0 <= i < |line| ==> t[i] == SeenAt(line, i, v)
  {
    seq(|line|, i requires 0 <= i < |line| => SeenAt(line, i, v))
  }

  function SeenAll(lines: seq<string>, v: View): (ts: seq<string>)
    ensures |ts| == |lines| && forall l :: 0 <= l < |lines| ==> ts[l] == Seen(lines[l], v)
  {
    seq(|lines|, l requires 0 <= l < |lines| => Seen(lines[l], v))
  }

  /**
   No surprise at `i`: a < does not follow another one or `operator`; a > that is no arrow does not follow
   `operator`, directly or after one more character, and is not the start of a spaced >=.
   */
  predicate RegularAt(line: string, i: nat)
    requires i < |line|
  {
    i == 0
    || (&& (line[i] == '<' ==> line[i - 1] != '<' && !EndsWithOperator(line[..i]))
        && (line[i] == '>' && line[i - 1] != '-' ==>
              !EndsWithOperator(line[..i]) && !EndsWithOperator(line[..i - 1]) && !SpacedGreaterEqual(line, i)))
  }

  ghost predicate Regular(line: string) { forall i :: 0 <= i < |line| ==> RegularAt(line, i) }

  ghost predicate AllRegular(lines: seq<string>) { forall l :: 0 <= l < |lines| ==> Regular(lines[l]) }

  /** The stack without its tentative template brackets. */
  function Without(stack: string, c: char): (s: string) {
    if stack == [] then []
    else if stack[|stack| - 1] == c then Without(stack[..|stack| - 1], c)
    else Without(stack[..|stack| - 1], c) + [stack[|stack| - 1]]
  }

  /** The part of the stack that the view keeps; `c` is the tentative bracket of the scan. */
  function Kept(stack: string, c: char, v: View): (s: string) { if v.Brackets? then Without(stack, c) else stack }

  function KeptScan(r: Scan, c: char, v: View): (s: Scan) { if r.Open? then Open(Kept(r.stack, c, v)) else r }

  function KeptOutcome(o: Outcome, c: char, v: View): (p: Outcome) {
    if o.Go? then Go(Kept(o.stack, c, v), o.next) else o
  }

  /** Something is open, and for brackets alone its root is one of them. */
  ghost predicate Rooted(stack: string, c: char, v: View) {
    stack != [] && (v.Brackets? ==> stack[0] != c)
  }

  ghost predicate RootedOutcome(o: Outcome, c: char, v: View) { o.Go? ==> Rooted(o.stack, c, v) }

  ghost predicate RootedScan(r: Scan, c: char, v: View) { r.Open? ==> Rooted(r.stack, c, v) }

  lemma WithoutPush(stack: string, d: char, c: char)
    ensures Without(stack + [d], c) == if d == c then Without(stack, c) else Without(stack, c) + [d]
  {
    assert (stack + [d])[..|stack|] == stack;
  }

  lemma {:induction false} WithoutTop(stack: string, c: char)
    ensures !Top(Without(stack, c), c)
  {
    if stack != [] {
      WithoutTop(stack[..|stack| - 1], c);
    }
  }

  lemma {:induction false} WithoutPopAll(stack: string, c: char)
    ensures Without(PopAll(stack, c), c) == Without(stack, c)
  {
    if stack != [] && stack[|stack| - 1] == c {
      WithoutPopAll(stack[..|stack| - 1], c);
    }
  }

  lemma {:induction false} RootedWithout(stack: string, c: char)
    requires Rooted(stack, c, Brackets)
    ensures Without(stack, c) != []
    ensures Rooted(PopAll(stack, c), c, Brackets)
    ensures stack[|stack| - 1] != c ==> (|stack| == 1 <==> |Without(stack, c)| == 1)
  {
    if |stack| > 1 {
      RootedWithout(stack[..|stack| - 1], c);
    }
  }

  /** Dropping the top of a rooted stack, when that is not its root. */
  lemma RootedPop(stack: string, c: char)
    requires Rooted(stack, c, Brackets) && |stack| > 1
    ensures Rooted(Pop(stack), c, Brackets)
    ensures Without(Pop(stack), c)
         == if stack[|stack| - 1] == c then Without(stack, c) else Pop(Without(stack, c))
  {
    if stack[|stack| - 1] != c {
      assert Pop(Without(Pop(stack), c) + [stack[|stack| - 1]]) == Without(Pop(stack), c);
    }
  }

  /** A closing bracket pops the tentative brackets above its opener and then behaves as if they were not there. */
  lemma CloseBracket(stack: string, b: char, c: char, found: nat, next: int)
    requires Rooted(stack, c, Brackets) && b != c
    ensures var o := MatchTop(PopAll(stack, c), b, found, next);
            && KeptOutcome(o, c, Brackets) == MatchTop(PopAll(Without(stack, c), c), b, found, next)
            && RootedOutcome(o, c, Brackets)
  {
    hide PopAll, Without;
    var s, w := PopAll(stack, c), Without(stack, c);
    WithoutTop(stack, c);
    PopAllKeeps(w, c);
    PopAllTwice(stack, c);
    WithoutPopAll(stack, c);
    RootedWithout(stack, c);
    RootedWithout(s, c);
    SameTop(s, c);
    if |s| > 1 {
      RootedPop(s, c);
    }
  }

  lemma SameTop(s: string, c: char)
    requires s != [] && s[|s| - 1] != c
    ensures Without(s, c) != [] && Without(s, c)[|Without(s, c)| - 1] == s[|s| - 1]
  {
  }

  // ----- one character forward -----

  /** On a regular line the scanner does what the flat scan does. */
  lemma EndStepTemplates(line: string, i: nat, stack: string)
    requires i < |line| && RegularAt(line, i)
    ensures EndStep(line, i, stack) == ForwardStep(SeenAt(line, i, Templates), i, stack)
  {
    hide EndsWithOperator, PopAll;
  }

  lemma EndAngleStep(line: string, i: nat, stack: string)
    requires i < |line| && Rooted(stack, '<', Brackets) && (line[i] == '<' || line[i] == '>')
    ensures var o := EndStep(line, i, stack);
            o.Go? && o.next == i + 1 && Rooted(o.stack, '<', Brackets) && Without(o.stack, '<') == Without(stack, '<')
  {
    hide EndsWithOperator, PopAll, Without;
    WithoutPush(stack, '<', '<');
    if Top(stack, '<') {
      RootedPop(stack, '<');
    }
  }

  lemma EndCloseStep(line: string, i: nat, stack: string)
    requires i < |line| && IsClose(line[i])
    ensures EndStep(line, i, stack) == MatchTop(PopAll(stack, '<'), Mirror(line[i]), i + 1, i + 1)
  {
    hide EndsWithOperator, PopAll;
  }

  lemma EndSemicolonStep(line: string, i: nat, stack: string)
    requires i < |line| && line[i] == ';' && Rooted(stack, '<', Brackets)
    ensures var o := EndStep(line, i, stack);
            o.Go? && o.next == i + 1 && Rooted(o.stack, '<', Brackets) && Without(o.stack, '<') == Without(stack, '<')
  {
    hide EndsWithOperator, PopAll, Without;
    WithoutPopAll(stack, '<');
    RootedWithout(stack, '<');
  }

  lemma EndOtherStep(line: string, i: nat, stack: string)
    requires i < |line| && !IsCloser(line[i]) && line[i] != '<' && line[i] != ';'
    ensures EndStep(line, i, stack) == Go(if IsOpen(line[i]) then stack + [line[i]] else stack, i + 1)
  {
    hide EndsWithOperator, PopAll;
  }

  /** On any line template brackets never stop the scan and never change what else is open. */
  lemma EndStepBrackets(line: string, i: nat, stack: string)
    requires i < |line| && Rooted(stack, '<', Brackets)
    ensures KeptOutcome(EndStep(line, i, stack), '<', Brackets)
         == ForwardStep(SeenAt(line, i, Brackets), i, Without(stack, '<'))
    ensures RootedOutcome(EndStep(line, i, stack), '<', Brackets)
  {
    hide EndStep, PopAll, Without, MatchTop;
    var c := line[i];
    if c == '<' || c == '>' {
      EndAngleStep(line, i, stack);
    } else if IsClose(c) {
      EndCloseStep(line, i, stack);
      CloseBracket(stack, Mirror(c), '<', i + 1, i + 1);
    } else if c == ';' {
      EndSemicolonStep(line, i, stack);
    } else {
      EndOtherStep(line, i, stack);
      WithoutPush(stack, c, '<');
    }
  }

  lemma EndStepSeen(line: string, i: nat, stack: string, v: View)
    requires i < |line| && Rooted(stack, '<', v) && (v.Templates? ==> RegularAt(line, i))
    ensures KeptOutcome(EndStep(line, i, stack), '<', v) == ForwardStep(SeenAt(line, i, v), i, Kept(stack, '<', v))
    ensures RootedOutcome(EndStep(line, i, stack), '<', v)
  {
    hide EndStep, ForwardStep;
    if v.Brackets? {
      EndStepBrackets(line, i, stack);
    } else {
      EndStepTemplates(line, i, stack);
      if ForwardStep(SeenAt(line, i, v), i, stack).Go? {
        GoesOn(SeenAt(line, i, v), i, stack);
      }
    }
  }

  /** The scan of a line, in both views. */
  lemma {:induction false} EndSeen(line: string, i: nat, stack: string, v: View)
    requires i <= |line| && Rooted(stack, '<', v) && (v.Templates? ==> Regular(line))
    ensures KeptScan(EndInLine(line, i, stack), '<', v) == Forward(Seen(line, v), i, Kept(stack, '<', v))
    ensures RootedScan(EndInLine(line, i, stack), '<', v)
    decreases |line| - i
  {
    hide EndStep, ForwardStep, SeenAt, RegularAt, Kept, Rooted;
    if i < |line| {
      EndStepSeen(line, i, stack, v);
      EndStepStops(line, i, stack);
      match EndStep(line, i, stack)
      case Stop(r) =>
      case Go(s, _) => EndSeen(line, i + 1, s, v);
    }
  }

  lemma EndStepStops(line: string, i: nat, stack: string)
    requires i < |line|
    ensures var o := EndStep(line, i, stack); o.Stop? ==> !o.result.Open?
  {
    hide EndsWithOperator, PopAll;
  }

  // ----- one character backward -----

  /** The backward scan leaves out one more character after this one. */
  predicate Skips(line: string, i: nat)
    requires i < |line|
  {
    i > 0 &&
    ((line[i] == '>' && (line[i - 1] == '-' || SpacedGreaterEqual(line, i) || EndsWithOperator(line[..i])))
     || (line[i] == '<' && line[i - 1] == '<'))
  }

  /** The character left out is never a bracket. */
  lemma SkippedIsNoBracket(line: string, i: nat)
    requires i < |line| && Skips(line, i)
    ensures i > 0 && !IsOpen(line[i - 1]) && !IsClose(line[i - 1])
  {
    if line[i] == '>' && EndsWithOperator(line[..i]) {
      OperatorEnd(line[..i]);
    }
  }

  lemma StartSkip(line: string, i: nat, stack: string)
    requires i < |line| && Skips(line, i)
    ensures StartStep(line, i, stack) == Go(stack, i - 2)
  {
    hide EndsWithOperator, PopAll;
  }

  /** In both views, what is skipped means nothing. */
  lemma SkipSeen(line: string, i: nat, v: View, kept: string)
    requires i < |line| && Skips(line, i) && (v.Templates? ==> RegularAt(line, i))
    ensures i > 0 && Backward(Seen(line, v), i + 1, kept) == Backward(Seen(line, v), i - 1, kept)
  {
    SkippedIsNoBracket(line, i);
    hide EndsWithOperator, PopAll;
    var t := Seen(line, v);
    assert BackwardStep(t[i], i, kept) == Go(kept, i - 1);
    assert BackwardStep(t[i - 1], i - 1, kept) == Go(kept, i - 2);
    assert Backward(t, i + 1, kept) == Backward(t, i, kept) == Backward(t, i - 1, kept);
  }

  lemma StartStepTemplates(line: string, i: nat, stack: string)
    requires i < |line| && RegularAt(line, i) && !Skips(line, i)
    ensures StartStep(line, i, stack) == BackwardStep(SeenAt(line, i, Templates), i, stack)
  {
    hide EndsWithOperator, PopAll;
  }

  lemma StartAngleStep(line: string, i: nat, stack: string)
    requires i < |line| && !Skips(line, i) && Rooted(stack, '>', Brackets) && (line[i] == '<' || line[i] == '>')
    ensures var o := StartStep(line, i, stack);
            o.Go? && o.next == i - 1 && Rooted(o.stack, '>', Brackets) && Without(o.stack, '>') == Without(stack, '>')
  {
    hide EndsWithOperator, PopAll, Without;
    WithoutPush(stack, '>', '>');
    if Top(stack, '>') {
      RootedPop(stack, '>');
    }
  }

  lemma StartOpenStep(line: string, i: nat, stack: string)
    requires i < |line| && IsOpen(line[i])
    ensures StartStep(line, i, stack) == MatchTop(PopAll(stack, '>'), Mirror(line[i]), i, i - 1)
  {
    hide EndsWithOperator, PopAll;
  }

  lemma StartSemicolonStep(line: string, i: nat, stack: string)
    requires i < |line| && line[i] == ';' && Rooted(stack, '>', Brackets)
    ensures var o := StartStep(line, i, stack);
            o.Go? && o.next == i - 1 && Rooted(o.stack, '>', Brackets) && Without(o.stack, '>') == Without(stack, '>')
  {
    hide EndsWithOperator, PopAll, Without;
    WithoutPopAll(stack, '>');
    RootedWithout(stack, '>');
  }

  lemma StartOtherStep(line: string, i: nat, stack: string)
    requires i < |line| && !IsOpener(line[i]) && line[i] != '>' && line[i] != ';'
    ensures StartStep(line, i, stack) == Go(if IsClose(line[i]) then stack + [line[i]] else stack, i - 1)
  {
    hide EndsWithOperator, PopAll;
  }

  lemma StartStepBrackets(line: string, i: nat, stack: string)
    requires i < |line| && Rooted(stack, '>', Brackets) && !Skips(line, i)
    ensures KeptOutcome(StartStep(line, i, stack), '>', Brackets)
         == BackwardStep(SeenAt(line, i, Brackets), i, Without(stack, '>'))
    ensures RootedOutcome(StartStep(line, i, stack), '>', Brackets)
  {
    hide StartStep, PopAll, Without, MatchTop, Skips;
    var c := line[i];
    if c == '<' || c == '>' {
      StartAngleStep(line, i, stack);
    } else if IsOpen(c) {
      StartOpenStep(line, i, stack);
      CloseBracket(stack, Mirror(c), '>', i, i - 1);
    } else if c == ';' {
      StartSemicolonStep(line, i, stack);
    } else {
      StartOtherStep(line, i, stack);
      WithoutPush(stack, c, '>');
    }
  }

  lemma StartStepSeen(line: string, i: nat, stack: string, v: View)
    requires i < |line| && !Skips(line, i) && Rooted(stack, '>', v) && (v.Templates? ==> RegularAt(line, i))
    ensures KeptOutcome(StartStep(line, i, stack), '>', v) == BackwardStep(SeenAt(line, i, v), i, Kept(stack, '>', v))
    ensures RootedOutcome(StartStep(line, i, stack), '>', v)
  {
    hide StartStep, BackwardStep, Skips;
    if v.Brackets? {
      StartStepBrackets(line, i, stack);
    } else {
      StartStepTemplates(line, i, stack);
      if BackwardStep(SeenAt(line, i, v), i, stack).Go? {
        GoesBack(SeenAt(line, i, v), i, stack);
      }
    }
  }

  lemma StartStepStops(line: string, i: nat, stack: string)
    requires i < |line|
    ensures var o := StartStep(line, i, stack);
            if o.Stop? then !o.result.Open? else o.next == if Skips(line, i) then i - 2 else i - 1
  {
    hide EndsWithOperator, PopAll;
  }

  lemma {:induction false} StartSeen(line: string, i: int, stack: string, v: View)
    requires -1 <= i < |line| && Rooted(stack, '>', v) && (v.Templates? ==> Regular(line))
    ensures KeptScan(StartInLine(line, i, stack), '>', v) == Backward(Seen(line, v), i + 1, Kept(stack, '>', v))
    ensures RootedScan(StartInLine(line, i, stack), '>', v)
    decreases i + 1
  {
    hide StartStep, BackwardStep, SeenAt, RegularAt, Kept, Rooted, Skips;
    if i >= 0 {
      StartStepStops(line, i, stack);
      if Skips(line, i) {
        StartSkip(line, i, stack);
        SkipSeen(line, i, v, Kept(stack, '>', v));
        StartSeen(line, i - 2, stack, v);
      } else {
        StartStepSeen(line, i, stack, v);
        match StartStep(line, i, stack)
        case Stop(r) =>
        case Go(s, _) => StartSeen(line, i - 1, s, v);
      }
    }
  }

  // ----- line structure does not matter either -----

  /** A place just after a character, as an offset; nothing found is anything but a match. */
  ghost predicate SameEnd(lines: seq<string>, r: Place, flat: Scan) {
    match r
    case At(l, e) => l < |lines| && 0 < e <= |lines[l]| && flat == Found(Offset(lines, l, e))
    case NotFound => !flat.Found?
  }

  ghost predicate SameStart(lines: seq<string>, r: Place, flat: Scan) {
    match r
    case At(l, p) => l < |lines| && p < |lines[l]| && flat == Found(Offset(lines, l, p))
    case NotFound => !flat.Found?
  }

  lemma {:induction false} CloseFromSeen(lines: seq<string>, l: nat, i: nat, stack: string, v: View)
    requires l < |lines| && i <= |lines[l]| && Rooted(stack, '<', v) && (v.Templates? ==> AllRegular(lines))
    ensures var ts := SeenAll(lines, v);
            && Offset(ts, l, i) <= |Flatten(ts)|
            && SameEnd(ts, CloseFrom(lines, l, i, stack), Forward(Flatten(ts), Offset(ts, l, i), Kept(stack, '<', v)))
    decreases |lines| - l
  {
    hide EndInLine, Forward, Seen, Regular, Kept, Flatten;
    var ts, line := SeenAll(lines, v), lines[l];
    var before := Flatten(ts[..l]);
    FlattenSplit(ts, l);
    EndSeen(line, i, stack, v);
    ForwardConcat(before, ts[l], Flatten(ts[l + 1..]), i, Kept(stack, '<', v));
    match EndInLine(line, i, stack)
    case Found(e) =>
    case Failed =>
    case Open(s) =>
      FlattenTake(ts, l);
      if l + 1 < |lines| {
        CloseFromSeen(lines, l + 1, 0, s, v);
      } else {
        assert ts[l + 1..] == [];
        ScanEnd(Flatten(ts), Kept(s, '<', v));
      }
  }

  lemma {:induction false} StartFromSeen(lines: seq<string>, l: nat, i: int, stack: string, v: View)
    requires l < |lines| && -1 <= i < |lines[l]| && Rooted(stack, '>', v) && (v.Templates? ==> AllRegular(lines))
    ensures var ts := SeenAll(lines, v);
            && Offset(ts, l, i + 1) <= |Flatten(ts)|
            && SameStart(ts, StartFrom(lines, l, i, stack),
                         Backward(Flatten(ts), Offset(ts, l, i + 1), Kept(stack, '>', v)))
    decreases l
  {
    hide StartInLine, Backward, Seen, Regular, Kept, Flatten;
    var ts, line := SeenAll(lines, v), lines[l];
    var before := Flatten(ts[..l]);
    FlattenSplit(ts, l);
    StartSeen(line, i, stack, v);
    BackwardConcat(before, ts[l], Flatten(ts[l + 1..]), i + 1, Kept(stack, '>', v));
    match StartInLine(line, i, stack)
    case Found(p) =>
    case Failed =>
    case Open(s) =>
      if l > 0 {
        FlattenTake(ts, l - 1);
        StartFromSeen(lines, l - 1, |lines[l - 1]| - 1, s, v);
      } else {
        assert ts[..0] == [];
        ScanEnd(Flatten(ts), Kept(s, '>', v));
      }
  }

  lemma ScanEnd(text: string, stack: string)
    ensures Forward(text, |text|, stack) == Open(stack) == Backward(text, 0, stack)
    ensures Flatten([]) == ""
  {
  }

  /** A position where `CloseExpression` starts: a bracket of the view, and < not as the start of << or <=. */
  predicate Starts(lines: seq<string>, l: nat, p: nat, v: View) {
    && l < |lines| && p < |lines[l]| && IsOpener(SeenAt(lines[l], p, v))
    && (lines[l][p] == '<' && p + 1 < |lines[l]| ==> lines[l][p + 1] != '<' && lines[l][p + 1] != '=')
  }

  /** A position where `ReverseCloseExpression` starts: a bracket of the view, and > not as part of an arrow. */
  predicate Ends(lines: seq<string>, l: nat, p: nat, v: View) {
    l < |lines| && p < |lines[l]| && IsCloser(SeenAt(lines[l], p, v))
  }

  ghost predicate Fine(lines: seq<string>, v: View) { v.Templates? ==> AllRegular(lines) }

  lemma KeptOne(c: char, d: char, v: View)
    requires v.Brackets? ==> c != d
    ensures Kept([c], d, v) == [c] == [] + [c] && Rooted([c], d, v)
  {
    WithoutPush([], c, d);
    assert [] + [c] == [c];
  }

  lemma OffsetBounds(ts: seq<string>, l: nat, p: nat)
    requires l < |ts| && p < |ts[l]|
    ensures Offset(ts, l, p) < |Flatten(ts)| && Flatten(ts)[Offset(ts, l, p)] == ts[l][p]
  {
    FlattenSplit(ts, l);
  }

  /** `CloseExpression` is bracket matching in the unsplit text that the view sees. */
  lemma CloseIsFlat(lines: seq<string>, l: nat, p: nat, v: View)
    requires Starts(lines, l, p, v) && Fine(lines, v)
    ensures var ts := SeenAll(lines, v);
            && Offset(ts, l, p) < |Flatten(ts)| && Flatten(ts)[Offset(ts, l, p)] == lines[l][p]
            && SameEnd(ts, Close(lines, l, p), Forward(Flatten(ts), Offset(ts, l, p), []))
  {
    var c := lines[l][p];
    hide *;
    var ts := SeenAll(lines, v);
    FirstClose(lines, l, p, v);
    OffsetBounds(ts, l, p);
    FirstForward(Flatten(ts), Offset(ts, l, p));
    CloseFromSeen(lines, l, p + 1, [c], v);
  }

  /** The first step pushes the bracket. */
  lemma FirstClose(lines: seq<string>, l: nat, p: nat, v: View)
    requires Starts(lines, l, p, v) && Fine(lines, v)
    ensures var c := lines[l][p];
            && Close(lines, l, p) == CloseFrom(lines, l, p + 1, [c])
            && Kept([c], '<', v) == [c] && Rooted([c], '<', v) && (v.Templates? ==> AllRegular(lines))
            && IsOpener(c) && SeenAll(lines, v)[l][p] == c && |SeenAll(lines, v)[l]| == |lines[l]|
            && Offset(SeenAll(lines, v), l, p + 1) == Offset(SeenAll(lines, v), l, p) + 1
  {
    hide EndsWithOperator, Flatten, PopAll, Regular;
    var line, c := lines[l], lines[l][p];
    KeptOne(c, '<', v);
    assert v.Templates? ==> RegularAt(line, p) by {
      assert v.Templates? ==> Regular(line);
      RegularHere(line, p);
    }
    assert EndStep(line, p, []) == Go([c], p + 1);
    assert EndInLine(line, p, []) == EndInLine(line, p + 1, [c]);
  }

  lemma RegularHere(line: string, p: nat)
    requires p < |line|
    ensures Regular(line) ==> RegularAt(line, p)
  {
    hide RegularAt;
  }

  lemma FirstForward(text: string, k: nat)
    requires k < |text| && IsOpener(text[k])
    ensures Forward(text, k, []) == Forward(text, k + 1, [text[k]])
  {
    assert [] + [text[k]] == [text[k]];
  }

  lemma FirstBackward(text: string, k: nat)
    requires k < |text| && IsCloser(text[k])
    ensures Backward(text, k + 1, []) == Backward(text, k, [text[k]])
  {
    PushCloser(text[k], k);
  }

  lemma ReverseIsFlat(lines: seq<string>, l: nat, p: nat, v: View)
    requires Ends(lines, l, p, v) && Fine(lines, v)
    ensures var ts := SeenAll(lines, v);
            && Offset(ts, l, p) < |Flatten(ts)| && Flatten(ts)[Offset(ts, l, p)] == lines[l][p]
            && SameStart(ts, ReverseClose(lines, l, p), Backward(Flatten(ts), Offset(ts, l, p) + 1, []))
  {
    var c := lines[l][p];
    hide *;
    var ts := SeenAll(lines, v);
    FirstReverse(lines, l, p, v);
    OffsetBounds(ts, l, p);
    FirstBackward(Flatten(ts), Offset(ts, l, p));
    StartFromSeen(lines, l, p - 1, [c], v);
  }

  lemma FirstReverse(lines: seq<string>, l: nat, p: nat, v: View)
    requires Ends(lines, l, p, v) && Fine(lines, v)
    ensures var c := lines[l][p];
            && ReverseClose(lines, l, p) == StartFrom(lines, l, p - 1, [c])
            && Kept([c], '>', v) == [c] && Rooted([c], '>', v) && (v.Templates? ==> AllRegular(lines))
            && IsCloser(c) && SeenAll(lines, v)[l][p] == c && |SeenAll(lines, v)[l]| == |lines[l]|
  {
    hide EndsWithOperator, Flatten, PopAll, Regular;
    var line, c := lines[l], lines[l][p];
    KeptOne(c, '>', v);
    assert v.Templates? ==> RegularAt(line, p) by {
      assert v.Templates? ==> Regular(line);
      RegularHere(line, p);
    }
    assert StartStep(line, p, []) == Go([c], p - 1);
    assert StartInLine(line, p, []) == StartInLine(line, p - 1, [c]);
  }

  // ----- the main results -----

  /** In both views, `CloseExpression` leads from one position to another exactly when the reverse leads back. */
  lemma SeenDuality(lines: seq<string>, l: nat, p: nat, l': nat, p': nat, v: View)
    requires Starts(lines, l, p, v) && Ends(lines, l', p', v) && Fine(lines, v)
    ensures Close(lines, l, p) == At(l', p' + 1) <==> ReverseClose(lines, l', p') == At(l, p)
  {
    hide Forward, Backward, Close, ReverseClose, Flatten, Fine, Seen;
    var ts := SeenAll(lines, v);
    var text, a, b := Flatten(ts), Offset(ts, l, p), Offset(ts, l', p');
    OffsetBounds(ts, l, p);
    OffsetBounds(ts, l', p');
    CloseIsFlat(lines, l, p, v);
    ReverseIsFlat(lines, l', p', v);
    FlatDuality(text, a, b + 1);
    if Forward(text, a, []) == Found(b + 1) {
      var r := Close(lines, l, p);
      OffsetInjective(ts, l', p', r.line, r.pos - 1);
    }
    if Backward(text, b + 1, []) == Found(a) {
      var r := ReverseClose(lines, l', p');
      OffsetInjective(ts, l, p, r.line, r.pos);
    }
  }

  /** A match that was found ends at a position from which the reverse starts, and leads back. */
  lemma SeenWayBack(lines: seq<string>, l: nat, p: nat, v: View)
    requires Starts(lines, l, p, v) && Fine(lines, v)
    requires Close(lines, l, p).At?
    ensures var r := Close(lines, l, p);
            r.pos > 0 && Ends(lines, r.line, r.pos - 1, v) && ReverseClose(lines, r.line, r.pos - 1) == At(l, p)
  {
    hide Forward, Backward, Close, ReverseClose, Flatten, Fine, Seen;
    var ts := SeenAll(lines, v);
    var r := Close(lines, l, p);
    CloseIsFlat(lines, l, p, v);
    OffsetBounds(ts, l, p);
    FlatThere(Flatten(ts), Offset(ts, l, p), Offset(ts, r.line, r.pos));
    OffsetBounds(ts, r.line, r.pos - 1);
    SeenDuality(lines, l, p, r.line, r.pos - 1, v);
  }

  /**
   For every text and every pair of an opening and a closing bracket position, `CloseExpression` leads
   from the first to the second exactly when `ReverseCloseExpression` leads back.
   */
  lemma Duality(lines: seq<string>, l: nat, p: nat, l': nat, p': nat)
    requires l < |lines| && p < |lines[l]| && IsOpen(lines[l][p])
    requires l' < |lines| && p' < |lines[l']| && IsClose(lines[l'][p'])
    ensures Close(lines, l, p) == At(l', p' + 1) <==> ReverseClose(lines, l', p') == At(l, p)
  {
    hide Close, ReverseClose;
    SeenDuality(lines, l, p, l', p', Brackets);
  }

  /** The same for < and >, on regular lines; arrows, << and <= are no template brackets. */
  lemma TemplateDuality(lines: seq<string>, l: nat, p: nat, l': nat, p': nat)
    requires AllRegular(lines) && Starts(lines, l, p, Templates) && Ends(lines, l', p', Templates)
    ensures Close(lines, l, p) == At(l', p' + 1) <==> ReverseClose(lines, l', p') == At(l, p)
  {
    hide Close, ReverseClose;
    SeenDuality(lines, l, p, l', p', Templates);
  }

  /** A match found from an opening bracket ends at a closing bracket, so that the way back exists. */
  lemma CloseThenReverse(lines: seq<string>, l: nat, p: nat)
    requires l < |lines| && p < |lines[l]| && IsOpen(lines[l][p])
    requires Close(lines, l, p).At?
    ensures var r := Close(lines, l, p);
            && r.line < |lines| && 0 < r.pos <= |lines[r.line]|
            && IsClose(lines[r.line][r.pos - 1])
            && ReverseClose(lines, r.line, r.pos - 1) == At(l, p)
  {
    hide Close, ReverseClose;
    SeenWayBack(lines, l, p, Brackets);
  }

  /** Looking at brackets only, character by character, goes well with splitting. */
  lemma {:induction false} SeenFlatten(lines: seq<string>)
    ensures Flatten(SeenAll(lines, Brackets)) == Seen(Flatten(lines), Brackets)
  {
    if lines != [] {
      SeenFlatten(lines[1..]);
      assert SeenAll(lines, Brackets)[1..] == SeenAll(lines[1..], Brackets);
      var a, b := lines[0], Flatten(lines[1..]);
      assert Seen(a + b, Brackets) == Seen(a, Brackets) + Seen(b, Brackets);
    }
  }

  lemma SeenOffset(lines: seq<string>, l: nat, p: nat)
    requires l <= |lines|
    ensures Offset(SeenAll(lines, Brackets), l, p) == Offset(lines, l, p)
  {
    assert SeenAll(lines, Brackets)[..l] == SeenAll(lines[..l], Brackets);
    SeenFlatten(lines[..l]);
  }

  /** Splitting the same text into lines differently does not change which bracket is matched. */
  lemma SplitInvariance(lines: seq<string>, l: nat, p: nat, lines': seq<string>, l': nat, p': nat)
    requires l < |lines| && p < |lines[l]| && IsOpen(lines[l][p])
    requires l' < |lines'| && p' < |lines'[l']| && IsOpen(lines'[l'][p'])
    requires Flatten(lines) == Flatten(lines') && Offset(lines, l, p) == Offset(lines', l', p')
    ensures var r, r' := Close(lines, l, p), Close(lines', l', p');
            && (r.At? <==> r'.At?)
            && (r.At? ==> r.line < |lines| && r'.line < |lines'|
                          && Offset(lines, r.line, r.pos) == Offset(lines', r'.line, r'.pos))
  {
    hide Close, Forward, Seen, Offset, SeenAt;
    var r, r' := Close(lines, l, p), Close(lines', l', p');
    SplitStep(lines, l, p);
    SplitStep(lines', l', p');
  }

  /** Where a bracket leads depends on the unsplit text and the offset only. */
  lemma SplitStep(lines: seq<string>, l: nat, p: nat)
    requires l < |lines| && p < |lines[l]| && IsOpen(lines[l][p])
    ensures var r := Close(lines, l, p);
            && Offset(lines, l, p) <= |Seen(Flatten(lines), Brackets)|
            && var flat := Forward(Seen(Flatten(lines), Brackets), Offset(lines, l, p), []);
               if r.At? then r.line < |lines| && 0 < r.pos <= |lines[r.line]| && flat == Found(Offset(lines, r.line, r.pos))
               else !flat.Found?
  {
    hide Close, Forward, Seen, Offset;
    var r := Close(lines, l, p);
    CloseIsFlat(lines, l, p, Brackets);
    SeenFlatten(lines);
    SeenOffset(lines, l, p);
    if r.At? {
      SeenOffset(lines, r.line, r.pos);
    }
  }

  // ----- < as the opening bracket -----

  /** The expression opened at this position, if it has an end, has a way back from that end. */
  ghost predicate WayBack(lines: seq<string>, l: nat, p: nat)
    requires l < |lines| && p < |lines[l]|
  {
    match Close(lines, l, p)
    case NotFound => true
    case At(l', e) => l' < |lines| && 0 < e <= |lines[l']| && ReverseClose(lines, l', e - 1) == At(l, p)
  }

  /** On regular lines every < has a way back. */
  lemma TemplateWayBack(lines: seq<string>, l: nat, p: nat)
    requires AllRegular(lines) && l < |lines| && p < |lines[l]| && lines[l][p] == '<'
    ensures WayBack(lines, l, p)
  {
    hide ReverseClose;
    if Close(lines, l, p).At? {
      assert Starts(lines, l, p, Templates);
      SeenWayBack(lines, l, p, Templates);
    }
  }

  /** Each surprise that a regular line excludes can take the way back away. */
  lemma AngleHasNoWayBack()
    ensures !WayBack(["< >= "], 0, 0)
    ensures !WayBack(["<<()"], 0, 1)
    ensures !WayBack(["operator<()"], 0, 8)
    ensures !WayBack(["<operator>"], 0, 0)
    ensures !WayBack(["<operator=>>"], 0, 0)
  {
    hide Close, ReverseClose;
    SpacedWitness("< >= ");
    ShiftWitness("<<()");
    OperatorLessWitness("operator<()");
    OperatorGreaterWitness("<operator>");
    OperatorOtherWitness("<operator=>>");
  }

  ghost predicate PlainBetween(line: string, i: nat, j: nat) {
    i <= j <= |line| && forall k :: i <= k < j ==> !IsOpener(line[k]) && !IsCloser(line[k]) && line[k] != ';'
  }

  lemma {:induction false} PlainForward(line: string, i: nat, j: nat, stack: string)
    requires PlainBetween(line, i, j)
    ensures EndInLine(line, i, stack) == EndInLine(line, j, stack)
    decreases j - i
  {
    if i < j {
      EndOtherStep(line, i, stack);
      PlainForward(line, i + 1, j, stack);
    }
  }

  lemma {:induction false} PlainBackward(line: string, i: nat, j: nat, stack: string)
    requires PlainBetween(line, i, j)
    ensures StartInLine(line, j - 1, stack) == StartInLine(line, i - 1, stack)
    decreases j - i
  {
    if i < j {
      StartOtherStep(line, j - 1, stack);
      PlainBackward(line, i, j - 1, stack);
    }
  }

  /** A text is not the word `operator` if it is too short or ends otherwise. */
  lemma NoOperator(s: string)
    requires |s| < 8 || (!IsSpace(s[|s| - 1]) && s[|s| - 1] != 'r')
    ensures !EndsWithOperator(s)
  {
    var t := TrimRight(s);
    if |t| >= 8 {
      assert t[|t| - 8..][7] == t[|t| - 1];
    }
  }

  lemma IsOperator(pre: string, s: string)
    requires s == pre + "operator" && (pre == "" || pre == "<")
    ensures EndsWithOperator(s)
  {
    assert s[|s| - 1] == "operator"[7] == 'r' && !IsSpace('r');
    assert s[|s| - 8..] == "operator";
  }

  lemma SpacedWitness(line: string)
    requires line == "< >= "
    ensures Close([line], 0, 0) == At(0, 3) && ReverseClose([line], 0, 2) == NotFound
  {
    hide EndsWithOperator;
    NoOperator(line[..1]);
    assert [] + ['<'] == ['<'];
    assert EndInLine(line, 0, []) == EndInLine(line, 1, ['<']);
    assert EndInLine(line, 1, ['<']) == EndInLine(line, 2, ['<']);
    assert EndInLine(line, 2, ['<']) == Found(3);
    assert StartInLine(line, 2, []) == StartInLine(line, 0, []);
    assert StartInLine(line, 0, []) == Open([]);
  }

  /** An empty pair of parentheses, and a < before it that the forward scan leaves out. */
  lemma PairAfterLess(line: string, i: nat)
    requires i + 3 == |line| && line[i] == '<' && line[i + 1] == '(' && line[i + 2] == ')'
    requires i > 0 && (line[i - 1] == '<' || EndsWithOperator(line[..i]))
    ensures Close([line], 0, i) == At(0, i + 3) && ReverseClose([line], 0, i + 2) == At(0, i + 1)
  {
    hide EndsWithOperator;
    assert [] + ['('] == ['('] && [] + [')'] == [')'];
    assert EndInLine(line, i, []) == EndInLine(line, i + 1, []);
    assert EndInLine(line, i + 1, []) == EndInLine(line, i + 2, ['(']);
    assert EndInLine(line, i + 2, ['(']) == Found(i + 3);
    assert StartInLine(line, i + 2, []) == StartInLine(line, i + 1, [')']);
    assert StartInLine(line, i + 1, [')']) == Found(i + 1);
  }

  lemma ShiftWitness(line: string)
    requires line == "<<()"
    ensures Close([line], 0, 1) == At(0, 4) && ReverseClose([line], 0, 3) == At(0, 2)
  {
    hide *;
    PairAfterLess(line, 1);
  }

  lemma OperatorLessWitness(line: string)
    requires line == "operator<()"
    ensures Close([line], 0, 8) == At(0, 11) && ReverseClose([line], 0, 10) == At(0, 9)
  {
    hide *;
    assert line[..8] == "" + "operator";
    IsOperator("", line[..8]);
    PairAfterLess(line, 8);
  }

  lemma OperatorGreaterWitness(line: string)
    requires line == "<operator>"
    ensures Close([line], 0, 0) == At(0, 10) && ReverseClose([line], 0, 9) == NotFound
  {
    hide EndsWithOperator;
    assert line[..9] == "<" + "operator";
    IsOperator("<", line[..9]);
    NoOperator(line[..8]);
    assert [] + ['<'] == ['<'];
    assert EndInLine(line, 0, []) == EndInLine(line, 1, ['<']);
    PlainForward(line, 1, 9, ['<']);
    assert EndInLine(line, 9, ['<']) == Found(10);
    assert StartInLine(line, 9, []) == StartInLine(line, 7, []);
    PlainBackward(line, 1, 8, []);
    assert StartInLine(line, 0, []) == Open([]);
  }

  lemma OperatorOtherWitness(line: string)
    requires line == "<operator=>>"
    ensures Close([line], 0, 0) == At(0, 12) && ReverseClose([line], 0, 11) == NotFound
  {
    hide EndInLine, StartInLine;
    OperatorOtherForward(line);
    OperatorOtherBackward(line);
  }

  lemma OperatorOtherForward(line: string)
    requires line == "<operator=>>"
    ensures EndInLine(line, 0, []) == Found(12)
  {
    hide EndsWithOperator;
    assert line[..9] == "<" + "operator";
    IsOperator("<", line[..9]);
    NoOperator(line[..10]);
    assert [] + ['<'] == ['<'];
    assert EndInLine(line, 0, []) == EndInLine(line, 1, ['<']);
    PlainForward(line, 1, 10, ['<']);
    assert EndInLine(line, 10, ['<']) == EndInLine(line, 11, ['<']);
    assert EndInLine(line, 11, ['<']) == Found(12);
  }

  lemma OperatorOtherBackward(line: string)
    requires line == "<operator=>>"
    ensures StartInLine(line, 11, []) == Open(['>'])
  {
    hide EndsWithOperator, StartInLine;
    NoOperator(line[..10]);
    NoOperator(line[..11]);
    assert [] + ['>'] == ['>'] && ['>'] + ['>'] == ['>', '>'];
    PushGreater(line, 11, []);
    PushGreater(line, 10, ['>']);
    PlainBackward(line, 1, 10, ['>', '>']);
    LastLess(line);
  }

  lemma PushGreater(line: string, i: nat, stack: string)
    requires i < |line| && line[i] == '>' && !Skips(line, i)
    ensures StartInLine(line, i, stack) == StartInLine(line, i - 1, stack + ['>'])
  {
    hide EndsWithOperator;
  }

  lemma LastLess(line: string)
    requires line != [] && line[0] == '<'
    ensures StartInLine(line, 0, ['>', '>']) == Open(['>'])
  {
    assert ['>', '>'][..1] == ['>'];
  }

  /** Which kinds of bracket can be matched forward and back in every text: all but <. */
  lemma KindsWithWayBack(c: char)
    requires IsOpener(c)
    ensures (forall lines: seq<string>, l: nat, p: nat | l < |lines| && p < |lines[l]| && lines[l][p] == c
               :: WayBack(lines, l, p))
       <==> c != '<'
  {
    hide Close, ReverseClose;
    if c == '<' {
      AngleHasNoWayBack();
      assert ["< >= "][0][0] == '<';
    } else {
      forall lines: seq<string>, l: nat, p: nat | l < |lines| && p < |lines[l]| && lines[l][p] == c
        ensures WayBack(lines, l, p)
      {
        if Close(lines, l, p).At? {
          CloseThenReverse(lines, l, p);
        }
      }
    }
  }
}
