/**
 cpplint's `NestingState`: how the brace-nesting stack survives #if / #else / #endif.

 A line goes through `UpdatePreprocessor` and then through the rest of `Update`.  What that rest does to
 the stack of blocks depends only on the line and the stack; it is the parameter `rest` below, and may be
 any function.  The deep copies of the source make the saved stacks independent values.
 */
module Preprocessor {
  import opened LintText
  import opened Spaces

  datatype Line = Line(number: nat, text: string)

  datatype Directive = If | Else | Endif | Other

  function SkipSpaces(s: string): (t: string)
    ensures |t| <= |s| && t == s[|s| - |t|..]
    ensures t == [] || !IsSpace(t[0])
  {
    if s != [] && IsSpace(s[0]) then SkipSpaces(s[1..]) else s
  }

  /** The text starts with the word `w`, and the word ends there. */
  predicate StartsWithWord(s: string, w: string) {
    w <= s && (|s| == |w| || !IsWordChar(s[|w|]))
  }

  /** The regular expressions ^\s*#\s*(if|ifdef|ifndef)\b, ^\s*#\s*(else|elif)\b and ^\s*#\s*endif\b. */
  function Classify(text: string): (d: Directive) {
    var s := SkipSpaces(text);
    if s == [] || s[0] != '#' then Other
    else
      var t := SkipSpaces(s[1..]);
      if StartsWithWord(t, "if") || StartsWithWord(t, "ifdef") || StartsWithWord(t, "ifndef") then If
      else if StartsWithWord(t, "else") || StartsWithWord(t, "elif") then Else
      else if StartsWithWord(t, "endif") then Endif
      else Other
  }

  /** What a directive word means. */
  function WordKind(word: string): (d: Directive) {
    if word == "if" || word == "ifdef" || word == "ifndef" then If
    else if word == "else" || word == "elif" then Else
    else if word == "endif" then Endif
    else Other
  }

  ghost predicate AllSpaces(s: string) { forall i :: 0 <= i < |s| ==> IsSpace(s[i]) }

  ghost predicate AllWordChars(s: string) { forall i :: 0 <= i < |s| ==> IsWordChar(s[i]) }

  lemma {:induction false} SkipAllSpaces(pre: string, s: string)
    requires AllSpaces(pre) && (s == [] || !IsSpace(s[0]))
    ensures SkipSpaces(pre + s) == s
  {
    if pre == [] {
      assert pre + s == s;
    } else {
      assert (pre + s)[1..] == pre[1..] + s;
      SkipAllSpaces(pre[1..], s);
    }
  }

  /** A word that cannot be extended is matched by itself only. */
  lemma WholeWord(word: string, tail: string, w: string)
    requires AllWordChars(word) && AllWordChars(w) && (tail == [] || !IsWordChar(tail[0]))
    ensures StartsWithWord(word + tail, w) <==> word == w
  {
    var s := word + tail;
    if word == w {
      assert s[..|w|] == w;
    } else if |w| > |word| {
      LongerWord(word, tail, w);
    } else if w <= s {
      assert w == s[..|w|] == word[..|w|];
      assert |w| < |word| ==> s[|w|] == word[|w|];
    }
  }

  lemma LongerWord(word: string, tail: string, w: string)
    requires AllWordChars(w) && |w| > |word| && (tail == [] || !IsWordChar(tail[0]))
    ensures !(w <= word + tail)
  {
    assert IsWordChar(w[|word|]);
    if tail != [] {
      assert (word + tail)[|word|] == tail[0];
    }
  }

  lemma DirectiveWords(word: string, tail: string)
    requires AllWordChars(word) && (tail == [] || !IsWordChar(tail[0]))
    ensures StartsWithWord(word + tail, "if") <==> word == "if"
    ensures StartsWithWord(word + tail, "ifdef") <==> word == "ifdef"
    ensures StartsWithWord(word + tail, "ifndef") <==> word == "ifndef"
    ensures StartsWithWord(word + tail, "else") <==> word == "else"
    ensures StartsWithWord(word + tail, "elif") <==> word == "elif"
    ensures StartsWithWord(word + tail, "endif") <==> word == "endif"
  {
    hide StartsWithWord;
    WholeWord(word, tail, "if");
    WholeWord(word, tail, "ifdef");
    WholeWord(word, tail, "ifndef");
    WholeWord(word, tail, "else");
    WholeWord(word, tail, "elif");
    WholeWord(word, tail, "endif");
  }

  lemma HeadOf(word: string, tail: string)
    requires AllWordChars(word) && (word == [] ==> tail == [] || !IsSpace(tail[0]))
    ensures word + tail == [] || !IsSpace((word + tail)[0])
  {
  }

  /** A line that starts with # is classified by the word after it, whatever spaces surround the #. */
  lemma ClassifyWord(pre: string, mid: string, word: string, tail: string)
    requires AllSpaces(pre) && AllSpaces(mid) && AllWordChars(word)
    requires tail == [] || !IsWordChar(tail[0])
    requires word == [] ==> tail == [] || !IsSpace(tail[0])
    ensures Classify(pre + ("#" + (mid + (word + tail)))) == WordKind(word)
  {
    var t := word + tail;
    var s := "#" + (mid + t);
    assert s[0] == '#' && !IsSpace('#') && s[1..] == mid + t;
    hide StartsWithWord, SkipSpaces, AllSpaces, AllWordChars, IsSpace, IsWordChar;
    SkipAllSpaces(pre, s);
    HeadOf(word, tail);
    SkipAllSpaces(mid, t);
    DirectiveWords(word, tail);
  }

  /** Any other line is not a directive. */
  lemma ClassifyOther(pre: string, s: string)
    requires AllSpaces(pre) && (s == [] || (!IsSpace(s[0]) && s[0] != '#'))
    ensures Classify(pre + s) == Other
  {
    SkipAllSpaces(pre, s);
  }

  /** The spaces at the start of a text. */
  lemma {:induction false} LeadingSpaces(s: string)
    ensures AllSpaces(s[..|s| - |SkipSpaces(s)|])
  {
    if s != [] && IsSpace(s[0]) {
      LeadingSpaces(s[1..]);
      var n := |s| - |SkipSpaces(s)|;
      assert s[..n] == [s[0]] + s[1..][..n - 1];
    }
  }

  /** The longest word at the start of a text. */
  function FirstWord(s: string): (w: string)
    ensures w <= s && AllWordChars(w) && (|w| == |s| || !IsWordChar(s[|w|]))
  {
    if s != [] && IsWordChar(s[0]) then [s[0]] + FirstWord(s[1..]) else []
  }

  /** Every line: what makes it each kind of directive. */
  lemma ClassifyExactly(line: string)
    ensures var s := SkipSpaces(line);
            var sign, word := s != [] && s[0] == '#', FirstWord(if s == [] then [] else SkipSpaces(s[1..]));
            && (Classify(line) == If <==> sign && (word == "if" || word == "ifdef" || word == "ifndef"))
            && (Classify(line) == Else <==> sign && (word == "else" || word == "elif"))
            && (Classify(line) == Endif <==> sign && word == "endif")
  {
    hide Classify, SkipSpaces, FirstWord;
    ClassifyLine(line);
    WordKinds(if SkipSpaces(line) == [] then [] else FirstWord(SkipSpaces(SkipSpaces(line)[1..])));
  }

  lemma WordKinds(word: string)
    ensures WordKind(word) == If <==> word == "if" || word == "ifdef" || word == "ifndef"
    ensures WordKind(word) == Else <==> word == "else" || word == "elif"
    ensures WordKind(word) == Endif <==> word == "endif"
  {
    assert |"if"| == 2 && |"ifdef"| == 5 && |"ifndef"| == 6 && |"else"| == 4 && |"elif"| == 4 && |"endif"| == 5;
    assert "else"[1] == 'l' && "elif"[1] == 'l' && "else"[2] == 's' && "elif"[2] == 'i';
    assert "ifdef"[0] == 'i' && "endif"[0] == 'e';
  }

  /** Every line: no directive, unless its first character that is no space is #; then the next word decides. */
  lemma ClassifyLine(line: string)
    ensures var s := SkipSpaces(line);
            Classify(line) == if s == [] || s[0] != '#' then Other else WordKind(FirstWord(SkipSpaces(s[1..])))
  {
    hide Classify, SkipSpaces, FirstWord, WordKind, AllSpaces, AllWordChars, IsSpace, IsWordChar;
    var s := SkipSpaces(line);
    LeadingSpaces(line);
    assert line == line[..|line| - |s|] + s;
    if s == [] || s[0] != '#' {
      ClassifyOther(line[..|line| - |s|], s);
    } else {
      LeadingSpaces(s[1..]);
      DirectiveLine(line[..|line| - |s|], s, SkipSpaces(s[1..]));
    }
  }

  lemma DirectiveLine(pre: string, s: string, t: string)
    requires AllSpaces(pre) && s != [] && s[0] == '#'
    requires |t| < |s| && t == s[|s| - |t|..] && AllSpaces(s[1..][..|s| - 1 - |t|]) && (t == [] || !IsSpace(t[0]))
    ensures Classify(pre + s) == WordKind(FirstWord(t))
  {
    hide Classify, FirstWord, WordKind, AllSpaces, AllWordChars, IsSpace, IsWordChar;
    var mid, word := s[1..][..|s| - 1 - |t|], FirstWord(t);
    SplitWord(t, word);
    SplitLine(s, t);
    ClassifyWord(pre, mid, word, t[|word|..]);
  }

  lemma SplitWord(t: string, word: string)
    requires word <= t
    ensures t == word + t[|word|..]
  {
  }

  lemma SplitLine(s: string, t: string)
    requires |t| < |s| && t == s[|s| - |t|..] && s[0] == '#'
    ensures s == "#" + (s[1..][..|s| - 1 - |t|] + t)
  {
    assert s == [s[0]] + s[1..] && s[1..] == s[1..][..|s| - 1 - |t|] + t;
  }

  type Kind = string -> Directive

  /** `_PreprocessorInfo` */
  datatype Info<B> = Info(beforeIf: seq<B>, beforeElse: seq<B>, seenElse: bool)

  datatype State<B> = State(stack: seq<B>, pp: seq<Info<B>>)

  /**
   What the nesting state depends on: which lines are directives, and what the rest of `Update` does.
   The lemmas hold for every classification of lines; cpplint's own is `Classify`.
   */
  datatype Lint<!B> = Lint(kind: Kind, rest: (Line, seq<B>) -> seq<B>)

  function PpStep<B>(d: Directive, s: State<B>): (t: State<B>) {
    match d
    case If => s.(pp := s.pp + [Info(s.stack, [], false)])
    case Else =>
      if s.pp == [] then s
      else
        var top := s.pp[|s.pp| - 1];
        var top' := if top.seenElse then top else top.(seenElse := true, beforeElse := s.stack);
        State(top.beforeIf, s.pp[|s.pp| - 1 := top'])
    case Endif =>
      if s.pp == [] then s
      else
        var top := s.pp[|s.pp| - 1];
        State(if top.seenElse then top.beforeElse else s.stack, s.pp[..|s.pp| - 1])
    case Other => s
  }

  function Step<B>(lint: Lint<B>, line: Line, s: State<B>): (t: State<B>) {
    var t := PpStep(lint.kind(line.text), s);
    t.(stack := lint.rest(line, t.stack))
  }

  function Run<B>(lint: Lint<B>, lines: seq<Line>, s: State<B>): (t: State<B>)
    decreases |lines|
  {
    if lines == [] then s else Run(lint, lines[1..], Step(lint, lines[0], s))
  }

  /** The same lines with no preprocessor at all. */
  function RunPlain<B>(lint: Lint<B>, lines: seq<Line>, stack: seq<B>): (t: seq<B>)
    decreases |lines|
  {
    if lines == [] then stack else RunPlain(lint, lines[1..], lint.rest(lines[0], stack))
  }

  /** The object of the source; its methods rewrite `stack` and `ppStack`. */
  class NestingState<B(0)> {
    var stack: seq<B>
    var ppStack: seq<Info<B>>

    function View(): (s: State<B>)
      reads this
    {
      State(stack, ppStack)
    }

    constructor ()
      ensures View() == State([], [])
    {
      stack, ppStack := [], [];
    }

    method UpdatePreprocessor(line: string)
      modifies this
      ensures View() == PpStep(Classify(line), old(View()))
    {
      Apply(Classify(line));
    }

    /** The three branches of `UpdatePreprocessor`. */
    method Apply(d: Directive)
      modifies this
      ensures View() == PpStep(d, old(View()))
    {
      if d.If? {
        ppStack := ppStack + [Info(stack, [], false)];
      } else if d.Else? {
        if ppStack != [] {
          var top := |ppStack| - 1;
          if !ppStack[top].seenElse {
            ppStack := ppStack[top := ppStack[top].(seenElse := true, beforeElse := stack)];
          }
          stack := ppStack[top].beforeIf;
        }
      } else if d.Endif? {
        if ppStack != [] {
          var top := ppStack[|ppStack| - 1];
          if top.seenElse {
            stack := top.beforeElse;
          }
          ppStack := ppStack[..|ppStack| - 1];
        }
      }
    }

    method Update(line: Line, rest: (Line, seq<B>) -> seq<B>)
      modifies this
      ensures View() == Step(Lint(Classify, rest), line, old(View()))
    {
      UpdatePreprocessor(line.text);
      stack := rest(line, stack);
    }

    /** A whole file: if no #else branch is left open, the stack is the one of the kept lines alone. */
    method UpdateAll(lines: seq<Line>, rest: (Line, seq<B>) -> seq<B>)
      modifies this
      ensures View() == Run(Lint(Classify, rest), lines, old(View()))
      ensures old(ppStack) == [] && AllFalse(Flags(ppStack))
          ==> stack == RunPlain(Lint(Classify, rest), Scan(Classify, lines, []).kept, old(stack))
    {
      ghost var s0, lint := View(), Lint(Classify, rest);
      for i := 0 to |lines|
        invariant Run(lint, lines[i..], View()) == Run(lint, lines, s0)
      {
        assert lines[i..][0] == lines[i] && lines[i..][1..] == lines[i + 1..];
        Update(lines[i], rest);
      }
      if s0.pp == [] {
        Erasure(lint, lines, s0, s0.stack);
      }
    }
  }

  // ----- which lines count: those inside no #else branch -----

  function Flags<B>(pp: seq<Info<B>>): (f: seq<bool>)
    ensures |f| == |pp| && forall i :: 0 <= i < |pp| ==> f[i] == pp[i].seenElse
  {
    seq(|pp|, i requires 0 <= i < |pp| => pp[i].seenElse)
  }

  predicate AllFalse(flags: seq<bool>) { forall i :: 0 <= i < |flags| ==> !flags[i] }

  /** For each open conditional, whether its first branch is over. */
  function NextFlags(d: Directive, flags: seq<bool>): (f: seq<bool>) {
    match d
    case If => flags + [false]
    case Else => if flags == [] then [] else flags[|flags| - 1 := true]
    case Endif => if flags == [] then [] else flags[..|flags| - 1]
    case Other => flags
  }

  datatype Scanned = Scanned(kept: seq<Line>, flags: seq<bool>)

  /** The lines that are in the first branch of every conditional around them. */
  function Scan(kind: Kind, lines: seq<Line>, flags: seq<bool>): (r: Scanned)
    decreases |lines|
  {
    if lines == [] then Scanned([], flags)
    else
      var f := NextFlags(kind(lines[0].text), flags);
      var r := Scan(kind, lines[1..], f);
      if AllFalse(f) then Scanned([lines[0]] + r.kept, r.flags) else r
  }

  /** The stack of the kept lines: the current one, or the one saved at the outermost open #else. */
  function Saved<B>(s: State<B>): (stack: seq<B>) {
    SavedIn(s.pp, s.stack)
  }

  function SavedIn<B>(pp: seq<Info<B>>, stack: seq<B>): (r: seq<B>) {
    if pp == [] then stack else if pp[0].seenElse then pp[0].beforeElse else SavedIn(pp[1..], stack)
  }

  lemma {:induction false} SavedInAllFalse<B>(pp: seq<Info<B>>, stack: seq<B>)
    ensures AllFalse(Flags(pp)) ==> SavedIn(pp, stack) == stack
  {
    if pp != [] {
      SavedInAllFalse(pp[1..], stack);
      assert forall i :: 0 <= i < |pp| - 1 ==> Flags(pp[1..])[i] == Flags(pp)[i + 1];
    }
  }

  /** Only the outermost finished first branch matters. */
  lemma {:induction false} SavedInSnoc<B>(pp: seq<Info<B>>, top: Info<B>, stack: seq<B>)
    ensures SavedIn(pp + [top], stack) == SavedIn(pp, if top.seenElse then top.beforeElse else stack)
  {
    if pp == [] {
      assert pp + [top] == [top];
    } else {
      assert (pp + [top])[1..] == pp[1..] + [top];
      SavedInSnoc(pp[1..], top, stack);
    }
  }

  /** Once a first branch is over, the current stack is not looked at. */
  lemma {:induction false} SavedInSkipping<B>(pp: seq<Info<B>>, stack: seq<B>, stack': seq<B>)
    requires !AllFalse(Flags(pp))
    ensures SavedIn(pp, stack) == SavedIn(pp, stack')
  {
    var k :| 0 <= k < |pp| && Flags(pp)[k];
    if !pp[0].seenElse {
      assert Flags(pp[1..])[k - 1];
      SavedInSkipping(pp[1..], stack, stack');
    }
  }

  lemma FlagsStep<B>(d: Directive, s: State<B>)
    ensures Flags(PpStep(d, s).pp) == NextFlags(d, Flags(s.pp))
  {
  }

  /** The directive itself never loses the saved stack. */
  lemma SavedStep<B>(d: Directive, s: State<B>)
    ensures Saved(PpStep(d, s)) == Saved(s)
  {
    if d.If? {
      SavedInSnoc(s.pp, Info(s.stack, [], false), s.stack);
    } else if s.pp != [] && (d.Else? || d.Endif?) {
      var below, top := s.pp[..|s.pp| - 1], s.pp[|s.pp| - 1];
      assert s.pp == below + [top];
      SavedInSnoc(below, top, s.stack);
      if d.Else? {
        var top' := if top.seenElse then top else top.(seenElse := true, beforeElse := s.stack);
        assert PpStep(d, s).pp == below + [top'];
        SavedInSnoc(below, top', top.beforeIf);
      }
    }
  }

  /** A line moves the saved stack exactly when it is kept. */
  lemma LineStep<B>(lint: Lint<B>, line: Line, s: State<B>)
    ensures Saved(Step(lint, line, s))
         == if AllFalse(NextFlags(lint.kind(line.text), Flags(s.pp))) then lint.rest(line, Saved(s)) else Saved(s)
    ensures Flags(Step(lint, line, s).pp) == NextFlags(lint.kind(line.text), Flags(s.pp))
  {
    var d := lint.kind(line.text);
    var t := PpStep(d, s);
    FlagsStep(d, s);
    SavedStep(d, s);
    if AllFalse(Flags(t.pp)) {
      SavedInAllFalse(t.pp, t.stack);
      SavedInAllFalse(t.pp, lint.rest(line, t.stack));
    } else {
      SavedInSkipping(t.pp, t.stack, lint.rest(line, t.stack));
    }
  }

  lemma {:induction false} SavedRun<B>(lint: Lint<B>, lines: seq<Line>, s: State<B>)
    ensures Saved(Run(lint, lines, s)) == RunPlain(lint, Scan(lint.kind, lines, Flags(s.pp)).kept, Saved(s))
    ensures Flags(Run(lint, lines, s).pp) == Scan(lint.kind, lines, Flags(s.pp)).flags
    decreases |lines|
  {
    if lines != [] {
      var f := NextFlags(lint.kind(lines[0].text), Flags(s.pp));
      LineStep(lint, lines[0], s);
      SavedRun(lint, lines[1..], Step(lint, lines[0], s));
      if AllFalse(f) {
        var kept := Scan(lint.kind, lines[1..], f).kept;
        assert ([lines[0]] + kept)[0] == lines[0] && ([lines[0]] + kept)[1..] == kept;
      }
    }
  }

  /**
   For every sequence of lines, nested well or not: if no #else branch is open at the end, the nesting
   stack is the one that the kept lines alone produce, without any preprocessor.
   */
  lemma Erasure<B>(lint: Lint<B>, lines: seq<Line>, s: State<B>, stack: seq<B>)
    requires s == State(stack, [])
    ensures var t := Run(lint, lines, s);
            AllFalse(Flags(t.pp)) ==> t.stack == RunPlain(lint, Scan(lint.kind, lines, []).kept, stack)
  {
    var t := Run(lint, lines, s);
    assert Flags(s.pp) == [];
    SavedRun(lint, lines, s);
    SavedInAllFalse(t.pp, t.stack);
  }

  // ----- well-nested code -----

  datatype Code =
    | Nothing
    | Plain(line: Line, next: Code)
    | Conditional(ifLine: Line, first: Code, others: Branches, endifLine: Line, next: Code)

  datatype Branches = NoBranch | Branch(elseLine: Line, body: Code, more: Branches)

  ghost predicate WellFormed(kind: Kind, c: Code) {
    match c
    case Nothing => true
    case Plain(line, next) => kind(line.text) == Other && WellFormed(kind, next)
    case Conditional(i, first, others, e, next) =>
      && kind(i.text) == If && kind(e.text) == Endif
      && WellFormed(kind, first) && WellFormedBranches(kind, others) && WellFormed(kind, next)
  }

  ghost predicate WellFormedBranches(kind: Kind, b: Branches) {
    match b
    case NoBranch => true
    case Branch(e, body, more) => kind(e.text) == Else && WellFormed(kind, body) && WellFormedBranches(kind, more)
  }

  function Text(c: Code): (lines: seq<Line>) {
    match c
    case Nothing => []
    case Plain(line, next) => [line] + Text(next)
    case Conditional(i, first, others, e, next) => [i] + (Text(first) + (BranchText(others) + ([e] + Text(next))))
  }

  function BranchText(b: Branches): (lines: seq<Line>) {
    match b
    case NoBranch => []
    case Branch(e, body, more) => [e] + (Text(body) + BranchText(more))
  }

  /** The code with every conditional replaced by its first branch. */
  function FirstBranches(c: Code): (lines: seq<Line>) {
    match c
    case Nothing => []
    case Plain(line, next) => [line] + FirstBranches(next)
    case Conditional(i, first, others, e, next) => [i] + (FirstBranches(first) + ([e] + FirstBranches(next)))
  }

  function Prepend(kept: seq<Line>, r: Scanned): (t: Scanned) { Scanned(kept + r.kept, r.flags) }

  lemma ScanCons(kind: Kind, line: Line, tail: seq<Line>, flags: seq<bool>)
    ensures var f := NextFlags(kind(line.text), flags);
            Scan(kind, [line] + tail, flags) == Prepend(if AllFalse(f) then [line] else [], Scan(kind, tail, f))
  {
    assert ([line] + tail)[1..] == tail;
    var kept := Scan(kind, tail, NextFlags(kind(line.text), flags)).kept;
    assert [] + kept == kept;
  }

  lemma PrependTwice(a: seq<Line>, b: seq<Line>, r: Scanned)
    ensures Prepend(a, Prepend(b, r)) == Prepend(a + b, r)
  {
    assert a + (b + r.kept) == a + b + r.kept;
  }

  lemma {:induction false} ScanCode(kind: Kind, c: Code, tail: seq<Line>, flags: seq<bool>)
    requires WellFormed(kind, c)
    ensures Scan(kind, Text(c) + tail, flags)
         == Prepend(if AllFalse(flags) then FirstBranches(c) else [], Scan(kind, tail, flags))
    decreases c
  {
    match c
    case Nothing =>
      assert [] + tail == tail;
      assert [] + Scan(kind, tail, flags).kept == Scan(kind, tail, flags).kept;
    case Plain(line, next) =>
      assert Text(c) + tail == [line] + (Text(next) + tail);
      ScanCons(kind, line, Text(next) + tail, flags);
      ScanCode(kind, next, tail, flags);
      PrependTwice(if AllFalse(flags) then [line] else [], if AllFalse(flags) then FirstBranches(next) else [],
                   Scan(kind, tail, flags));
      assert [] + FirstBranches(Nothing) == [];
    case Conditional(i, first, others, e, next) =>
      ScanConditional(kind, i, first, others, e, next, tail, flags);
  }

  lemma {:induction false} ScanConditional(kind: Kind, i: Line, first: Code, others: Branches, e: Line, next: Code,
                                           tail: seq<Line>, flags: seq<bool>)
    requires WellFormed(kind, Conditional(i, first, others, e, next))
    ensures Scan(kind, Text(Conditional(i, first, others, e, next)) + tail, flags)
         == Prepend(if AllFalse(flags) then FirstBranches(Conditional(i, first, others, e, next)) else [], Scan(kind, tail, flags))
    decreases Conditional(i, first, others, e, next), 0
  {
    var t3 := Text(next) + tail;
    var t2 := BranchText(others) + ([e] + t3);
    var t1 := Text(first) + t2;
    ConditionalText(i, first, others, e, next, tail);
    ScanCons(kind, i, t1, flags);
    ScanCode(kind, first, t2, flags + [false]);
    ScanBranches(kind, others, e, t3, flags, false);
    ScanCode(kind, next, tail, flags);
    AllFalseSnoc(flags);
    var r := Scan(kind, tail, flags);
    if AllFalse(flags) {
      PrependTwice([e], FirstBranches(next), r);
      PrependTwice(FirstBranches(first), [e] + FirstBranches(next), r);
      PrependTwice([i], FirstBranches(first) + ([e] + FirstBranches(next)), r);
    } else {
      assert Prepend([], r) == r by { assert [] + r.kept == r.kept; }
    }
  }

  lemma AllFalseSnoc(flags: seq<bool>)
    ensures AllFalse(flags + [false]) == AllFalse(flags)
  {
    if AllFalse(flags + [false]) {
      assert forall k :: 0 <= k < |flags| ==> flags[k] == (flags + [false])[k];
    }
  }

  lemma ConditionalText(i: Line, first: Code, others: Branches, e: Line, next: Code, tail: seq<Line>)
    ensures Text(Conditional(i, first, others, e, next)) + tail
         == [i] + (Text(first) + (BranchText(others) + ([e] + (Text(next) + tail))))
  {
  }

  /** Everything from the first #else on is dropped; the #endif is kept if what surrounds it is. */
  lemma {:induction false} ScanBranches(kind: Kind, b: Branches, e: Line, tail: seq<Line>, flags: seq<bool>, seen: bool)
    requires WellFormedBranches(kind, b) && kind(e.text) == Endif
    ensures Scan(kind, BranchText(b) + ([e] + tail), flags + [seen])
         == Prepend(if AllFalse(flags) then [e] else [], Scan(kind, tail, flags))
    decreases b
  {
    match b
    case NoBranch =>
      assert [] + ([e] + tail) == [e] + tail;
      ScanCons(kind, e, tail, flags + [seen]);
      assert (flags + [seen])[..|flags|] == flags;
    case Branch(l, body, more) =>
      var t := BranchText(more) + ([e] + tail);
      assert BranchText(b) + ([e] + tail) == [l] + (Text(body) + t);
      ScanCons(kind, l, Text(body) + t, flags + [seen]);
      assert (flags + [seen])[|flags| := true] == flags + [true];
      assert (flags + [true])[|flags|];
      ScanCode(kind, body, t, flags + [true]);
      ScanBranches(kind, more, e, tail, flags, true);
      var r := Scan(kind, t, flags + [true]);
      assert [] + r.kept == r.kept;
  }

  // ----- the state inside a conditional -----

  lemma {:induction false} RunAppend<B>(lint: Lint<B>, a: seq<Line>, b: seq<Line>, s: State<B>)
    ensures Run(lint, a + b, s) == Run(lint, b, Run(lint, a, s))
    decreases |a|
  {
    hide Step;
    if a == [] {
      assert a + b == b;
    } else {
      assert (a + b)[1..] == a[1..] + b;
      RunAppend(lint, a[1..], b, Step(lint, a[0], s));
    }
  }

  lemma {:induction false} PlainAppend<B>(lint: Lint<B>, a: seq<Line>, b: seq<Line>, stack: seq<B>)
    ensures RunPlain(lint, a + b, stack) == RunPlain(lint, b, RunPlain(lint, a, stack))
    decreases |a|
  {
    if a == [] {
      assert a + b == b;
    } else {
      assert (a + b)[1..] == a[1..] + b;
      PlainAppend(lint, a[1..], b, lint.rest(a[0], stack));
    }
  }

  lemma RunLine<B>(lint: Lint<B>, line: Line, rest: seq<Line>, s: State<B>)
    ensures Run(lint, [line] + rest, s) == Run(lint, rest, Step(lint, line, s))
  {
    assert ([line] + rest)[1..] == rest;
  }

  lemma PlainLine<B>(lint: Lint<B>, line: Line, rest: seq<Line>, stack: seq<B>)
    ensures RunPlain(lint, [line] + rest, stack) == RunPlain(lint, rest, lint.rest(line, stack))
  {
    assert ([line] + rest)[1..] == rest;
  }

  /** The stack at the end of the branches after the first: each starts again from the stack before the #if. */
  function LastBranch<B>(lint: Lint<B>, b: Branches, before: seq<B>, stack: seq<B>): (t: seq<B>)
    decreases b
  {
    match b
    case NoBranch => stack
    case Branch(e, body, more) => LastBranch(lint, more, before, RunPlain(lint, [e] + FirstBranches(body), before))
  }

  /** What is remembered of a conditional after these branches, if the stack was `stack` before them. */
  function Remembered<B>(info: Info<B>, b: Branches, stack: seq<B>): (r: Info<B>) {
    if b.NoBranch? || info.seenElse then info else info.(seenElse := true, beforeElse := stack)
  }

  lemma OpenIf<B>(lint: Lint<B>, i: Line, s: State<B>)
    requires lint.kind(i.text) == If
    ensures Step(lint, i, s) == State(lint.rest(i, s.stack), s.pp + [Info(s.stack, [], false)])
  {
  }

  lemma NextBranch<B>(lint: Lint<B>, e: Line, stack: seq<B>, below: seq<Info<B>>, info: Info<B>)
    requires lint.kind(e.text) == Else
    ensures Step(lint, e, State(stack, below + [info]))
         == State(lint.rest(e, info.beforeIf),
                  below + [if info.seenElse then info else info.(seenElse := true, beforeElse := stack)])
  {
    var top := if info.seenElse then info else info.(seenElse := true, beforeElse := stack);
    assert (below + [info])[|below| := top] == below + [top];
  }

  lemma CloseIf<B>(lint: Lint<B>, e: Line, stack: seq<B>, below: seq<Info<B>>, info: Info<B>)
    requires lint.kind(e.text) == Endif
    ensures Step(lint, e, State(stack, below + [info]))
         == State(lint.rest(e, if info.seenElse then info.beforeElse else stack), below)
  {
    assert (below + [info])[..|below|] == below;
  }

  /** Well-nested code in any surroundings. */
  lemma {:induction false} CodeRun<B>(lint: Lint<B>, c: Code, s: State<B>)
    requires WellFormed(lint.kind, c)
    ensures Run(lint, Text(c), s) == State(RunPlain(lint, FirstBranches(c), s.stack), s.pp)
    decreases c, 1
  {
    hide Step;
    match c
    case Nothing =>
    case Plain(line, next) =>
      assert Step(lint, line, s) == State(lint.rest(line, s.stack), s.pp) by { OtherLine(lint, line, s); }
      RunLine(lint, line, Text(next), s);
      PlainLine(lint, line, FirstBranches(next), s.stack);
      CodeRun(lint, next, State(lint.rest(line, s.stack), s.pp));
    case Conditional(i, first, others, e, next) =>
      ConditionalRun(lint, i, first, others, e, next, s);
  }

  lemma OtherLine<B>(lint: Lint<B>, line: Line, s: State<B>)
    requires lint.kind(line.text) == Other
    ensures Step(lint, line, s) == State(lint.rest(line, s.stack), s.pp)
  {
  }

  lemma {:induction false} ConditionalRun<B>(lint: Lint<B>, i: Line, first: Code, others: Branches, e: Line, next: Code,
                                             s: State<B>)
    requires WellFormed(lint.kind, Conditional(i, first, others, e, next))
    ensures var c := Conditional(i, first, others, e, next);
            Run(lint, Text(c), s) == State(RunPlain(lint, FirstBranches(c), s.stack), s.pp)
    decreases Conditional(i, first, others, e, next), 0
  {
    hide Step, Run, RunPlain, Remembered, LastBranch;
    var info := Info(s.stack, [], false);
    var end := BranchText(others) + ([e] + Text(next));
    FirstRun(lint, i, first, end, s);
    var kept := RunPlain(lint, [i] + FirstBranches(first), s.stack);
    RunAppend(lint, BranchText(others), [e] + Text(next), State(kept, s.pp + [info]));
    BranchesRun(lint, others, kept, s.pp, info);
    var last, top := LastBranch(lint, others, s.stack, kept), Remembered(info, others, kept);
    RunLine(lint, e, Text(next), State(last, s.pp + [top]));
    CloseIf(lint, e, last, s.pp, top);
    RestoredIs(lint, others, kept, s.stack);
    CodeRun(lint, next, State(lint.rest(e, kept), s.pp));
    PlainParts(lint, i, FirstBranches(first), e, FirstBranches(next), s.stack);
  }

  /** After the #endif it is the stack at the end of the first branch. */
  lemma RestoredIs<B>(lint: Lint<B>, b: Branches, kept: seq<B>, before: seq<B>)
    ensures var top := Remembered(Info(before, [], false), b, kept);
            (if top.seenElse then top.beforeElse else LastBranch(lint, b, before, kept)) == kept
  {
  }

  lemma PlainParts<B>(lint: Lint<B>, i: Line, a: seq<Line>, e: Line, b: seq<Line>, stack: seq<B>)
    ensures RunPlain(lint, [i] + (a + ([e] + b)), stack)
         == RunPlain(lint, b, lint.rest(e, RunPlain(lint, [i] + a, stack)))
  {
    hide RunPlain;
    assert [i] + (a + ([e] + b)) == ([i] + a) + ([e] + b);
    PlainAppend(lint, [i] + a, [e] + b, stack);
    PlainLine(lint, e, b, RunPlain(lint, [i] + a, stack));
  }

  /** The first branch, with anything after it. */
  lemma {:induction false} FirstRun<B>(lint: Lint<B>, i: Line, first: Code, end: seq<Line>, s: State<B>)
    requires lint.kind(i.text) == If && WellFormed(lint.kind, first)
    ensures Run(lint, [i] + (Text(first) + end), s)
         == Run(lint, end, State(RunPlain(lint, [i] + FirstBranches(first), s.stack), s.pp + [Info(s.stack, [], false)]))
    decreases first, 2
  {
    hide Step, Run, RunPlain;
    RunLine(lint, i, Text(first) + end, s);
    OpenIf(lint, i, s);
    RunAppend(lint, Text(first), end, Step(lint, i, s));
    CodeRun(lint, first, Step(lint, i, s));
    PlainLine(lint, i, FirstBranches(first), s.stack);
  }

  lemma {:induction false} BranchesRun<B>(lint: Lint<B>, b: Branches, stack: seq<B>, below: seq<Info<B>>, info: Info<B>)
    requires WellFormedBranches(lint.kind, b)
    ensures Run(lint, BranchText(b), State(stack, below + [info]))
         == State(LastBranch(lint, b, info.beforeIf, stack), below + [Remembered(info, b, stack)])
    decreases b
  {
    hide Step, Run, RunPlain;
    match b
    case NoBranch => assert Run(lint, [], State(stack, below + [info])) == State(stack, below + [info]) by { RunNothing(lint, State(stack, below + [info])); }
    case Branch(e, body, more) =>
      var s := State(stack, below + [info]);
      var top := if info.seenElse then info else info.(seenElse := true, beforeElse := stack);
      RunLine(lint, e, Text(body) + BranchText(more), s);
      NextBranch(lint, e, stack, below, info);
      var begun := State(lint.rest(e, info.beforeIf), below + [top]);
      RunAppend(lint, Text(body), BranchText(more), begun);
      CodeRun(lint, body, begun);
      PlainLine(lint, e, FirstBranches(body), info.beforeIf);
      BranchesRun(lint, more, RunPlain(lint, [e] + FirstBranches(body), info.beforeIf), below, top);
  }

  lemma RunNothing<B>(lint: Lint<B>, s: State<B>)
    ensures Run(lint, [], s) == s
  {
  }

  /**
   Inside the last of any number of #else and #elif branches, at any depth: the branch was linted from the stack
   before the #if, and the stack at the end of the first branch is kept for the #endif.
   */
  lemma InsideBranch<B>(lint: Lint<B>, i: Line, first: Code, earlier: Branches, e: Line, body: Code, s: State<B>)
    requires WellFormed(lint.kind, first) && WellFormedBranches(lint.kind, earlier) && WellFormed(lint.kind, body)
    requires lint.kind(i.text) == If && lint.kind(e.text) == Else
    ensures Run(lint, [i] + (Text(first) + (BranchText(earlier) + ([e] + Text(body)))), s)
         == State(RunPlain(lint, [e] + FirstBranches(body), s.stack),
                  s.pp + [Info(s.stack, RunPlain(lint, [i] + FirstBranches(first), s.stack), true)])
  {
    hide Step, Run, RunPlain, LastBranch;
    var info, kept := Info(s.stack, [], false), RunPlain(lint, [i] + FirstBranches(first), s.stack);
    var end := BranchText(earlier) + ([e] + Text(body));
    FirstRun(lint, i, first, end, s);
    RunAppend(lint, BranchText(earlier), [e] + Text(body), State(kept, s.pp + [info]));
    BranchesRun(lint, earlier, kept, s.pp, info);
    var last, top := LastBranch(lint, earlier, s.stack, kept), Remembered(info, earlier, kept);
    assert top.beforeIf == s.stack && (top.seenElse ==> top.beforeElse == kept);
    assert !top.seenElse ==> last == kept by { NoBranchLast(lint, earlier, s.stack, kept); }
    RunLine(lint, e, Text(body), State(last, s.pp + [top]));
    NextBranch(lint, e, last, s.pp, top);
    CodeRun(lint, body, Step(lint, e, State(last, s.pp + [top])));
    PlainLine(lint, e, FirstBranches(body), s.stack);
  }

  lemma NoBranchLast<B>(lint: Lint<B>, b: Branches, before: seq<B>, stack: seq<B>)
    ensures b.NoBranch? ==> LastBranch(lint, b, before, stack) == stack
  {
  }

  /** A stray #else or #endif is an ordinary line. */
  lemma StrayDirective<B>(lint: Lint<B>, line: Line, stack: seq<B>)
    ensures !lint.kind(line.text).If? ==> Step(lint, line, State(stack, [])) == State(lint.rest(line, stack), [])
  {
  }

  /**
   Well-nested code at any depth: processing it is processing only the first branch of each conditional,
   and it leaves no conditional open.
   */
  lemma FirstBranchesOnly<B>(lint: Lint<B>, c: Code, stack: seq<B>)
    requires WellFormed(lint.kind, c)
    ensures Run(lint, Text(c), State(stack, [])) == State(RunPlain(lint, FirstBranches(c), stack), [])
  {
    CodeRun(lint, c, State(stack, []));
  }

  /** On well-nested code the kept lines are those of the first branches. */
  lemma KeptAreFirstBranches(kind: Kind, c: Code)
    requires WellFormed(kind, c)
    ensures Scan(kind, Text(c), []) == Scanned(FirstBranches(c), [])
  {
    ScanCode(kind, c, [], []);
    assert Text(c) + [] == Text(c);
    assert FirstBranches(c) + [] == FirstBranches(c);
  }
}
