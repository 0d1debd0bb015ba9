/** What `CloseExpression` and `ReverseCloseExpression` find, measured against the grammar of balanced text. */
module BracketMeaning {
  import opened LintText
  import opened FlatMatching
  import opened BalancedText
  import opened BracketMatcher

  lemma BlankedIsSame(text: string)
    ensures SameBrackets(Seen(text, Brackets), text) && SameBrackets(text, Seen(text, Brackets))
  {
  }

  /** In the text that the view sees, the scan finds what the grammar says about the text itself. */
  lemma SeenEnds(text: string, a: nat, e: nat, k: Kind)
    requires a < |text| && text[a] == OpenOf(k)
    ensures Forward(Seen(text, Brackets), a, []) == Found(e) <==> Encloses(text, a, e, k)
  {
    var seen := Seen(text, Brackets);
    assert seen[a] == OpenOf(k);
    hide Forward, Encloses, Seen, SeenAt;
    BracketEnds(seen, a, e, k);
    BlankedIsSame(text);
    EnclosesSame(seen, text, a, e, k);
    EnclosesSame(text, seen, a, e, k);
  }

  /** In any lines: from ( [ { the search ends at its own partner, after balanced text, and nowhere else. */
  lemma CloseEnds(lines: seq<string>, l: nat, p: nat, l': nat, p': nat, k: Kind)
    requires l < |lines| && p < |lines[l]| && lines[l][p] == OpenOf(k) && l' < |lines| && p' < |lines[l']|
    ensures Close(lines, l, p) == At(l', p' + 1)
       <==> Encloses(Flatten(lines), Offset(lines, l, p), Offset(lines, l', p') + 1, k)
  {
    assert IsOpen(lines[l][p]);
    assert Offset(lines, l', p' + 1) == Offset(lines, l', p') + 1;
    hide *;
    OffsetBounds(lines, l, p);
    SplitStep(lines, l, p);
    SeenEnds(Flatten(lines), Offset(lines, l, p), Offset(lines, l', p') + 1, k);
    var r := Close(lines, l, p);
    if r.At? && Offset(lines, r.line, r.pos) == Offset(lines, l', p') + 1 {
      SamePlace(lines, r.line, r.pos, l', p');
    }
  }

  lemma SamePlace(lines: seq<string>, l: nat, p: nat, l': nat, p': nat)
    requires l < |lines| && 0 < p <= |lines[l]| && l' < |lines| && p' < |lines[l']|
    requires Offset(lines, l, p) == Offset(lines, l', p') + 1
    ensures l == l' && p == p' + 1
  {
    OffsetInjective(lines, l, p - 1, l', p');
  }

  /** The search fails exactly if there is no such partner. */
  lemma CloseFails(lines: seq<string>, l: nat, p: nat, k: Kind)
    requires l < |lines| && p < |lines[l]| && lines[l][p] == OpenOf(k)
    ensures Close(lines, l, p) == NotFound
       <==> forall e: nat :: !Encloses(Flatten(lines), Offset(lines, l, p), e, k)
  {
    assert IsOpen(lines[l][p]);
    hide *;
    var text, a := Flatten(lines), Offset(lines, l, p);
    OffsetBounds(lines, l, p);
    SplitStep(lines, l, p);
    forall e: nat ensures Forward(Seen(text, Brackets), a, []) == Found(e) <==> Encloses(text, a, e, k) {
      SeenEnds(text, a, e, k);
    }
    var r := Close(lines, l, p);
    if r.At? {
      assert Encloses(text, a, Offset(lines, r.line, r.pos), k);
    }
  }

  /** The same backwards, from ) ] }. */
  lemma ReverseEnds(lines: seq<string>, l: nat, p: nat, l': nat, p': nat, k: Kind)
    requires l < |lines| && p < |lines[l]| && l' < |lines| && p' < |lines[l']| && lines[l'][p'] == CloseOf(k)
    ensures ReverseClose(lines, l', p') == At(l, p)
       <==> Encloses(Flatten(lines), Offset(lines, l, p), Offset(lines, l', p') + 1, k)
  {
    OffsetBounds(lines, l, p);
    OffsetBounds(lines, l', p');
    assert Encloses(Flatten(lines), Offset(lines, l, p), Offset(lines, l', p') + 1, k) ==> lines[l][p] == OpenOf(k);
    hide Close, ReverseClose, Encloses;
    if ReverseClose(lines, l', p') == At(l, p) {
      ReverseFindsOpener(lines, l, p, l', p');
    }
    if IsOpen(lines[l][p]) {
      var kk := KindOf(lines[l][p]);
      Duality(lines, l, p, l', p');
      CloseEnds(lines, l, p, l', p', kk);
      if Close(lines, l, p) == At(l', p' + 1) {
        EnclosesKind(Flatten(lines), Offset(lines, l, p), Offset(lines, l', p') + 1, kk);
      }
    }
  }

  lemma EnclosesKind(text: string, a: nat, e: nat, k: Kind)
    requires Encloses(text, a, e, k)
    ensures 0 < e <= |text| && text[e - 1] == CloseOf(k)
  {
  }

  lemma ReverseFindsOpener(lines: seq<string>, l: nat, p: nat, l': nat, p': nat)
    requires l < |lines| && p < |lines[l]| && l' < |lines| && p' < |lines[l']| && IsClose(lines[l'][p'])
    requires ReverseClose(lines, l', p') == At(l, p)
    ensures IsOpen(lines[l][p])
  {
    hide ReverseClose, Backward, Forward, Flatten;
    var ts := SeenAll(lines, Brackets);
    ReverseIsFlat(lines, l', p', Brackets);
    FlatBack(Flatten(ts), Offset(ts, l, p), Offset(ts, l', p') + 1);
    OffsetBounds(ts, l, p);
  }

  /** On regular lines: from < the search ends at a >, after template arguments; arrows do not count. */
  lemma TemplateEnds(lines: seq<string>, l: nat, p: nat, l': nat, p': nat)
    requires AllRegular(lines) && Starts(lines, l, p, Templates) && lines[l][p] == '<' && l' < |lines| && p' < |lines[l']|
    ensures var ts := SeenAll(lines, Templates);
            Close(lines, l, p) == At(l', p' + 1) <==>
            EnclosesArgs(Flatten(ts), Offset(ts, l, p), Offset(ts, l', p') + 1)
  {
    hide Close, Forward, EnclosesArgs, Flatten, Seen, AllRegular;
    var ts := SeenAll(lines, Templates);
    var text, a, b := Flatten(ts), Offset(ts, l, p), Offset(ts, l', p');
    CloseIsFlat(lines, l, p, Templates);
    AngleEnds(text, a, b + 1);
    var r := Close(lines, l, p);
    if r.At? && Forward(text, a, []) == Found(b + 1) {
      OffsetInjective(ts, r.line, r.pos - 1, l', p');
    }
  }

  /** Nothing is searched from any other character, from << or from <=. */
  lemma OnlyFromBrackets(lines: seq<string>, l: nat, p: nat)
    requires l < |lines| && p < |lines[l]|
    ensures lines[l][p] != '(' && lines[l][p] != '[' && lines[l][p] != '{' && lines[l][p] != '<' ==> Close(lines, l, p) == NotFound
    ensures lines[l][p] == '<' && p + 1 < |lines[l]| && (lines[l][p + 1] == '<' || lines[l][p + 1] == '=') ==>
              Close(lines, l, p) == NotFound
    ensures lines[l][p] != ')' && lines[l][p] != ']' && lines[l][p] != '}' && lines[l][p] != '>' ==>
              ReverseClose(lines, l, p) == NotFound
  {
  }

  // ----- the surprises, one by one -----

  /** What the forward scan leaves out: operator<, operator> and its like, arrows, and both characters of <<. */
  lemma ForwardLeavesOut(line: string, i: nat, stack: string)
    requires i < |line|
    ensures i > 0 && line[i] == '<' && line[i - 1] != '<' && AfterOperator(line[..i]) ==>
              EndInLine(line, i, stack) == EndInLine(line, i + 1, stack)
    ensures i > 0 && line[i] == '>' && (line[i - 1] == '-' || AfterOperator(line[..i - 1])) ==>
              EndInLine(line, i, stack) == EndInLine(line, i + 1, stack)
    ensures line[i] == '<' && i + 1 < |line| && line[i + 1] == '<' && stack != []
            && (i == 0 || (line[i - 1] != '<' && !AfterOperator(line[..i]))) ==>
              EndInLine(line, i, stack) == EndInLine(line, i + 2, stack)
  {
    hide EndsWithOperator, AfterOperator;
    if i > 0 {
      OperatorIs(line[..i]);
      OperatorIs(line[..i - 1]);
    }
    if line[i] == '<' && i + 1 < |line| && line[i + 1] == '<' && stack != []
       && (i == 0 || (line[i - 1] != '<' && !AfterOperator(line[..i])))
    {
      ShiftForward(line, i, stack);
    }
  }

  lemma ShiftForward(line: string, i: nat, stack: string)
    requires i + 1 < |line| && line[i] == '<' && line[i + 1] == '<' && stack != []
    requires i == 0 || (line[i - 1] != '<' && !EndsWithOperator(line[..i]))
    ensures EndInLine(line, i, stack) == EndInLine(line, i + 2, stack)
  {
    hide EndsWithOperator, PopAll;
    var pushed := stack + ['<'];
    assert EndInLine(line, i, stack) == EndInLine(line, i + 1, pushed);
    assert Pop(pushed) == stack;
  }

  /** What the backward scan leaves out, each time with the character before it. */
  lemma BackwardLeavesOut(line: string, i: nat, stack: string)
    requires 0 < i < |line|
    ensures line[i] == '<' && line[i - 1] == '<' ==> StartInLine(line, i, stack) == StartInLine(line, i - 2, stack)
    ensures line[i] == '>' && (line[i - 1] == '-' || AfterOperator(line[..i])) ==>
              StartInLine(line, i, stack) == StartInLine(line, i - 2, stack)
    ensures line[i] == '>' && i + 2 < |line| && line[i - 1] == ' ' && line[i + 1] == '=' && line[i + 2] == ' ' ==>
              StartInLine(line, i, stack) == StartInLine(line, i - 2, stack)
  {
    hide EndsWithOperator, AfterOperator, PopAll;
    OperatorIs(line[..i]);
  }
}
