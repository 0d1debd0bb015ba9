/**
 Coroutine switching: `Send`, `Yield`, `_Send` and `_Run` as steps of a machine.

 A step is what happens from one call of `Send` or `Yield` (or the end of a coroutine's function) up to the
 point where the next coroutine runs user code: the assignments before `swapcontext`, the switch, and the
 return from the `_Send` in which the resumed coroutine had been suspended.
 */
module Coroutine {
  import opened Options

  /** AnyPointer */
  datatype Any = Null | Ptr(v: int)

  datatype Life = Init | Running | Finish

  /** `waiting` is the peer of the `_Send` in which a coroutine is suspended. */
  datatype Co = Co(life: Life, yieldValue: Any, waiting: Option<nat>)

  /** `cos[0]` is `main_`; `executing` is the coroutine whose code runs. */
  datatype State = State(cos: seq<Co>, current: Option<nat>, executing: nat)

  datatype Action =
    | Send(to: nat, param: Any)
    | Yield(param: Any)
    /** The function of the coroutine returns, with this `result_`. */
    | Return(result: Any)

  /** What the resumed side sees. */
  datatype Event =
    | Started(co: nat)
    | Delivered(co: nat, value: Any)
    | Thrown
    | Aborted

  /** `n` coroutines created, none started. */
  function Initial(n: nat): (s: State) {
    State(seq(n + 1, _ => Co(Init, Null, None)), None, 0)
  }

  /** `swapcontext` to `to`, by `self`, and what `to` does before it gets back to user code. */
  function Resume(s: State, self: nat, to: nat): (r: (State, Event))
    requires self < |s.cos| && to < |s.cos|
  {
    var s := s.(cos := s.cos[self := s.cos[self].(waiting := Some(to))], executing := to);
    match s.cos[to].waiting
    case None =>
      (s.(cos := s.cos[to := s.cos[to].(life := if to == 0 then s.cos[0].life else Running)]), Started(to))
    case Some(peer) =>
      if peer >= |s.cos| then (s, Aborted)
      else
        var value := s.cos[peer].yieldValue;
        var cos := s.cos[to := s.cos[to].(waiting := None)];
        (s.(cos := cos[peer := cos[peer].(yieldValue := Null)]), Delivered(to, value))
  }

  /** `_Send` on `self`, which is `current_`. */
  function SendFrom(s: State, self: nat, to: nat, param: Any): (r: (State, Event))
    requires self < |s.cos| && to < |s.cos|
  {
    if self == to then (s, Aborted)
    else
      var s := s.(current := Some(to));
      if param == Null then Resume(s, self, to)
      else if s.cos[to].life == Init && to != 0 then (s, Thrown)
      else Resume(s.(cos := s.cos[self := s.cos[self].(yieldValue := param)]), self, to)
  }

  function Step(s: State, a: Action): (r: (State, Event))
    requires s.cos != [] && s.executing < |s.cos|
    requires s.current.Some? ==> s.current.value < |s.cos|
    requires a.Send? ==> a.to < |s.cos|
  {
    match a
    case Send(to, param) =>
      if s.cos[to].life == Finish then (s, Thrown)
      else
        var s := if s.current.None? then s.(current := Some(0)) else s;
        SendFrom(s, s.current.value, to, param)
    case Yield(param) =>
      if s.current.None? then (s, Aborted) else SendFrom(s, s.current.value, 0, param)
    case Return(result) =>
      var s := s.(cos := s.cos[s.executing := s.cos[s.executing].(life := Finish)]);
      SendFrom(s, s.executing, 0, result)
  }

  // ----- generators: main sends, the others yield -----

  /** The use that the comments of the source have in mind: "like python generator's send method". */
  ghost predicate Disciplined(s: State, a: Action) {
    match a
    case Send(to, param) =>
      && s.executing == 0 && 0 < to < |s.cos|
      && (s.cos[to].life == Init ==> param == Null)
    case Yield(_) => s.executing != 0
    case Return(_) => s.executing != 0
  }

  /** What the other side should see. */
  function Expected(s: State, a: Action): (e: Event)
    requires a.Send? ==> a.to < |s.cos|
  {
    match a
    case Send(to, param) =>
      (match s.cos[to].life
       case Init => Started(to)
       case Running => Delivered(to, param)
       case Finish => Thrown)
    case Yield(param) => Delivered(0, param)
    case Return(result) => Delivered(0, result)
  }

  /** No value is left over, and each suspended coroutine waits for the peer it switched to. */
  ghost predicate Quiet(s: State, i: nat)
    requires i < |s.cos|
  {
    var c := s.cos[i];
    && c.yieldValue == Null
    && (i == s.executing ==> c.waiting == None)
    && (i == 0 ==> c.life == Init)
    && (i == 0 && i != s.executing ==> c.waiting == Some(s.executing))
    && (i > 0 && i != s.executing ==> c.waiting == if c.life == Init then None else Some(0))
    && (i > 0 && i == s.executing ==> c.life == Running)
  }

  /** `current_` names the coroutine whose code runs; before the first send it is null and main runs. */
  ghost predicate CurrentIsExecuting(s: State) {
    s.current == Some(s.executing) || (s.current == None && s.executing == 0)
  }

  ghost predicate Inv(s: State) {
    && s.executing < |s.cos|
    && CurrentIsExecuting(s)
    && forall i :: 0 <= i < |s.cos| ==> Quiet(s, i)
  }

  lemma InitialInv(n: nat)
    ensures Inv(Initial(n))
  {
  }

  /** Sending: main switches to `to`. */
  lemma SendKeeps(s: State, to: nat, param: Any)
    requires Inv(s) && Disciplined(s, Send(to, param)) && s.cos[to].life != Finish
    ensures Inv(Step(s, Send(to, param)).0) && Step(s, Send(to, param)).1 == Expected(s, Send(to, param))
  {
    var (t, e) := Step(s, Send(to, param));
    assert Quiet(s, 0) && Quiet(s, to);
    assert t.executing == to && t.current == Some(to);
    forall i | 0 <= i < |t.cos| ensures Quiet(t, i) {
      assert Quiet(s, i);
    }
  }

  /** Yielding: the executing coroutine switches to main. */
  lemma YieldKeeps(s: State, a: Action)
    requires Inv(s) && Disciplined(s, a) && !a.Send?
    ensures Inv(Step(s, a).0) && Step(s, a).1 == Expected(s, a)
  {
    var (t, e) := Step(s, a);
    assert Quiet(s, 0) && Quiet(s, s.executing);
    assert t.executing == 0 && t.current == Some(0);
    forall i | 0 <= i < |t.cos| ensures Quiet(t, i) {
      assert Quiet(s, i);
    }
  }

  lemma StepKeeps(s: State, a: Action)
    requires Inv(s) && Disciplined(s, a)
    ensures Inv(Step(s, a).0) && Step(s, a).1 == Expected(s, a) && |Step(s, a).0.cos| == |s.cos|
  {
    hide Quiet;
    if a.Send? {
      if s.cos[a.to].life != Finish {
        SendKeeps(s, a.to, a.param);
      }
    } else {
      YieldKeeps(s, a);
    }
  }

  // ----- every run -----

  ghost predicate DisciplinedRun(s: State, run: seq<Action>)
    requires Inv(s)
    decreases |run|
  {
    run == [] || (Disciplined(s, run[0]) && (StepKeeps(s, run[0]); DisciplinedRun(Step(s, run[0]).0, run[1..])))
  }

  ghost function After(s: State, run: seq<Action>): (t: State)
    requires Inv(s) && DisciplinedRun(s, run)
    decreases |run|
  {
    if run == [] then s else (StepKeeps(s, run[0]); After(Step(s, run[0]).0, run[1..]))
  }

  ghost function Events(s: State, run: seq<Action>): (es: seq<Event>)
    requires Inv(s) && DisciplinedRun(s, run)
    ensures |es| == |run|
    decreases |run|
  {
    if run == [] then [] else (StepKeeps(s, run[0]); [Step(s, run[0]).1] + Events(Step(s, run[0]).0, run[1..]))
  }

  /** The state in which action `k` of a run is taken. */
  ghost function StateAt(s: State, run: seq<Action>, k: nat): (t: State)
    requires Inv(s) && DisciplinedRun(s, run) && k <= |run|
    ensures Inv(t) && |t.cos| == |s.cos|
    decreases |run|
  {
    if k == 0 then s else (StepKeeps(s, run[0]); StateAt(Step(s, run[0]).0, run[1..], k - 1))
  }

  /**
   In every disciplined run, at every point, `current_` is the coroutine that executes, and what each
   action hands over arrives at the intended peer in that same switch: nothing is lost, repeated or stale.
   */
  lemma {:induction false} GeneratorSemantics(s: State, run: seq<Action>, k: nat)
    requires Inv(s) && DisciplinedRun(s, run) && k < |run|
    ensures var t := StateAt(s, run, k);
            && CurrentIsExecuting(t)
            && Disciplined(t, run[k])
            && Events(s, run)[k] == Expected(t, run[k])
    decreases |run|
  {
    hide Quiet;
    StepKeeps(s, run[0]);
    if k > 0 {
      GeneratorSemantics(Step(s, run[0]).0, run[1..], k - 1);
    }
  }

  /** A finished coroutine stays finished and never executes again. */
  lemma FinishedStays(s: State, a: Action, i: nat)
    requires Inv(s) && Disciplined(s, a) && i < |s.cos| && s.cos[i].life == Finish
    ensures var t := Step(s, a).0; i < |t.cos| && t.cos[i].life == Finish && t.executing != i
  {
    StepKeeps(s, a);
    assert Quiet(s, i) && Quiet(s, 0) && Quiet(s, s.executing);
    assert Quiet(Step(s, a).0, i);
  }

  lemma {:induction false} FinishedNeverResumed(s: State, run: seq<Action>, i: nat)
    requires Inv(s) && DisciplinedRun(s, run) && i < |s.cos| && s.cos[i].life == Finish
    ensures After(s, run).executing != i && i < |After(s, run).cos| && After(s, run).cos[i].life == Finish
    decreases |run|
  {
    if run == [] {
      assert Quiet(s, i);
    } else {
      StepKeeps(s, run[0]);
      FinishedStays(s, run[0], i);
      FinishedNeverResumed(Step(s, run[0]).0, run[1..], i);
    }
  }

  // ----- lives from the history alone -----

  /** Some action of the first `k` sends to `i`. */
  ghost predicate Begun(run: seq<Action>, k: nat, i: nat)
    requires k <= |run|
  {
    exists j :: 0 <= j < k && run[j].Send? && run[j].to == i
  }

  /** Some action of the first `k` is a return right after a send to `i`. */
  ghost predicate Ended(run: seq<Action>, k: nat, i: nat)
    requires k <= |run|
  {
    exists j :: 0 < j < k && run[j].Return? && run[j - 1].Send? && run[j - 1].to == i
  }

  /** The last of the first `k` actions is a send to `i`, which had not ended. */
  ghost predicate Runs(run: seq<Action>, k: nat, i: nat)
    requires k <= |run|
  {
    k > 0 && run[k - 1].Send? && run[k - 1].to == i && !Ended(run, k - 1, i)
  }

  ghost predicate Remembers(s: State, run: seq<Action>, k: nat)
    requires k <= |run|
  {
    && (forall i :: 0 < i < |s.cos| ==>
          s.cos[i].life == if Ended(run, k, i) then Finish else if Begun(run, k, i) then Running else Init)
    && (forall i :: 0 < i < |s.cos| ==> (s.executing == i <==> Runs(run, k, i)))
  }

  lemma {:induction false} StateStep(s: State, run: seq<Action>, k: nat)
    requires Inv(s) && DisciplinedRun(s, run) && k < |run|
    ensures Disciplined(StateAt(s, run, k), run[k])
    ensures StateAt(s, run, k + 1) == Step(StateAt(s, run, k), run[k]).0
    decreases |run|
  {
    hide Quiet, SendFrom;
    StepKeeps(s, run[0]);
    if k > 0 {
      StateStep(Step(s, run[0]).0, run[1..], k - 1);
    }
  }

  lemma HistoryGrows(run: seq<Action>, k: nat, i: nat)
    requires k < |run|
    ensures Begun(run, k + 1, i) <==> Begun(run, k, i) || (run[k].Send? && run[k].to == i)
    ensures Ended(run, k + 1, i) <==> Ended(run, k, i) || (k > 0 && run[k].Return? && run[k - 1].Send? && run[k - 1].to == i)
  {
  }

  /** What a step does to the lives, and who runs after it. */
  lemma StepLives(s: State, a: Action, i: nat)
    requires Inv(s) && Disciplined(s, a) && 0 < i < |s.cos|
    ensures var t := Step(s, a).0;
            && |t.cos| == |s.cos|
            && t.cos[i].life == (if a.Send? && a.to == i && s.cos[i].life == Init then Running
                                 else if a.Return? && s.executing == i then Finish else s.cos[i].life)
            && (t.executing == i <==> a.Send? && a.to == i && s.cos[i].life != Finish)
  {
    assert Quiet(s, 0) && Quiet(s, s.executing);
    if a.Send? {
      assert Quiet(s, a.to);
    }
  }

  lemma {:induction false} Remembering(s: State, run: seq<Action>, k: nat)
    requires Inv(s) && DisciplinedRun(s, run) && k <= |run| && Remembers(s, run, 0)
    ensures Remembers(StateAt(s, run, k), run, k)
    decreases k
  {
    if k > 0 {
      hide Quiet, SendFrom, DisciplinedRun, StateAt;
      Remembering(s, run, k - 1);
      StateStep(s, run, k - 1);
      RememberStep(StateAt(s, run, k - 1), run, k);
    }
  }

  lemma RememberStep(u: State, run: seq<Action>, k: nat)
    requires 0 < k <= |run| && Inv(u) && Disciplined(u, run[k - 1]) && Remembers(u, run, k - 1)
    ensures Remembers(Step(u, run[k - 1]).0, run, k)
  {
    hide Quiet, SendFrom, Begun, Ended;
    var t := Step(u, run[k - 1]).0;
    StepKeeps(u, run[k - 1]);
    hide Step, Disciplined;
    forall i | 0 < i < |t.cos|
      ensures t.cos[i].life == if Ended(run, k, i) then Finish else if Begun(run, k, i) then Running else Init
      ensures t.executing == i <==> Runs(run, k, i)
    {
      StepLives(u, run[k - 1], i);
      HistoryGrows(run, k - 1, i);
      assert u.executing == i <==> Runs(run, k - 1, i);
      if k > 1 {
        HistoryGrows(run, k - 2, i);
      }
    }
  }

  /**
   In every disciplined run from the beginning: a coroutine has begun exactly if something was sent to it, has
   finished exactly if it returned after a send to it, and runs exactly after such a send.
   */
  lemma LivesFromHistory(n: nat, run: seq<Action>, k: nat, i: nat)
    requires Inv(Initial(n)) && DisciplinedRun(Initial(n), run) && k <= |run| && 0 < i <= n
    ensures var s := StateAt(Initial(n), run, k);
            && i < |s.cos|
            && s.cos[i].life == (if Ended(run, k, i) then Finish else if Begun(run, k, i) then Running else Init)
            && (s.executing == i <==> Runs(run, k, i))
  {
    hide DisciplinedRun, Begun;
    assert forall j :: 0 < j <= n ==> !Begun(run, 0, j) by { NothingBegun(run); }
    Remembering(Initial(n), run, k);
  }

  lemma NothingBegun(run: seq<Action>)
    ensures forall j :: !Begun(run, 0, j)
  {
  }

  // ----- outside the discipline -----

  /**
   `current_` is set before the check that refuses a value for an unstarted coroutine: after a send by main,
   `current_` is the executing coroutine exactly if that check did not throw.
   */
  lemma CurrentAfterSend(s: State, to: nat, param: Any)
    requires Inv(s) && s.executing == 0 && 0 < to < |s.cos|
    ensures CurrentIsExecuting(Step(s, Send(to, param)).0) <==> !(s.cos[to].life == Init && param != Null)
  {
    if s.cos[to].life == Init && param != Null {
      assert Step(s, Send(to, param)).0.current == Some(to);
    } else {
      StepKeeps(s, Send(to, param));
    }
  }

  /**
   Exactly when a step delivers and leaves a state in which the next one can: main sends to a coroutine that is
   finished, or started, or gets no value; or a coroutine yields or returns.  In particular no coroutine may send
   to one that is not finished.
   */
  lemma DeliversExactly(s: State, a: Action)
    requires Inv(s) && (a.Send? ==> 0 < a.to < |s.cos|)
    ensures Inv(Step(s, a).0) && Step(s, a).1 == Expected(s, a)
       <==> Disciplined(s, a) || (a.Send? && s.cos[a.to].life == Finish)
  {
    if Disciplined(s, a) {
      StepKeeps(s, a);
    } else if a.Send? && s.cos[a.to].life != Finish {
      UndisciplinedSend(s, a.to, a.param);
    } else {
      assert Quiet(s, 0);
    }
  }

  lemma UndisciplinedSend(s: State, to: nat, param: Any)
    requires Inv(s) && 0 < to < |s.cos| && !Disciplined(s, Send(to, param)) && s.cos[to].life != Finish
    ensures !(Inv(Step(s, Send(to, param)).0) && Step(s, Send(to, param)).1 == Expected(s, Send(to, param)))
  {
    var (t, e) := Step(s, Send(to, param));
    assert Quiet(s, s.executing) && Quiet(s, to);
    if s.executing != 0 && to != s.executing && e == Expected(s, Send(to, param)) {
      assert t.cos[s.executing].waiting == Some(to) && t.executing == to;
      assert !Quiet(t, s.executing);
    }
  }

  /** Main is refused exactly by a finished coroutine, and by an unstarted one if it sends a value. */
  lemma ThrownExactly(s: State, to: nat, param: Any)
    requires Inv(s) && s.executing == 0 && 0 < to < |s.cos|
    ensures Step(s, Send(to, param)).1 == Thrown
       <==> s.cos[to].life == Finish || (s.cos[to].life == Init && param != Null)
  {
    assert Quiet(s, to);
  }

  /** What a coroutine sees of a send by another one: a value for a started coroutine is lost on the way. */
  lemma NestedSendEvent(s: State, to: nat, param: Any)
    requires Inv(s) && s.executing != 0 && 0 < to < |s.cos|
    ensures Step(s, Send(to, param)).1
         == if s.cos[to].life == Finish then Thrown
            else if to == s.executing then Aborted
            else if s.cos[to].life == Running then Delivered(to, Null)
            else if param != Null then Thrown else Started(to)
  {
    assert Quiet(s, to) && Quiet(s, 0) && Quiet(s, s.executing);
  }

  /** Main has nobody to yield to. */
  lemma MainCannotYield(s: State, param: Any)
    requires Inv(s) && s.executing == 0
    ensures Step(s, Yield(param)).1 == Aborted
  {
  }

  /** A run of this kind: what the coroutine yields that was started by another one is not what main receives. */
  lemma NestedSendMisdelivers(w: int)
    ensures var s0 := Initial(2);
            var s1 := Step(s0, Send(1, Null)).0;
            var s2 := Step(s1, Send(2, Null)).0;
            s2.executing == 2 && Step(s2, Yield(Ptr(w))).1 == Delivered(0, Null)
  {
  }

  // ----- the source -----

  /** The static members and all coroutine objects. */
  class Scheduler {
    var cos: seq<Co>
    var current: Option<nat>
    var executing: nat

    function View(): (s: State)
      reads this
    {
      State(cos, current, executing)
    }

    constructor (n: nat)
      ensures View() == Initial(n) && Inv(View())
    {
      cos, current, executing := seq(n + 1, _ => Co(Init, Null, None)), None, 0;
      new;
      InitialInv(n);
    }

    /** `Coroutine::Send` */
    method Send(to: nat, param: Any) returns (e: Event)
      requires Inv(View()) && to < |cos|
      modifies this
      ensures (View(), e) == Step(old(View()), Action.Send(to, param))
      ensures Disciplined(old(View()), Action.Send(to, param)) ==>
                Inv(View()) && e == Expected(old(View()), Action.Send(to, param))
    {
      hide Inv, Quiet, SendFrom, Disciplined;
      MethodStep(View(), Action.Send(to, param));
      if cos[to].life == Finish {
        return Thrown;
      }
      if current.None? {
        current := Some(0);
      }
      e := SendTo(current.value, to, param);
    }

    /** `Coroutine::Yield`; before the first send there is no object to call. */
    method Yield(param: Any) returns (e: Event)
      requires Inv(View())
      modifies this
      ensures (View(), e) == Step(old(View()), Action.Yield(param))
      ensures old(executing) != 0 ==> Inv(View()) && e == Delivered(0, param)
    {
      hide Inv, Quiet, SendFrom;
      MethodStep(View(), Action.Yield(param));
      if current.None? {
        return Aborted;
      }
      e := SendTo(current.value, 0, param);
    }

    /** The end of `_Run`. */
    method Return(result: Any) returns (e: Event)
      requires Inv(View()) && executing != 0
      modifies this
      ensures (View(), e) == Step(old(View()), Action.Return(result))
      ensures Inv(View()) && e == Delivered(0, result)
    {
      hide Inv, Quiet, SendFrom;
      MethodStep(View(), Action.Return(result));
      cos := cos[executing := cos[executing].(life := Finish)];
      e := SendTo(executing, 0, result);
    }

    /** `_Send` */
    method SendTo(self: nat, to: nat, param: Any) returns (e: Event)
      requires self < |cos| && to < |cos|
      modifies this
      ensures (View(), e) == SendFrom(old(View()), self, to, param)
    {
      if self == to {
        return Aborted;
      }
      current := Some(to);
      if param != Null {
        if cos[to].life == Init && to != 0 {
          return Thrown;
        }
        cos := cos[self := cos[self].(yieldValue := param)];
      }
      e := SwapContext(self, to);
    }

    /** `swapcontext`, the entry to `_Run`, or the return from the peer's `_Send`. */
    method SwapContext(self: nat, to: nat) returns (e: Event)
      requires self < |cos| && to < |cos|
      modifies this
      ensures (View(), e) == Resume(old(View()), self, to)
    {
      cos, executing := cos[self := cos[self].(waiting := Some(to))], to;
      match cos[to].waiting
      case None =>
        cos := cos[to := cos[to].(life := if to == 0 then cos[0].life else Running)];
        e := Started(to);
      case Some(peer) =>
        if peer >= |cos| {
          return Aborted;
        }
        var value := cos[peer].yieldValue;
        cos := cos[to := cos[to].(waiting := None)];
        cos := cos[peer := cos[peer].(yieldValue := Null)];
        e := Delivered(to, value);
    }
  }

  /** What the methods need to know about a step. */
  lemma MethodStep(s: State, a: Action)
    requires Inv(s) && (a.Send? ==> a.to < |s.cos|)
    ensures s.executing < |s.cos| && (s.current.Some? ==> s.current.value == s.executing)
    ensures Disciplined(s, a) ==> Inv(Step(s, a).0) && Step(s, a).1 == Expected(s, a)
  {
    if Disciplined(s, a) {
      StepKeeps(s, a);
    }
  }
}
