/** `FixedBuffer<kLargeBuffer>` and lists of them; the log file is a string that only grows. */
module LogBuffers {
  import opened LogSizes

  /** A buffer object: its identity and the bytes stored in it. */
  datatype Buffer = Buffer(id: nat, data: string)

  function Avail(b: Buffer): (n: int) { SIZE - |b.data| }

  /** `FixedBuffer::append`: a line that does not fit is dropped. */
  function Store(b: Buffer, line: string): (r: Buffer) {
    if Avail(b) > |line| then b.(data := b.data + line) else b
  }

  function Reset(b: Buffer): (r: Buffer) { b.(data := "") }

  /** The bytes of several buffers, in order. */
  function Bytes(bs: seq<Buffer>): (s: string) {
    if bs == [] then "" else bs[0].data + Bytes(bs[1..])
  }

  /** The identities of several buffers. */
  function Ids(bs: seq<Buffer>): (m: multiset<nat>) {
    if bs == [] then multiset{} else multiset{bs[0].id} + Ids(bs[1..])
  }

  function All(lines: seq<string>): (s: string) {
    if lines == [] then "" else All(lines[..|lines| - 1]) + lines[|lines| - 1]
  }

  /** The lines that fit into an empty buffer. */
  function Fitting(lines: seq<string>): (s: string) {
    if lines == [] then ""
    else Fitting(lines[..|lines| - 1]) + (if |lines[|lines| - 1]| < SIZE then lines[|lines| - 1] else "")
  }

  lemma {:induction false} BytesAppend(a: seq<Buffer>, b: seq<Buffer>)
    ensures Bytes(a + b) == Bytes(a) + Bytes(b)
  {
    if a == [] {
      assert a + b == b;
    } else {
      assert (a + b)[1..] == a[1..] + b;
      BytesAppend(a[1..], b);
    }
  }

  lemma BytesOne(b: Buffer)
    ensures Bytes([b]) == b.data
  {
    assert [b][1..] == [];
  }

  lemma {:induction false} IdsAppend(a: seq<Buffer>, b: seq<Buffer>)
    ensures Ids(a + b) == Ids(a) + Ids(b)
  {
    if a == [] {
      assert a + b == b;
    } else {
      assert (a + b)[1..] == a[1..] + b;
      IdsAppend(a[1..], b);
    }
  }

  lemma IdsOne(b: Buffer)
    ensures Ids([b]) == multiset{b.id}
  {
    assert [b][1..] == [];
  }

  /** No identity occurs twice, and none that was not handed out yet. */
  ghost predicate AtMostOnce(m: multiset<nat>, n: nat) {
    forall id :: m[id] <= (if id < n then 1 else 0)
  }

  lemma AtMostOnceFresh(m: multiset<nat>, n: nat)
    requires AtMostOnce(m, n)
    ensures AtMostOnce(m + multiset{n}, n + 1)
  {
    assert m[n] <= 0;
  }

  lemma AtMostOnceFewer(m: multiset<nat>, m': multiset<nat>, n: nat)
    requires AtMostOnce(m, n) && m' <= m
    ensures AtMostOnce(m', n)
  {
  }

  lemma Associative(a: string, b: string, c: string)
    ensures (a + b) + c == a + (b + c)
  {
  }

  lemma {:induction false} FittingLength(lines: seq<string>)
    ensures |Fitting(lines)| <= |All(lines)|
    ensures (exists i :: 0 <= i < |lines| && |lines[i]| >= SIZE) ==> |Fitting(lines)| < |All(lines)|
  {
    if lines != [] {
      var rest := lines[..|lines| - 1];
      FittingLength(rest);
      if i :| 0 <= i < |lines| && |lines[i]| >= SIZE {
        assert i < |rest| ==> rest[i] == lines[i];
      }
    }
  }

  lemma {:induction false} FittingAll(lines: seq<string>)
    requires forall i :: 0 <= i < |lines| ==> |lines[i]| < SIZE
    ensures Fitting(lines) == All(lines)
  {
    if lines != [] {
      FittingAll(lines[..|lines| - 1]);
    }
  }

  /** Nothing is dropped exactly if every line is shorter than a buffer. */
  lemma NothingDropped(lines: seq<string>)
    ensures Fitting(lines) == All(lines) <==> forall i :: 0 <= i < |lines| ==> |lines[i]| < SIZE
  {
    if forall i :: 0 <= i < |lines| ==> |lines[i]| < SIZE {
      FittingAll(lines);
    } else {
      FittingLength(lines);
    }
  }

  lemma FittingSnoc(lines: seq<string>, line: string)
    ensures Fitting(lines + [line]) == Fitting(lines) + (if |line| < SIZE then line else "")
  {
    assert (lines + [line])[..|lines|] == lines;
  }
}

/**
 `AsyncLogging`: producers append lines under a mutex, one logging thread swaps the buffers out and writes
 them.  A step is what happens between two points where another thread can run.
 */
module AsyncLogging {
  import opened LogBuffers
  import opened LogSizes
  import opened Options

  /** Where the logging thread is in `AsyncLoggingLoop`. */
  datatype Pc = LoopHead | AtMutex | Writing(written: nat) | Done

  datatype State = State(
    // shared, guarded by the mutex
    current: Buffer, next: Option<Buffer>, buffers: seq<Buffer>,
    // the logging thread
    pc: Pc, new1: Option<Buffer>, new2: Option<Buffer>, toWrite: seq<Buffer>, file: string,
    running: bool,
    // identities are handed out in order
    nextId: nat,
    // history: all lines appended, and those appended since the last swap
    log: seq<string>, sinceSwap: seq<string>)

  datatype Action = Append(line: string) | Stop | Test | Swap | WriteOne | Recycle

  /** After `start`: the members' two buffers and the thread's two spare ones are new. */
  const INIT := State(Buffer(0, ""), Some(Buffer(1, "")), [], LoopHead, Some(Buffer(2, "")), Some(Buffer(3, "")), [], "",
                      true, 4, [], [])

  function AppendStep(s: State, line: string): (t: State) {
    var t := s.(log := s.log + [line], sinceSwap := s.sinceSwap + [line]);
    if Avail(s.current) > |line| then t.(current := Store(s.current, line))
    else
      var full := s.buffers + [s.current];
      match s.next
      case Some(b) => t.(buffers := full, current := Store(b, line), next := None)
      case None => t.(buffers := full, current := Store(Buffer(s.nextId, ""), line), nextId := s.nextId + 1)
  }

  predicate Enabled(s: State, a: Action) {
    match a
    case Append(_) => true
    case Stop => true
    case Test => s.pc.LoopHead?
    case Swap => s.pc.AtMutex? && s.new1.Some?
    case WriteOne => s.pc.Writing? && s.pc.written < |s.toWrite|
    case Recycle => s.pc.Writing? && s.pc.written >= |s.toWrite|
  }

  /** The block under the mutex: take everything, and leave a spare buffer behind. */
  function SwapStep(s: State): (t: State)
    requires s.new1.Some?
  {
    var t := s.(pc := Writing(0), toWrite := s.buffers + [s.current], buffers := s.toWrite, current := s.new1.value,
                new1 := None, sinceSwap := []);
    if s.next.None? then t.(next := s.new2, new2 := None) else t
  }

  /** Back to the loop head: refill the spare buffers from at most two of those written, drop the rest. */
  function RecycleStep(s: State): (t: State) {
    var w := if |s.toWrite| > 2 then s.toWrite[..2] else s.toWrite;
    var (new1, w1) := Refill(s.new1, w);
    var (new2, _) := Refill(s.new2, w1);
    s.(pc := LoopHead, new1 := new1, new2 := new2, toWrite := [])
  }

  /** A missing spare is taken from the end of the written buffers and emptied. */
  function Refill(spare: Option<Buffer>, w: seq<Buffer>): (r: (Option<Buffer>, seq<Buffer>)) {
    if spare.Some? || w == [] then (spare, w) else (Some(Reset(w[|w| - 1])), w[..|w| - 1])
  }

  function Step(s: State, a: Action): (t: State)
    requires Enabled(s, a)
  {
    match a
    case Append(line) => AppendStep(s, line)
    case Stop => s.(running := false)
    case Test => s.(pc := if s.running then AtMutex else Done)
    case Swap => SwapStep(s)
    case WriteOne => s.(file := s.file + s.toWrite[s.pc.written].data, pc := Writing(s.pc.written + 1))
    case Recycle => RecycleStep(s)
  }

  /** Any interleaving: an action that is not possible now is skipped. */
  function Execute(s: State, schedule: seq<Action>): (t: State)
    decreases |schedule|
  {
    if schedule == [] then s
    else Execute(if Enabled(s, schedule[0]) then Step(s, schedule[0]) else s, schedule[1..])
  }

  // ----- invariants -----

  ghost predicate EmptySpare(o: Option<Buffer>) { o.Some? && o.value.data == "" }

  /** The asserts at the loop head and before each refill. */
  ghost predicate SparesReady(s: State) {
    match s.pc
    case Writing(_) => (s.new1.None? ==> |s.toWrite| >= 1) && (s.new1.None? && s.new2.None? ==> |s.toWrite| >= 2)
                       && (s.new2.None? ==> s.new1.None?)
                       && (s.new1.Some? ==> EmptySpare(s.new1)) && (s.new2.Some? ==> EmptySpare(s.new2))
    case _ => EmptySpare(s.new1) && EmptySpare(s.new2) && s.toWrite == []
  }

  /** The next buffer is gone exactly while full ones wait to be written. */
  ghost predicate NoStarvation(s: State) {
    && (s.next.None? <==> s.buffers != [])
    && (s.next.Some? ==> s.next.value.data == "")
    && |s.current.data| < SIZE
  }

  function OptionIds(o: Option<Buffer>): (m: multiset<nat>) {
    match o
    case None => multiset{}
    case Some(b) => multiset{b.id}
  }

  /** Everything that holds a buffer, with multiplicity. */
  function Owned(s: State): (m: multiset<nat>) {
    multiset{s.current.id} + OptionIds(s.next) + Ids(s.buffers) + OptionIds(s.new1) + OptionIds(s.new2) + Ids(s.toWrite)
  }

  /** Each buffer has one owner. */
  ghost predicate SingleOwner(s: State) {
    AtMostOnce(Owned(s), s.nextId)
  }

  /** The part of `toWrite` that is not yet in the file. */
  function Unwritten(s: State): (bs: seq<Buffer>) {
    if s.pc.Writing? && s.pc.written <= |s.toWrite| then s.toWrite[s.pc.written..] else []
  }

  /** Bytes in the file, being written, waiting and current are the lines in the order of appending. */
  ghost predicate Conserved(s: State) {
    && (s.pc.Writing? ==> s.pc.written <= |s.toWrite|)
    && Bytes(s.buffers) + s.current.data == Fitting(s.sinceSwap)
    && s.file + Bytes(Unwritten(s)) + Fitting(s.sinceSwap) == Fitting(s.log)
  }

  ghost predicate Inv(s: State) {
    SparesReady(s) && NoStarvation(s) && SingleOwner(s) && Conserved(s)
  }

  // ----- every step keeps them -----

  lemma AppendStored(s: State, line: string)
    requires NoStarvation(s)
    ensures var t := AppendStep(s, line);
            Bytes(t.buffers) + t.current.data == Bytes(s.buffers) + s.current.data + (if |line| < SIZE then line else "")
  {
    if Avail(s.current) > |line| {
      Associative(Bytes(s.buffers), s.current.data, line);
    } else {
      BytesAppend(s.buffers, [s.current]);
      BytesOne(s.current);
    }
  }

  lemma AppendKeepsConserved(s: State, line: string)
    requires Conserved(s) && NoStarvation(s)
    ensures Conserved(AppendStep(s, line))
  {
    hide AppendStep, Bytes, Fitting, Unwritten, NoStarvation;
    AppendStored(s, line);
    AppendRest(s, line);
    FittingSnoc(s.sinceSwap, line);
    FittingSnoc(s.log, line);
    Associative(s.file + Bytes(Unwritten(s)), Fitting(s.sinceSwap), if |line| < SIZE then line else "");
  }

  /** What a producer does not touch, and the history. */
  lemma AppendRest(s: State, line: string)
    ensures var t := AppendStep(s, line);
            && t.pc == s.pc && t.toWrite == s.toWrite && t.file == s.file && Unwritten(t) == Unwritten(s)
            && t.log == s.log + [line] && t.sinceSwap == s.sinceSwap + [line]
  {
    hide Store, Avail;
  }

  lemma AppendKeepsOwners(s: State, line: string)
    requires SingleOwner(s)
    ensures SingleOwner(AppendStep(s, line))
  {
    hide AtMostOnce, Avail, Ids;
    var t := AppendStep(s, line);
    if Avail(s.current) > |line| {
      assert t.current.id == s.current.id;
      assert Owned(t) == Owned(s);
    } else {
      OwnersAfterPush(s, line);
      if s.next.None? {
        AtMostOnceFresh(Owned(s), s.nextId);
      }
    }
  }

  lemma OwnersAfterPush(s: State, line: string)
    requires Avail(s.current) <= |line|
    ensures Owned(AppendStep(s, line)) == if s.next.None? then Owned(s) + multiset{s.nextId} else Owned(s)
  {
    hide Avail, Ids;
    var t := AppendStep(s, line);
    IdsAppend(s.buffers, [s.current]);
    IdsOne(s.current);
    OwnersOfPush(multiset{s.current.id}, multiset{t.current.id}, OptionIds(s.next), Ids(s.buffers), OptionIds(s.new1),
                 OptionIds(s.new2), Ids(s.toWrite));
    if s.next.None? {
      assert t.current.id == s.nextId;
    } else {
      assert multiset{t.current.id} == OptionIds(s.next);
    }
  }

  lemma OwnersOfPush(c: multiset<nat>, c': multiset<nat>, next: multiset<nat>, b: multiset<nat>,
                     n1: multiset<nat>, n2: multiset<nat>, w: multiset<nat>)
    ensures c' == next ==> c' + multiset{} + (b + c) + n1 + n2 + w == c + next + b + n1 + n2 + w
    ensures next == multiset{} ==> c' + multiset{} + (b + c) + n1 + n2 + w == (c + next + b + n1 + n2 + w) + c'
  {
  }

  lemma SwapKeepsConserved(s: State)
    requires Inv(s) && s.pc.AtMutex?
    ensures Conserved(SwapStep(s))
  {
    var t := SwapStep(s);
    BytesAppend(s.buffers, [s.current]);
    BytesOne(s.current);
    assert Unwritten(t) == t.toWrite && Unwritten(s) == [];
    assert Bytes([]) == "" && Fitting([]) == "";
    assert Bytes(t.toWrite) == Fitting(s.sinceSwap);
    hide Bytes, Fitting;
    assert s.file + "" == s.file;
    assert s.file + Fitting(s.sinceSwap) + "" == s.file + Fitting(s.sinceSwap);
    assert t.current.data == "" && t.buffers == [];
  }

  lemma SwapKeepsOwners(s: State)
    requires Inv(s) && s.pc.AtMutex?
    ensures SingleOwner(SwapStep(s))
  {
    hide AtMostOnce, Conserved;
    IdsAppend(s.buffers, [s.current]);
    IdsOne(s.current);
    OwnersOfSwap(multiset{s.current.id}, OptionIds(s.next), Ids(s.buffers), OptionIds(s.new1), OptionIds(s.new2), Ids(s.toWrite));
  }

  lemma OwnersOfSwap(c: multiset<nat>, next: multiset<nat>, b: multiset<nat>, n1: multiset<nat>, n2: multiset<nat>, w: multiset<nat>)
    ensures n1 + next + w + multiset{} + n2 + (b + c) == c + next + b + n1 + n2 + w
    ensures next == multiset{} ==> n1 + n2 + w + multiset{} + multiset{} + (b + c) == c + next + b + n1 + n2 + w
  {
  }

  lemma WriteKeepsConserved(s: State)
    requires Conserved(s) && Enabled(s, WriteOne)
    ensures Conserved(Step(s, WriteOne))
  {
    hide Bytes, Fitting, AppendStep, SwapStep, RecycleStep;
    var t, k := Step(s, WriteOne), s.pc.written;
    assert s.toWrite[k..] == [s.toWrite[k]] + s.toWrite[k + 1..];
    BytesAppend([s.toWrite[k]], s.toWrite[k + 1..]);
    BytesOne(s.toWrite[k]);
    Associative(s.file, s.toWrite[k].data, Bytes(s.toWrite[k + 1..]));
  }

  lemma RecycleKeepsOwners(s: State)
    requires SingleOwner(s)
    ensures SingleOwner(RecycleStep(s))
  {
    hide AtMostOnce, Refill;
    var t := RecycleStep(s);
    var w := if |s.toWrite| > 2 then s.toWrite[..2] else s.toWrite;
    var dropped := s.toWrite[|w|..];
    assert s.toWrite == w + dropped;
    IdsAppend(w, dropped);
    var w1 := Refill(s.new1, w).1;
    RefillIds(s.new1, w);
    RefillIds(s.new2, w1);
    OwnersOfRecycle(multiset{s.current.id} + OptionIds(s.next) + Ids(s.buffers), OptionIds(s.new1), OptionIds(s.new2), Ids(w),
                    Ids(dropped), OptionIds(t.new1), Ids(w1), OptionIds(t.new2), Ids(Refill(s.new2, w1).1));
    AtMostOnceFewer(Owned(s), Owned(t), s.nextId);
  }

  lemma OwnersOfRecycle(a: multiset<nat>, n1: multiset<nat>, n2: multiset<nat>, w: multiset<nat>, d: multiset<nat>,
                        n1': multiset<nat>, w1: multiset<nat>, n2': multiset<nat>, w2: multiset<nat>)
    requires n1 + w == n1' + w1 && n2 + w1 == n2' + w2
    ensures a + n1' + n2' + multiset{} <= a + n1 + n2 + (w + d)
  {
    forall x: nat ensures (a + n1' + n2' + multiset{})[x] <= (a + n1 + n2 + (w + d))[x] {
      assert (n1 + w)[x] == (n1' + w1)[x];
      assert (n2 + w1)[x] == (n2' + w2)[x];
    }
  }

  lemma RefillIds(spare: Option<Buffer>, w: seq<Buffer>)
    ensures OptionIds(spare) + Ids(w) == OptionIds(Refill(spare, w).0) + Ids(Refill(spare, w).1)
  {
    if spare.None? && w != [] {
      assert w == w[..|w| - 1] + [w[|w| - 1]];
      IdsAppend(w[..|w| - 1], [w[|w| - 1]]);
      IdsOne(w[|w| - 1]);
    }
  }

  lemma InitInv()
    ensures Inv(INIT)
  {
  }

  /** After a recycle both spares are there again: the asserts before each refill hold. */
  lemma RecycleRefills(s: State)
    requires SparesReady(s) && s.pc.Writing?
    ensures SparesReady(RecycleStep(s))
  {
  }

  lemma RecycleKeepsConserved(s: State)
    requires Conserved(s) && Enabled(s, Recycle)
    ensures Conserved(RecycleStep(s))
  {
    assert Unwritten(s) == [] && Unwritten(RecycleStep(s)) == [];
  }

  lemma QuietStepKeeps(s: State, t: State)
    requires Inv(s) && t.(pc := s.pc, running := s.running) == s && !s.pc.Writing? && !t.pc.Writing?
    ensures Inv(t)
  {
    assert Owned(t) == Owned(s) && Unwritten(t) == Unwritten(s);
  }

  lemma StopKeeps(s: State)
    requires Inv(s)
    ensures Inv(s.(running := false))
  {
    assert Owned(s.(running := false)) == Owned(s) && Unwritten(s.(running := false)) == Unwritten(s);
  }

  lemma StepKeepsInv(s: State, a: Action)
    requires Inv(s) && Enabled(s, a)
    ensures Inv(Step(s, a))
  {
    hide Conserved, SingleOwner;
    match a
    case Append(line) => AppendKeepsConserved(s, line); AppendKeepsOwners(s, line);
    case Stop => StopKeeps(s);
    case Test => QuietStepKeeps(s, Step(s, a));
    case Swap => SwapKeepsConserved(s); SwapKeepsOwners(s);
    case WriteOne => WriteKeepsConserved(s); WriteKeepsOwners(s);
    case Recycle => RecycleKeepsOwners(s); RecycleKeepsConserved(s); RecycleRefills(s);
  }

  lemma WriteKeepsOwners(s: State)
    requires SingleOwner(s) && Enabled(s, WriteOne)
    ensures SingleOwner(Step(s, WriteOne))
  {
    assert Owned(Step(s, WriteOne)) == Owned(s);
  }

  // ----- the main results -----

  lemma {:induction false} ExecuteKeepsInv(s: State, schedule: seq<Action>)
    requires Inv(s)
    ensures Inv(Execute(s, schedule))
    decreases |schedule|
  {
    if schedule != [] {
      if Enabled(s, schedule[0]) {
        StepKeepsInv(s, schedule[0]);
        ExecuteKeepsInv(Step(s, schedule[0]), schedule[1..]);
      } else {
        ExecuteKeepsInv(s, schedule[1..]);
      }
    }
  }

  lemma InvGivesSpares(s: State)
    requires Inv(s)
    ensures SparesReady(s)
  {
  }

  lemma SwapReady(s: State)
    requires Inv(s) && s.pc.AtMutex?
    ensures s.new1.Some? && s.toWrite == []
  {
  }

  /** The lines that the producers of a schedule append, in the order in which they get the mutex. */
  function Lines(schedule: seq<Action>): (lines: seq<string>) {
    if schedule == [] then []
    else (if schedule[0].Append? then [schedule[0].line] else []) + Lines(schedule[1..])
  }

  /** What one action of a schedule does; one that is not possible now is skipped. */
  function Next(s: State, a: Action): (t: State) { if Enabled(s, a) then Step(s, a) else s }

  lemma NextHistory(s: State, a: Action)
    ensures Next(s, a).log == s.log + Lines([a])
    ensures Next(s, a).sinceSwap == if a.Swap? && Enabled(s, a) then [] else s.sinceSwap + Lines([a])
  {
    hide SwapStep, RecycleStep, AppendStep;
    match a
    case Append(line) => AppendRest(s, line);
    case Swap => SwapHistory(s);
    case Recycle => RecycleHistory(s);
    case _ =>
  }

  lemma SwapHistory(s: State)
    ensures s.new1.Some? ==> SwapStep(s).log == s.log && SwapStep(s).sinceSwap == []
  {
  }

  lemma RecycleHistory(s: State)
    ensures RecycleStep(s).log == s.log && RecycleStep(s).sinceSwap == s.sinceSwap
  {
    hide Refill;
  }

  lemma ExecuteCons(s: State, schedule: seq<Action>)
    requires schedule != []
    ensures Execute(s, schedule) == Execute(Next(s, schedule[0]), schedule[1..])
  {
  }

  lemma LinesCons(schedule: seq<Action>)
    requires schedule != []
    ensures Lines(schedule) == Lines([schedule[0]]) + Lines(schedule[1..])
  {
    assert [schedule[0]][1..] == [];
  }

  lemma {:induction false} LogIsAppends(s: State, schedule: seq<Action>)
    ensures Execute(s, schedule).log == s.log + Lines(schedule)
    decreases |schedule|
  {
    if schedule != [] {
      ExecuteCons(s, schedule);
      NextHistory(s, schedule[0]);
      LinesCons(schedule);
      LogIsAppends(Next(s, schedule[0]), schedule[1..]);
      hide Execute, Lines, Next;
    }
  }

  /** All bytes in the system, in the order in which they are or will be in the file. */
  function InFlight(s: State): (bytes: string) {
    s.file + Bytes(Unwritten(s)) + (Bytes(s.buffers) + s.current.data)
  }

  /** In every interleaving, file and buffers together hold the lines that fit into a buffer, in lock order. */
  lemma Conservation(schedule: seq<Action>)
    ensures InFlight(Execute(INIT, schedule)) == Fitting(Lines(schedule))
    ensures Execute(INIT, schedule).file <= Fitting(Lines(schedule))
  {
    Reached(schedule);
    FromConserved(Execute(INIT, schedule));
  }

  lemma FromConserved(s: State)
    requires Conserved(s)
    ensures InFlight(s) == Fitting(s.log) && s.file <= Fitting(s.log)
  {
    hide Fitting, Bytes;
    Associative(s.file, Bytes(Unwritten(s)), Fitting(s.sinceSwap));
  }

  /** The invariant and the history hold at the end of every schedule. */
  lemma Reached(schedule: seq<Action>)
    ensures Inv(Execute(INIT, schedule)) && Execute(INIT, schedule).log == Lines(schedule)
  {
    InitInv();
    hide Inv;
    ExecuteKeepsInv(INIT, schedule);
    LogIsAppends(INIT, schedule);
    assert INIT.log + Lines(schedule) == Lines(schedule);
  }

  /** No appended byte is missing anywhere exactly if every line is shorter than a buffer. */
  lemma NothingLost(schedule: seq<Action>)
    ensures InFlight(Execute(INIT, schedule)) == All(Lines(schedule))
       <==> forall i :: 0 <= i < |Lines(schedule)| ==> |Lines(schedule)[i]| < 4_000_000
  {
    Conservation(schedule);
    NothingDropped(Lines(schedule));
  }

  /** In every interleaving the spare buffers are there when the source asserts so, and no buffer has two owners. */
  lemma RecyclingNeverStarves(schedule: seq<Action>)
    ensures var s := Execute(INIT, schedule);
            && SparesReady(s)
            && (s.next.None? <==> s.buffers != [])
            && forall id :: Owned(s)[id] <= 1
  {
    Reached(schedule);
    var s := Execute(INIT, schedule);
    hide Execute;
    assert AtMostOnce(Owned(s), s.nextId);
  }

  /** The append finds the current buffer full while another full one is waiting. */
  predicate Allocates(s: State, a: Action) { a.Append? && |s.current.data| + |a.line| >= SIZE && s.buffers != [] }

  function Allocations(s: State, schedule: seq<Action>): (n: nat)
    decreases |schedule|
  {
    if schedule == [] then 0
    else (if Allocates(s, schedule[0]) then 1 else 0) + Allocations(Next(s, schedule[0]), schedule[1..])
  }

  lemma NextIdIs(s: State, a: Action)
    requires NoStarvation(s)
    ensures Next(s, a).nextId == s.nextId + if Allocates(s, a) then 1 else 0
  {
    hide Refill, Store;
  }

  lemma {:induction false} NextIdsAre(s: State, schedule: seq<Action>)
    requires Inv(s)
    ensures Execute(s, schedule).nextId == s.nextId + Allocations(s, schedule)
    decreases |schedule|
  {
    if schedule != [] {
      ExecuteCons(s, schedule);
      InvKept(s, schedule[0]);
      NextIdIs(s, schedule[0]);
      hide Execute, Next, Inv, Allocates;
      NextIdsAre(Next(s, schedule[0]), schedule[1..]);
    }
  }

  lemma InvKept(s: State, a: Action)
    requires Inv(s)
    ensures NoStarvation(s) && Inv(Next(s, a))
  {
    hide Conserved, SingleOwner, SparesReady;
    if Enabled(s, a) {
      StepKeepsInv(s, a);
    }
  }

  /** In every schedule a buffer is allocated only by an append that finds two buffers full since the last swap. */
  lemma BuffersAllocated(schedule: seq<Action>)
    ensures Execute(INIT, schedule).nextId == 4 + Allocations(INIT, schedule)
  {
    InitInv();
    hide Execute, Allocations;
    NextIdsAre(INIT, schedule);
  }

  /** The buffers used again are the first two written, the second one first, and they are empty. */
  lemma FirstWrittenReused(s: State)
    requires Inv(s) && Enabled(s, Recycle)
    ensures var t, w := RecycleStep(s), s.toWrite;
            && (s.new1.None? ==> w != [] && t.new1 == Some(Buffer(w[if |w| > 1 then 1 else 0].id, "")))
            && (s.new1.None? && s.new2.None? ==> t.new2 == Some(Buffer(w[0].id, "")))
            && (s.new1.Some? ==> t.new1 == s.new1) && (s.new2.Some? ==> t.new2 == s.new2)
  {
    hide Conserved, SingleOwner, NoStarvation;
  }

  /** Action number `j` of the schedule is a swap that takes place. */
  predicate SwapsAt(schedule: seq<Action>, j: nat)
    requires j < |schedule|
  {
    schedule[j].Swap? && Enabled(Execute(INIT, schedule[..j]), Swap)
  }

  ghost predicate NoSwapFrom(schedule: seq<Action>, k: nat) {
    forall j :: k <= j < |schedule| ==> !SwapsAt(schedule, j)
  }

  lemma SwapsAtPrefix(schedule: seq<Action>, n: nat, j: nat)
    requires j < n <= |schedule|
    ensures SwapsAt(schedule[..n], j) == SwapsAt(schedule, j)
  {
    assert schedule[..n][..j] == schedule[..j];
  }

  /** The number of actions up to and including the last swap that takes place; 0 if there is none. */
  function LastSwap(schedule: seq<Action>): (k: nat)
    ensures k <= |schedule|
  {
    if schedule == [] then 0
    else if SwapsAt(schedule, |schedule| - 1) then |schedule|
    else LastSwap(schedule[..|schedule| - 1])
  }

  lemma {:induction false} LastSwapIsLast(schedule: seq<Action>)
    ensures LastSwap(schedule) > 0 ==> SwapsAt(schedule, LastSwap(schedule) - 1)
    ensures NoSwapFrom(schedule, LastSwap(schedule))
  {
    hide SwapsAt;
    if schedule != [] {
      var n := |schedule| - 1;
      LastSwapIsLast(schedule[..n]);
      forall j | 0 <= j < n ensures SwapsAt(schedule[..n], j) == SwapsAt(schedule, j) {
        SwapsAtPrefix(schedule, n, j);
      }
    }
  }

  lemma {:induction false} LinesAppend(a: seq<Action>, b: seq<Action>)
    ensures Lines(a + b) == Lines(a) + Lines(b)
  {
    if a == [] {
      assert a + b == b;
    } else {
      assert (a + b)[1..] == a[1..] + b;
      LinesAppend(a[1..], b);
    }
  }

  lemma ExecuteSnoc(s: State, schedule: seq<Action>)
    requires schedule != []
    ensures var n := |schedule| - 1; Execute(s, schedule) == Next(Execute(s, schedule[..n]), schedule[n])
  {
    var n := |schedule| - 1;
    assert schedule == schedule[..n] + [schedule[n]];
    ExecuteAppend(s, schedule[..n], [schedule[n]]);
    hide Enabled, Step;
    assert [schedule[n]][1..] == [];
  }

  /** The lines that the model keeps as appended since the swap are those that come after it in the schedule. */
  lemma {:induction false} SinceSwapIs(schedule: seq<Action>)
    ensures Execute(INIT, schedule).sinceSwap == Lines(schedule[LastSwap(schedule)..])
  {
    if schedule != [] {
      var n := |schedule| - 1;
      SinceSwapIs(schedule[..n]);
      SinceSwapSnoc(schedule);
      hide Execute, Lines, SwapsAt;
      if SwapsAt(schedule, n) {
        assert schedule[|schedule|..] == [];
        NoLines();
      } else {
        TailSnoc(schedule, LastSwap(schedule[..n]));
      }
    } else {
      NoLines();
    }
  }

  lemma SinceSwapSnoc(schedule: seq<Action>)
    requires schedule != []
    ensures var n := |schedule| - 1;
            Execute(INIT, schedule).sinceSwap ==
            if SwapsAt(schedule, n) then [] else Execute(INIT, schedule[..n]).sinceSwap + Lines([schedule[n]])
  {
    hide Execute, Next, Lines;
    var n := |schedule| - 1;
    ExecuteSnoc(INIT, schedule);
    NextHistory(Execute(INIT, schedule[..n]), schedule[n]);
  }

  lemma TailSnoc(schedule: seq<Action>, k: nat)
    requires k < |schedule|
    ensures var n := |schedule| - 1; Lines(schedule[k..]) == Lines(schedule[..n][k..]) + Lines([schedule[n]])
  {
    hide Lines;
    var n := |schedule| - 1;
    assert schedule[k..] == schedule[..n][k..] + [schedule[n]];
    LinesAppend(schedule[..n][k..], [schedule[n]]);
  }

  lemma NoLines()
    ensures Lines([]) == []
  {
  }

  /** A line that leaves no bytes in any buffer: empty, or too long for one. */
  predicate Traceless(line: string) { line == "" || |line| >= SIZE }

  /** Every line appended from action `k` on is traceless. */
  ghost predicate TracelessFrom(schedule: seq<Action>, k: nat) {
    forall i :: k <= i < |schedule| && schedule[i].Append? ==> Traceless(schedule[i].line)
  }

  lemma FittingTraceless(lines: seq<string>, a: Action)
    ensures Fitting(lines + Lines([a])) == "" <==> Fitting(lines) == "" && (a.Append? ==> Traceless(a.line))
  {
    assert [a][1..] == [] && lines + [] == lines;
    if a.Append? {
      FittingSnoc(lines, a.line);
    }
    hide Fitting;
  }

  lemma {:induction false} TracelessTail(schedule: seq<Action>, k: nat)
    requires k <= |schedule|
    ensures Fitting(Lines(schedule[k..])) == "" <==> TracelessFrom(schedule, k)
    decreases |schedule|
  {
    if k == |schedule| {
      assert schedule[k..] == [];
    } else {
      hide Fitting, Lines, Traceless;
      var n := |schedule| - 1;
      TracelessTail(schedule[..n], k);
      TailSnoc(schedule, k);
      FittingTraceless(Lines(schedule[..n][k..]), schedule[n]);
      assert forall i :: 0 <= i < n ==> schedule[..n][i] == schedule[i];
    }
  }

  /**
   When the thread has ended, the file is complete exactly if every line appended after the last swap is empty
   or too long for a buffer.
   */
  lemma CompleteAtExit(schedule: seq<Action>)
    ensures var s := Execute(INIT, schedule);
            s.pc.Done? ==>
              (s.file == Fitting(Lines(schedule))
               <==> TracelessFrom(schedule, LastSwap(schedule)))
  {
    Reached(schedule);
    SinceSwapIs(schedule);
    TracelessTail(schedule, LastSwap(schedule));
    var s := Execute(INIT, schedule);
    hide Execute, Lines, LastSwap, TracelessFrom;
    if s.pc.Done? {
      assert s.file + "" == s.file;
      assert s.file + Fitting(s.sinceSwap) == Fitting(s.log);
    }
  }

  /** A line appended before the stop can stay unwritten. */
  lemma StopLosesTail(line: string)
    requires 0 < |line| < SIZE
    ensures var s := Execute(INIT, [Append(line), Stop, Test]);
            s.pc.Done? && s.file == "" && Fitting(Lines([Append(line), Stop, Test])) == line
  {
    var s1 := AppendStep(INIT, line);
    var s2 := s1.(running := false);
    assert [Append(line), Stop, Test][1..] == [Stop, Test] && [Stop, Test][1..] == [Test] && [Test][1..] == [];
    assert Execute(INIT, [Append(line), Stop, Test]) == Execute(s1, [Stop, Test]);
    assert Execute(s1, [Stop, Test]) == Execute(s2, [Test]);
    assert Execute(s2, [Test]) == Execute(s2.(pc := Done), []);
    assert Lines([Test]) == [] && Lines([Stop, Test]) == [];
    assert Lines([Append(line), Stop, Test]) == [line];
    assert Fitting([line]) == line by { assert [line][..0] == []; }
  }

  /** Writing steps for everything that is left. */
  function Writes(n: nat): (a: seq<Action>) { if n == 0 then [] else [WriteOne] + Writes(n - 1) }

  lemma {:induction false} ExecuteAppend(s: State, a: seq<Action>, b: seq<Action>)
    ensures Execute(s, a + b) == Execute(Execute(s, a), b)
    decreases |a|
  {
    if a == [] {
      assert a + b == b;
    } else {
      assert (a + b)[1..] == a[1..] + b;
      ExecuteAppend(if Enabled(s, a[0]) then Step(s, a[0]) else s, a[1..], b);
    }
  }

  lemma {:induction false} WritesAll(s: State)
    requires s.pc.Writing? && s.pc.written <= |s.toWrite|
    ensures Execute(s, Writes(|s.toWrite| - s.pc.written)) == s.(pc := Writing(|s.toWrite|), file := s.file + Bytes(Unwritten(s)))
    decreases |s.toWrite| - s.pc.written
  {
    var k := s.pc.written;
    if k == |s.toWrite| {
      assert s.file + Bytes([]) == s.file;
    } else {
      var t := Step(s, WriteOne);
      assert s.toWrite[k..] == [s.toWrite[k]] + s.toWrite[k + 1..];
      BytesAppend([s.toWrite[k]], s.toWrite[k + 1..]);
      BytesOne(s.toWrite[k]);
      Associative(s.file, s.toWrite[k].data, Bytes(s.toWrite[k + 1..]));
      WritesAll(t);
      assert ([WriteOne] + Writes(|s.toWrite| - k - 1))[1..] == Writes(|s.toWrite| - k - 1);
    }
  }

  /** One undisturbed turn of the loop, while running, writes everything appended before it. */
  lemma OneTurnWritesAll(s: State)
    requires Inv(s) && s.pc.LoopHead? && s.running
    ensures Execute(s, [Test, Swap] + Writes(|s.buffers| + 1)).file == Fitting(s.log)
  {
    hide Execute, Writes, Bytes, Fitting, SwapStep, Unwritten;
    var r := s.(pc := AtMutex);
    QuietStepKeeps(s, r);
    AfterSwap(r);
    TestAndSwap(s);
    ExecuteAppend(s, [Test, Swap], Writes(|s.buffers| + 1));
    WritesAll(SwapStep(r));
  }

  /** After a swap, file and buffers to write are all that was appended. */
  lemma AfterSwap(s: State)
    requires Inv(s) && s.pc.AtMutex?
    ensures var t := SwapStep(s);
            && t.pc == Writing(0) && |t.toWrite| == |s.buffers| + 1
            && t.file + Bytes(Unwritten(t)) == Fitting(s.log)
  {
    hide Bytes;
    SwapKeepsConserved(s);
    var t := SwapStep(s);
    assert Fitting([]) == "" && t.sinceSwap == [] && t.log == s.log;
    assert t.file + Bytes(Unwritten(t)) + "" == t.file + Bytes(Unwritten(t));
  }

  lemma TestAndSwap(s: State)
    requires SparesReady(s) && s.pc.LoopHead? && s.running
    ensures Execute(s, [Test, Swap]) == SwapStep(s.(pc := AtMutex))
  {
    assert [Test, Swap][1..] == [Swap] && [Swap][1..] == [];
    assert Execute(s, [Test, Swap]) == Execute(s.(pc := AtMutex), [Swap]);
  }

  lemma SwapKeepsInv(s: State)
    requires Inv(s) && s.pc.AtMutex?
    ensures s.new1.Some? && Inv(SwapStep(s))
  {
    hide Conserved, SingleOwner, NoStarvation;
    StepKeepsInv(s, Swap);
  }

  lemma RecycleKeepsInv(s: State)
    requires Inv(s) && Enabled(s, Recycle)
    ensures Inv(RecycleStep(s))
  {
    hide Inv;
    StepKeepsInv(s, Recycle);
  }

  // ----- the source -----

  /** The object, with the local variables of the logging thread as further fields. */
  class Logger {
    var current: Buffer
    var next: Option<Buffer>
    var buffers: seq<Buffer>
    var newBuffer1: Option<Buffer>
    var newBuffer2: Option<Buffer>
    var buffersToWrite: seq<Buffer>
    var output: string
    var running: bool
    var nextId: nat
    var pc: Pc
    ghost var log: seq<string>
    ghost var sinceSwap: seq<string>

    ghost function View(): (s: State)
      reads this
    {
      State(current, next, buffers, pc, newBuffer1, newBuffer2, buffersToWrite, output, running, nextId, log, sinceSwap)
    }

    constructor ()
      ensures View() == INIT && Inv(View())
    {
      current, next, buffers := Buffer(0, ""), Some(Buffer(1, "")), [];
      newBuffer1, newBuffer2, buffersToWrite, output := Some(Buffer(2, "")), Some(Buffer(3, "")), [], "";
      running, nextId := true, 4;
      pc, log, sinceSwap := LoopHead, [], [];
      new;
      InitInv();
    }

    method Append(line: string)
      requires Inv(View())
      modifies this
      ensures View() == AppendStep(old(View()), line) && Inv(View())
    {
      hide Inv;
      StepKeepsInv(View(), Action.Append(line));
      log, sinceSwap := log + [line], sinceSwap + [line];
      if Avail(current) > |line| {
        current := Store(current, line);
      } else {
        buffers := buffers + [current];
        if next.Some? {
          current, next := next.value, None;
        } else {
          current := Buffer(nextId, "");
          nextId := nextId + 1;
        }
        current := Store(current, line);
      }
    }

    method Stop()
      requires Inv(View())
      modifies this
      ensures View() == Step(old(View()), Action.Stop) && Inv(View())
    {
      hide Inv;
      StepKeepsInv(View(), Action.Stop);
      running := false;
    }

    /** The condition of the loop, and what is asserted at its head. */
    method TestRunning() returns (goOn: bool)
      requires Inv(View()) && pc.LoopHead?
      modifies this
      ensures View() == Step(old(View()), Test) && Inv(View()) && goOn == pc.AtMutex?
    {
      hide Inv;
      InvGivesSpares(View());
      StepKeepsInv(View(), Test);
      goOn := running;
      pc := if goOn then AtMutex else Done;
      assert newBuffer1.Some? && newBuffer1.value.data == "";
      assert newBuffer2.Some? && newBuffer2.value.data == "";
      assert buffersToWrite == [];
    }

    /** The block that holds the mutex, once the wait is over. */
    method SwapBuffers()
      requires Inv(View()) && pc.AtMutex?
      modifies this
      ensures View() == SwapStep(old(View())) && Inv(View()) && buffersToWrite != []
    {
      hide Inv, SparesReady;
      ghost var s := View();
      SwapReady(s);
      SwapKeepsInv(s);
      var full := buffers + [current];
      current, newBuffer1 := newBuffer1.value, None;
      buffersToWrite, buffers, pc, sinceSwap := full, buffersToWrite, Writing(0), [];
      if next.None? {
        next, newBuffer2 := newBuffer2, None;
      }
      assert View() == SwapStep(s);
    }

    /** The body of the loop over the buffers to write. */
    method WriteBuffer()
      requires Inv(View()) && Enabled(View(), WriteOne)
      modifies this
      ensures View() == Step(old(View()), WriteOne) && Inv(View())
    {
      hide Inv;
      StepKeepsInv(View(), WriteOne);
      var i := pc.written;
      output := output + buffersToWrite[i].data;
      pc := Writing(i + 1);
    }

    /** From the end of that loop to the next turn. */
    method RecycleBuffers()
      requires Inv(View()) && Enabled(View(), Recycle)
      modifies this
      ensures View() == RecycleStep(old(View())) && Inv(View())
    {
      hide Inv;
      ghost var s := View();
      InvGivesSpares(s);
      RecycleKeepsInv(s);
      if |buffersToWrite| > 2 {
        buffersToWrite := buffersToWrite[..2];
      }
      if newBuffer1.None? {
        assert buffersToWrite != [];
        var last := |buffersToWrite| - 1;
        newBuffer1, buffersToWrite := Some(Reset(buffersToWrite[last])), buffersToWrite[..last];
      }
      if newBuffer2.None? {
        assert buffersToWrite != [];
        var last := |buffersToWrite| - 1;
        newBuffer2, buffersToWrite := Some(Reset(buffersToWrite[last])), buffersToWrite[..last];
      }
      buffersToWrite, pc := [], LoopHead;
    }
  }
}
