/** Records of several producers: what a buffer holds, and what one producer sees of it. */
module LogRecords {
  import opened LogSizes

  /** A line and the partition whose producer appended it. */
  datatype Record = Record(partition: nat, line: string)

  /** A `FixedBuffer`, as the lines stored in it. */
  type Buffer = seq<Record>

  function Length(b: Buffer): (n: nat) {
    if b == [] then 0 else Length(b[..|b| - 1]) + |b[|b| - 1].line|
  }

  /** `FixedBuffer::append`: a line that does not fit is dropped. */
  function Store(b: Buffer, r: Record): (c: Buffer) {
    if SIZE - Length(b) > |r.line| then b + [r] else b
  }

  function Flat(bs: seq<Buffer>): (rs: seq<Record>) {
    if bs == [] then [] else bs[0] + Flat(bs[1..])
  }

  /** The lines of partition `p`, in order. */
  function Only(p: nat, rs: seq<Record>): (lines: seq<string>) {
    if rs == [] then [] else (if rs[0].partition == p then [rs[0].line] else []) + Only(p, rs[1..])
  }

  /** The records short enough for an empty buffer. */
  function Fitting(rs: seq<Record>): (fs: seq<Record>) {
    if rs == [] then [] else (if |rs[0].line| < SIZE then [rs[0]] else []) + Fitting(rs[1..])
  }

  lemma {:induction false} OnlyAppend(p: nat, a: seq<Record>, b: seq<Record>)
    ensures Only(p, a + b) == Only(p, a) + Only(p, b)
  {
    if a == [] {
      assert a + b == b;
    } else {
      assert (a + b)[1..] == a[1..] + b;
      OnlyAppend(p, a[1..], b);
    }
  }

  lemma {:induction false} FlatAppend(a: seq<Buffer>, b: seq<Buffer>)
    ensures Flat(a + b) == Flat(a) + Flat(b)
  {
    if a == [] {
      assert a + b == b;
    } else {
      assert (a + b)[1..] == a[1..] + b;
      FlatAppend(a[1..], b);
    }
  }

  lemma FlatOne(b: Buffer)
    ensures Flat([b]) == b
  {
    assert [b][1..] == [];
  }

  lemma {:induction false} FittingAppend(a: seq<Record>, b: seq<Record>)
    ensures Fitting(a + b) == Fitting(a) + Fitting(b)
  {
    if a == [] {
      assert a + b == b;
    } else {
      assert (a + b)[1..] == a[1..] + b;
      FittingAppend(a[1..], b);
    }
  }

  lemma OnlyOne(p: nat, r: Record)
    ensures Only(p, [r]) == if r.partition == p then [r.line] else []
    ensures Fitting([r]) == if |r.line| < SIZE then [r] else []
  {
    assert [r][1..] == [];
  }

  /** No record is dropped exactly if every line is shorter than a buffer. */
  lemma {:induction false} NothingDropped(rs: seq<Record>)
    ensures |Fitting(rs)| == |rs| <==> forall i :: 0 <= i < |rs| ==> |rs[i].line| < SIZE
    ensures |Fitting(rs)| == |rs| <==> Fitting(rs) == rs
    ensures |Fitting(rs)| <= |rs|
  {
    if rs != [] {
      NothingDropped(rs[1..]);
      assert rs == [rs[0]] + rs[1..];
      if |rs[0].line| < SIZE {
        assert Fitting(rs)[1..] == Fitting(rs[1..]);
      }
    }
  }

  ghost predicate OwnedBy(p: nat, b: Buffer) { forall i :: 0 <= i < |b| ==> b[i].partition == p }

  lemma {:induction false} OnlyOfOther(p: nat, q: nat, b: Buffer)
    requires OwnedBy(q, b) && p != q
    ensures Only(p, b) == []
  {
    if b != [] {
      OnlyOfOther(p, q, b[1..]);
    }
  }

  /** How often a record occurs is visible in the projection to its partition. */
  lemma {:induction false} CountInProjection(r: Record, rs: seq<Record>)
    ensures multiset(rs)[r] == multiset(Only(r.partition, rs))[r.line]
  {
    if rs != [] {
      CountInProjection(r, rs[1..]);
      assert rs == [rs[0]] + rs[1..];
    }
  }

  /** Records with the same projections are the same records, each as often. */
  lemma SameProjections(a: seq<Record>, b: seq<Record>)
    requires forall p: nat :: Only(p, a) == Only(p, b)
    ensures multiset(a) == multiset(b)
  {
    forall r: Record ensures multiset(a)[r] == multiset(b)[r] {
      CountInProjection(r, a);
      CountInProjection(r, b);
    }
  }
}

/**
 `LoggingBase` with one buffer per partition, as `AsyncLoggingDoubleBufferingShards` uses it.  A producer
 writes to its own partition, without a lock until its buffer is full; `ThreadLoop` swaps, writes and recycles.
 Each partition has one producer, and the producers have stopped when the final drain begins.
 */
module ShardedLogging {
  import opened LogRecords
  import opened LogSizes

  /** Where the logging thread is in `ThreadLoop`. */
  datatype Pc =
    | LoopHead | AtMutex | Writing(written: nat)
    | Flushing(next: nat) | LastWriting(written: nat) | Done

  datatype State = State(
    perThread: seq<Buffer>, buffers: seq<Buffer>, empty: seq<Buffer>,
    pc: Pc, toWrite: seq<Buffer>, file: seq<Record>, running: bool,
    log: seq<Record>)

  datatype Action =
    | Append(partition: nat, line: string)
    | Stop | Test | Swap | WriteOne
    | Refill(sorted: seq<Buffer>)
    | Flush | WriteLast

  /** The constructor: `n` partitions, and at most six spare buffers. */
  function Init(n: nat): (s: State) {
    State(seq(n, _ => []), [], seq(if n < 6 then n else 6, _ => []), LoopHead, [], [], true, [])
  }

  /** The last spare buffer, or a new one. */
  function Spare(empty: seq<Buffer>): (r: (Buffer, seq<Buffer>)) {
    if empty == [] then ([], []) else (empty[|empty| - 1], empty[..|empty| - 1])
  }

  function AppendStep(s: State, p: nat, line: string): (t: State)
    requires p < |s.perThread|
  {
    var r, b := Record(p, line), s.perThread[p];
    var t := s.(log := s.log + [r]);
    if SIZE - Length(b) > |line| then t.(perThread := s.perThread[p := Store(b, r)])
    else
      var (spare, empty) := Spare(s.empty);
      t.(buffers := s.buffers + [b], empty := empty, perThread := s.perThread[p := Store(spare, r)])
  }

  /** One turn of the loop in `FlushBuffers`. */
  function FlushStep(s: State, i: nat): (t: State)
    requires i < |s.perThread|
  {
    var (spare, empty) := Spare(s.empty);
    s.(buffers := s.buffers + [s.perThread[i]], empty := empty, perThread := s.perThread[i := spare], pc := Flushing(i + 1))
  }

  /** The order that `SortBuffers` may leave: longest first, ties in any order. */
  ghost predicate SortedByLength(sorted: seq<Buffer>, bs: seq<Buffer>) {
    && multiset(sorted) == multiset(bs)
    && forall i, j :: 0 <= i < j < |sorted| ==> Length(sorted[i]) >= Length(sorted[j])
  }

  /** `SortBuffers` drops all but 2 * partitions buffers; `RefillEmpty` resets the rest, last one first. */
  function RefillStep(s: State, sorted: seq<Buffer>): (t: State) {
    var threshold := 2 * |s.perThread|;
    var kept := if |sorted| > threshold then threshold else |sorted|;
    s.(empty := s.empty + seq(kept, _ => []), toWrite := [], pc := LoopHead)
  }

  ghost predicate Enabled(s: State, a: Action) {
    match a
    case Append(p, _) => p < |s.perThread| && (s.pc.LoopHead? || s.pc.AtMutex? || s.pc.Writing?)
    case Stop => true
    case Test => s.pc.LoopHead?
    case Swap => s.pc.AtMutex?
    case WriteOne => s.pc.Writing? && s.pc.written < |s.toWrite|
    case Refill(sorted) => s.pc.Writing? && s.pc.written == |s.toWrite| && SortedByLength(sorted, s.toWrite)
    case Flush => s.pc.Flushing?
    case WriteLast => s.pc.LastWriting?
  }

  ghost function Step(s: State, a: Action): (t: State)
    requires Enabled(s, a)
  {
    match a
    case Append(p, line) => AppendStep(s, p, line)
    case Stop => s.(running := false)
    case Test => s.(pc := if s.running then AtMutex else Flushing(0))
    case Swap =>
      s.(toWrite := s.buffers, buffers := s.toWrite, pc := if s.buffers == [] then LoopHead else Writing(0))
    case WriteOne => s.(file := s.file + s.toWrite[s.pc.written], pc := Writing(s.pc.written + 1))
    case Refill(sorted) => RefillStep(s, sorted)
    case Flush => if s.pc.next < |s.perThread| then FlushStep(s, s.pc.next) else s.(pc := LastWriting(0))
    case WriteLast =>
      if s.pc.written < |s.buffers| then
        s.(file := s.file + s.buffers[s.pc.written], pc := LastWriting(s.pc.written + 1))
      else s.(pc := Done)
  }

  ghost function Execute(s: State, schedule: seq<Action>): (t: State)
    decreases |schedule|
  {
    if schedule == [] then s
    else Execute(if Enabled(s, schedule[0]) then Step(s, schedule[0]) else s, schedule[1..])
  }

  // ----- invariants -----

  ghost predicate AllEmpty(bs: seq<Buffer>) { forall i :: 0 <= i < |bs| ==> bs[i] == [] }

  ghost predicate Phase(s: State) {
    match s.pc
    case Writing(k) => k <= |s.toWrite|
    case Flushing(i) => s.toWrite == [] && i <= |s.perThread| && AllEmpty(s.perThread[..i])
    case LastWriting(k) => s.toWrite == [] && k <= |s.buffers| && AllEmpty(s.perThread)
    case Done => AllEmpty(s.perThread)
    case _ => s.toWrite == []
  }

  /** A partition's buffer holds only lines of that partition. */
  ghost predicate Sharded(s: State) {
    forall p :: 0 <= p < |s.perThread| ==> OwnedBy(p, s.perThread[p])
  }

  /** Buffers that were handed over and are not yet in the file, in order. */
  function Pending(s: State): (bs: seq<Buffer>) {
    match s.pc
    case Writing(k) => (if k <= |s.toWrite| then s.toWrite[k..] else []) + s.buffers
    case LastWriting(k) => if k <= |s.buffers| then s.buffers[k..] else []
    case Done => []
    case _ => s.buffers
  }

  function Mine(s: State, p: nat): (b: Buffer) { if p < |s.perThread| then s.perThread[p] else [] }

  /** For partition `p`: file, pending buffers and its own buffer hold its lines in the order of appending. */
  ghost predicate ConservedFor(s: State, p: nat) {
    Only(p, s.file) + Only(p, Flat(Pending(s))) + Only(p, Mine(s, p)) == Only(p, Fitting(s.log))
  }

  ghost predicate Conserved(s: State) { forall p: nat :: ConservedFor(s, p) }

  ghost predicate Inv(s: State) { AllEmpty(s.empty) && Phase(s) && Sharded(s) && Conserved(s) }

  // ----- handing over a buffer -----

  lemma Triple(a: seq<string>, b: seq<string>, c: seq<string>)
    ensures a + (b + c) == a + b + c
  {
  }

  /** Only the bytes matter: pushing partition q's buffer and giving it an empty one keeps everyone's lines. */
  lemma PushKeeps(s: State, q: nat, p: nat)
    requires Sharded(s) && q < |s.perThread| && ConservedFor(s, p)
    ensures Only(p, s.file) + Only(p, Flat(Pending(s) + [s.perThread[q]])) + Only(p, if p == q then [] else Mine(s, p))
         == Only(p, Fitting(s.log))
  {
    var b := s.perThread[q];
    FlatAppend(Pending(s), [b]);
    FlatOne(b);
    OnlyAppend(p, Flat(Pending(s)), b);
    hide Only, Flat, Fitting, Pending;
    if p == q {
      Triple(Only(p, s.file), Only(p, Flat(Pending(s))), Only(p, b));
      OnlyNothing(p);
    } else {
      OnlyOfOther(p, q, b);
    }
  }

  lemma OnlyNothing(p: nat)
    ensures Only(p, []) == []
  {
  }

  /** What a new line adds to the lines of partition `p`. */
  function NewLine(q: nat, line: string, p: nat): (lines: seq<string>) {
    if p == q && |line| < SIZE then [line] else []
  }

  lemma NewLineInLog(log: seq<Record>, q: nat, line: string, p: nat)
    ensures Only(p, Fitting(log + [Record(q, line)])) == Only(p, Fitting(log)) + NewLine(q, line, p)
  {
    var r := Record(q, line);
    FittingAppend(log, [r]);
    OnlyOne(p, r);
    OnlyAppend(p, Fitting(log), Fitting([r]));
    OnlyNothing(p);
  }

  lemma NewLineInBuffer(b: Buffer, q: nat, line: string, p: nat)
    ensures Only(p, b + (if |line| < SIZE then [Record(q, line)] else [])) == Only(p, b) + NewLine(q, line, p)
  {
    var kept := if |line| < SIZE then [Record(q, line)] else [];
    OnlyAppend(p, b, kept);
    OnlyOne(p, Record(q, line));
    OnlyNothing(p);
  }

  /** Storing a line at the end of its own partition's buffer. */
  lemma StoreKeeps(s: State, t: State, q: nat, line: string, p: nat)
    requires q < |s.perThread| && ConservedFor(s, p)
    requires t == s.(log := s.log + [Record(q, line)],
                     perThread := s.perThread[q := s.perThread[q] + (if |line| < SIZE then [Record(q, line)] else [])])
    ensures ConservedFor(t, p)
  {
    assert Pending(t) == Pending(s);
    hide Only, Flat, Fitting, Pending, NewLine, Mine;
    NewLineInLog(s.log, q, line, p);
    MineStored(s, t, q, line, p);
    Triple(Only(p, s.file) + Only(p, Flat(Pending(s))), Only(p, Mine(s, p)), NewLine(q, line, p));
  }

  lemma MineStored(s: State, t: State, q: nat, line: string, p: nat)
    requires q < |s.perThread|
    requires t.perThread == s.perThread[q := s.perThread[q] + (if |line| < SIZE then [Record(q, line)] else [])]
    ensures Only(p, Mine(t, p)) == Only(p, Mine(s, p)) + NewLine(q, line, p)
  {
    hide Only, NewLine;
    if p == q {
      NewLineInBuffer(s.perThread[q], q, line, p);
    } else {
      NoNewLine(q, line, p);
      assert Only(p, Mine(s, p)) + [] == Only(p, Mine(s, p));
    }
  }

  lemma NoNewLine(q: nat, line: string, p: nat)
    requires p != q
    ensures NewLine(q, line, p) == []
  {
  }

  /** The state after the full buffer was handed over and before the line is stored in the new one. */
  function Pushed(s: State, q: nat): (t: State)
    requires q < |s.perThread|
  {
    s.(buffers := s.buffers + [s.perThread[q]], empty := Spare(s.empty).1, perThread := s.perThread[q := []])
  }

  lemma PushedConserves(s: State, q: nat, p: nat)
    requires Sharded(s) && q < |s.perThread| && ConservedFor(s, p)
    requires s.pc.LoopHead? || s.pc.AtMutex? || s.pc.Writing? || s.pc.Flushing?
    ensures ConservedFor(Pushed(s, q), p)
  {
    hide Only, Flat, Fitting;
    var t := Pushed(s, q);
    assert Pending(t) == Pending(s) + [s.perThread[q]];
    PushKeeps(s, q, p);
    assert Mine(t, p) == if p == q then [] else Mine(s, p);
  }

  lemma PushedInv(s: State, q: nat)
    requires Inv(s) && q < |s.perThread|
    requires s.pc.LoopHead? || s.pc.AtMutex? || s.pc.Writing?
    ensures Inv(Pushed(s, q))
  {
    var t := Pushed(s, q);
    hide ConservedFor;
    forall p: nat ensures ConservedFor(t, p) {
      assert ConservedFor(s, p);
      PushedConserves(s, q, p);
    }
  }

  lemma StoredInv(s: State, t: State, q: nat, line: string)
    requires Inv(s) && q < |s.perThread|
    requires s.pc.LoopHead? || s.pc.AtMutex? || s.pc.Writing?
    requires t == s.(log := s.log + [Record(q, line)],
                     perThread := s.perThread[q := s.perThread[q] + (if |line| < SIZE then [Record(q, line)] else [])])
    ensures Inv(t)
  {
    hide ConservedFor;
    forall p: nat ensures ConservedFor(t, p) {
      assert ConservedFor(s, p);
      StoreKeeps(s, t, q, line, p);
    }
  }

  lemma AppendInv(s: State, q: nat, line: string)
    requires Inv(s) && Enabled(s, Append(q, line))
    ensures Inv(AppendStep(s, q, line))
  {
    hide Inv;
    var t := AppendStep(s, q, line);
    if SIZE - Length(s.perThread[q]) > |line| {
      StoredInv(s, t, q, line);
    } else {
      var u := Pushed(s, q);
      PushedInv(s, q);
      SpareIsEmpty(s);
      assert u.perThread[q] == [];
      assert u.perThread[q := Store([], Record(q, line))] == t.perThread;
      assert Store([], Record(q, line)) == [] + (if |line| < SIZE then [Record(q, line)] else []);
      StoredInv(u, t, q, line);
    }
  }

  lemma SpareIsEmpty(s: State)
    requires Inv(s)
    ensures Spare(s.empty).0 == [] && AllEmpty(Spare(s.empty).1)
  {
  }

  // ----- the steps of the logging thread -----

  /** A step that only moves bytes from the pending buffers to the file, or nothing at all. */
  lemma MoveKeeps(s: State, t: State, moved: Buffer)
    requires Conserved(s) && t.perThread == s.perThread && t.log == s.log
    requires t.file == s.file + moved && Flat(Pending(s)) == moved + Flat(Pending(t))
    ensures Conserved(t)
  {
    forall p: nat ensures ConservedFor(t, p) {
      assert ConservedFor(s, p);
      OnlyAppend(p, s.file, moved);
      OnlyAppend(p, moved, Flat(Pending(t)));
      hide Only, Flat, Pending, Fitting;
      Triple(Only(p, s.file), Only(p, moved), Only(p, Flat(Pending(t))));
      assert Mine(t, p) == Mine(s, p);
    }
  }

  lemma SamePending(s: State, t: State)
    requires Conserved(s) && t.perThread == s.perThread && t.log == s.log && t.file == s.file
    requires Flat(Pending(t)) == Flat(Pending(s))
    ensures Conserved(t)
  {
    assert t.file == s.file + [];
    assert Flat(Pending(s)) == [] + Flat(Pending(t));
    MoveKeeps(s, t, []);
  }

  lemma FlatSplit(bs: seq<Buffer>, k: nat)
    requires k < |bs|
    ensures Flat(bs[k..]) == bs[k] + Flat(bs[k + 1..])
  {
    assert bs[k..][1..] == bs[k + 1..];
  }

  lemma WriteInv(s: State)
    requires Inv(s) && Enabled(s, WriteOne)
    ensures Inv(Step(s, WriteOne))
  {
    var t, k := Step(s, WriteOne), s.pc.written;
    FlatSplit(s.toWrite, k);
    FlatAppend(s.toWrite[k..], s.buffers);
    FlatAppend(s.toWrite[k + 1..], s.buffers);
    hide Conserved, Flat;
    assert s.toWrite[k] + (Flat(s.toWrite[k + 1..]) + Flat(s.buffers)) == Flat(Pending(s));
    MoveKeeps(s, t, s.toWrite[k]);
  }

  lemma SwapInv(s: State)
    requires Inv(s) && s.pc.AtMutex?
    ensures Inv(Step(s, Swap))
  {
    var t := Step(s, Swap);
    assert Pending(t) == Pending(s) by {
      if s.buffers != [] {
        assert t.toWrite[0..] + [] == s.buffers;
      }
    }
    hide Conserved;
    SamePending(s, t);
  }

  lemma RefillInv(s: State, sorted: seq<Buffer>)
    requires Inv(s) && s.pc.Writing? && s.pc.written == |s.toWrite|
    ensures Inv(RefillStep(s, sorted))
  {
    var t := RefillStep(s, sorted);
    assert s.toWrite[|s.toWrite|..] == [] && [] + s.buffers == s.buffers;
    hide Conserved;
    SamePending(s, t);
  }

  lemma FlushInv(s: State)
    requires Inv(s) && s.pc.Flushing?
    ensures Inv(Step(s, Flush))
  {
    hide Only, Flat, Fitting, SortedByLength, Length;
    var t, i := Step(s, Flush), s.pc.next;
    if i < |s.perThread| {
      SpareIsEmpty(s);
      var u := Pushed(s, i);
      assert t == u.(pc := Flushing(i + 1));
      assert Pending(t) == Pending(u);
      forall p: nat ensures ConservedFor(t, p) {
        assert ConservedFor(s, p);
        PushedConserves(s, i, p);
        assert Mine(t, p) == Mine(u, p);
      }
      assert t.perThread[..i + 1] == s.perThread[..i] + [[]];
    } else {
      assert s.perThread[..i] == s.perThread;
      assert s.buffers[0..] == s.buffers;
      SamePending(s, t);
    }
  }

  lemma WriteLastInv(s: State)
    requires Inv(s) && s.pc.LastWriting?
    ensures Inv(Step(s, WriteLast))
  {
    var t, k := Step(s, WriteLast), s.pc.written;
    hide Conserved;
    if k < |s.buffers| {
      FlatSplit(s.buffers, k);
      MoveKeeps(s, t, s.buffers[k]);
    } else {
      assert s.buffers[k..] == [];
      SamePending(s, t);
    }
  }

  lemma TestInv(s: State)
    requires Inv(s) && s.pc.LoopHead?
    ensures Inv(Step(s, Test))
  {
    hide Conserved;
    SamePending(s, Step(s, Test));
  }

  lemma StopInv(s: State)
    requires Inv(s)
    ensures Inv(Step(s, Stop))
  {
    hide Conserved;
    SamePending(s, Step(s, Stop));
  }

  lemma StepInv(s: State, a: Action)
    requires Inv(s) && Enabled(s, a)
    ensures Inv(Step(s, a))
  {
    hide Inv;
    match a
    case Append(p, line) => AppendInv(s, p, line);
    case Stop => StopInv(s);
    case Test => TestInv(s);
    case Swap => SwapInv(s);
    case WriteOne => WriteInv(s);
    case Refill(sorted) => RefillInv(s, sorted);
    case Flush => FlushInv(s);
    case WriteLast => WriteLastInv(s);
  }

  lemma InitInv(n: nat)
    ensures Inv(Init(n))
  {
    var s := Init(n);
    forall p: nat ensures ConservedFor(s, p) {
      assert Mine(s, p) == [];
      OnlyNothing(p);
    }
  }

  lemma {:induction false} ExecuteInv(s: State, schedule: seq<Action>)
    requires Inv(s)
    ensures Inv(Execute(s, schedule))
    decreases |schedule|
  {
    hide Inv;
    if schedule != [] {
      if Enabled(s, schedule[0]) {
        StepInv(s, schedule[0]);
        ExecuteInv(Step(s, schedule[0]), schedule[1..]);
      } else {
        ExecuteInv(s, schedule[1..]);
      }
    }
  }

  // ----- the main results -----

  /** In every interleaving each partition's lines are in the file in the order of appending, none twice. */
  lemma PartitionOrder(n: nat, schedule: seq<Action>, p: nat)
    ensures var s := Execute(Init(n), schedule);
            && Only(p, s.file) <= Only(p, Fitting(s.log))
            && Only(p, s.file) + Only(p, Flat(Pending(s))) + Only(p, Mine(s, p)) == Only(p, Fitting(s.log))
  {
    InitInv(n);
    ExecuteInv(Init(n), schedule);
    var s := Execute(Init(n), schedule);
    hide Execute, Only, Fitting, Flat, Pending;
    assert ConservedFor(s, p);
    Triple(Only(p, s.file), Only(p, Flat(Pending(s))), Only(p, Mine(s, p)));
  }

  /** Spare buffers are always empty. */
  lemma SparesAreEmpty(n: nat, schedule: seq<Action>)
    ensures AllEmpty(Execute(Init(n), schedule).empty)
  {
    InitInv(n);
    ExecuteInv(Init(n), schedule);
  }

  lemma DoneIsComplete(s: State, p: nat)
    requires Inv(s) && s.pc.Done?
    ensures Only(p, s.file) == Only(p, Fitting(s.log))
  {
    assert ConservedFor(s, p);
    assert Mine(s, p) == [] && Flat(Pending(s)) == [];
    OnlyNothing(p);
    hide Only, Fitting;
    assert Only(p, s.file) + [] + [] == Only(p, s.file);
  }

  /** When `ThreadLoop` has returned, every line that fits was written exactly once. */
  lemma Drained(n: nat, schedule: seq<Action>)
    ensures var s := Execute(Init(n), schedule);
            s.pc.Done? ==>
              && (forall p: nat :: Only(p, s.file) == Only(p, Fitting(s.log)))
              && multiset(s.file) == multiset(Fitting(s.log))
  {
    InitInv(n);
    ExecuteInv(Init(n), schedule);
    var s := Execute(Init(n), schedule);
    hide Execute, Fitting, Inv, Only;
    if s.pc.Done? {
      forall p: nat ensures Only(p, s.file) == Only(p, Fitting(s.log)) { DoneIsComplete(s, p); }
      SameProjections(s.file, Fitting(s.log));
    }
  }

  /** The records that the producers of a schedule append: those appended before the final drain began. */
  ghost function Accepted(s: State, schedule: seq<Action>): (rs: seq<Record>)
    decreases |schedule|
  {
    if schedule == [] then []
    else if !Enabled(s, schedule[0]) then Accepted(s, schedule[1..])
    else
      (if schedule[0].Append? then [Record(schedule[0].partition, schedule[0].line)] else [])
        + Accepted(Step(s, schedule[0]), schedule[1..])
  }

  /** What one action of a schedule does; one that is not possible now is skipped. */
  ghost function Next(s: State, a: Action): (t: State) { if Enabled(s, a) then Step(s, a) else s }

  ghost function NewRecords(s: State, a: Action): (rs: seq<Record>) {
    if Enabled(s, a) && a.Append? then [Record(a.partition, a.line)] else []
  }

  lemma ScheduleCons(s: State, schedule: seq<Action>)
    requires schedule != []
    ensures Execute(s, schedule) == Execute(Next(s, schedule[0]), schedule[1..])
    ensures Accepted(s, schedule) == NewRecords(s, schedule[0]) + Accepted(Next(s, schedule[0]), schedule[1..])
  {
    hide Step, Enabled;
    assert [] + Accepted(s, schedule[1..]) == Accepted(s, schedule[1..]);
  }

  lemma NextLog(s: State, a: Action)
    ensures Next(s, a).log == s.log + NewRecords(s, a)
  {
    hide Step, Enabled;
    if Enabled(s, a) {
      StepLog(s, a);
    }
    assert s.log + [] == s.log;
  }

  lemma {:induction false} LogIsAccepted(s: State, schedule: seq<Action>)
    ensures Execute(s, schedule).log == s.log + Accepted(s, schedule)
    decreases |schedule|
  {
    if schedule != [] {
      ScheduleCons(s, schedule);
      NextLog(s, schedule[0]);
      LogIsAccepted(Next(s, schedule[0]), schedule[1..]);
      hide Execute, Accepted, Next, NewRecords;
    }
  }

  /** When the thread has ended, every accepted record is in the file exactly if every accepted line fits. */
  lemma NothingLost(n: nat, schedule: seq<Action>)
    ensures var s, rs := Execute(Init(n), schedule), Accepted(Init(n), schedule);
            s.pc.Done? ==> (multiset(s.file) == multiset(rs) <==> forall i :: 0 <= i < |rs| ==> |rs[i].line| < 4_000_000)
  {
    hide Execute, Accepted, Fitting;
    var rs := Accepted(Init(n), schedule);
    Drained(n, schedule);
    LogIsAccepted(Init(n), schedule);
    assert [] + rs == rs;
    NothingDropped(rs);
    assert |multiset(Fitting(rs))| == |Fitting(rs)| && |multiset(rs)| == |rs|;
  }

  lemma StepLog(s: State, a: Action)
    requires Enabled(s, a)
    ensures Step(s, a).log == if a.Append? then s.log + [Record(a.partition, a.line)] else s.log
  {
  }

  // ----- the final drain comes to an end -----

  function Repeat(a: Action, k: nat): (r: seq<Action>)
    ensures |r| == k && forall i :: 0 <= i < k ==> r[i] == a
  {
    if k == 0 then [] else [a] + Repeat(a, k - 1)
  }

  lemma {:induction false} FlushesFinish(s: State)
    requires s.pc.Flushing? && s.pc.next <= |s.perThread|
    ensures var t := Execute(s, Repeat(Flush, |s.perThread| - s.pc.next + 1));
            t.pc == LastWriting(0) && |t.buffers| == |s.buffers| + |s.perThread| - s.pc.next
    decreases |s.perThread| - s.pc.next
  {
    var k := |s.perThread| - s.pc.next;
    var t := Step(s, Flush);
    assert ([Flush] + Repeat(Flush, k))[1..] == Repeat(Flush, k);
    assert Execute(s, Repeat(Flush, k + 1)) == Execute(t, Repeat(Flush, k));
    if k > 0 {
      FlushesFinish(t);
    }
  }

  lemma {:induction false} LastWritesFinish(s: State)
    requires s.pc.LastWriting? && s.pc.written <= |s.buffers|
    ensures Execute(s, Repeat(WriteLast, |s.buffers| - s.pc.written + 1)).pc.Done?
    decreases |s.buffers| - s.pc.written
  {
    var k := |s.buffers| - s.pc.written;
    var t := Step(s, WriteLast);
    assert ([WriteLast] + Repeat(WriteLast, k))[1..] == Repeat(WriteLast, k);
    assert Execute(s, Repeat(WriteLast, k + 1)) == Execute(t, Repeat(WriteLast, k));
    if k > 0 {
      LastWritesFinish(t);
    }
  }

  lemma {:induction false} ExecuteAppend(s: State, a: seq<Action>, b: seq<Action>)
    ensures Execute(s, a + b) == Execute(Execute(s, a), b)
    decreases |a|
  {
    if a == [] {
      assert a + b == b;
    } else {
      assert (a + b)[1..] == a[1..] + b;
      ExecuteAppend(if Enabled(s, a[0]) then Step(s, a[0]) else s, a[1..], b);
    }
  }

  /** From the moment the loop ends, the thread reaches the end of `ThreadLoop` and everything is in the file. */
  lemma DrainFinishes(s: State, p: nat)
    requires Inv(s) && s.pc == Flushing(0)
    ensures var n, m := |s.perThread|, |s.buffers|;
            var t := Execute(s, Repeat(Flush, n + 1) + Repeat(WriteLast, m + n + 1));
            t.pc.Done? && t.log == s.log && Only(p, t.file) == Only(p, Fitting(s.log))
  {
    hide Inv, Execute, Only, Fitting, Accepted;
    var n, m := |s.perThread|, |s.buffers|;
    var a, b := Repeat(Flush, n + 1), Repeat(WriteLast, m + n + 1);
    FlushesFinish(s);
    LastWritesFinish(Execute(s, a));
    ExecuteAppend(s, a, b);
    ExecuteInv(s, a + b);
    LogIsAccepted(s, a + b);
    NothingAccepted(s, a + b);
    assert s.log + [] == s.log;
    DoneIsComplete(Execute(s, a + b), p);
  }

  lemma {:induction false} NothingAccepted(s: State, schedule: seq<Action>)
    requires forall i :: 0 <= i < |schedule| ==> !schedule[i].Append?
    ensures Accepted(s, schedule) == []
    decreases |schedule|
  {
    if schedule != [] {
      NothingAccepted(if Enabled(s, schedule[0]) then Step(s, schedule[0]) else s, schedule[1..]);
    }
  }

  // ----- after a stop the thread ends, and only then -----

  function InsertByLength(b: Buffer, bs: seq<Buffer>): (r: seq<Buffer>) {
    if bs == [] || Length(b) >= Length(bs[0]) then [b] + bs else [bs[0]] + InsertByLength(b, bs[1..])
  }

  /** One order that `SortBuffers` may leave. */
  function SortByLength(bs: seq<Buffer>): (r: seq<Buffer>) {
    if bs == [] then [] else InsertByLength(bs[0], SortByLength(bs[1..]))
  }

  ghost predicate Falling(bs: seq<Buffer>) {
    forall i, j :: 0 <= i < j < |bs| ==> Length(bs[i]) >= Length(bs[j])
  }

  ghost predicate Bounded(bs: seq<Buffer>, n: nat) { forall i :: 0 <= i < |bs| ==> Length(bs[i]) <= n }

  lemma FallingCons(b: Buffer, bs: seq<Buffer>)
    requires Falling(bs) && Bounded(bs, Length(b))
    ensures Falling([b] + bs)
  {
    hide Length;
  }

  lemma FallingTail(bs: seq<Buffer>)
    requires Falling(bs) && bs != []
    ensures Falling(bs[1..]) && Bounded(bs, Length(bs[0])) && Bounded(bs[1..], Length(bs[0]))
  {
    hide Length;
  }

  lemma {:induction false} InsertBounded(b: Buffer, bs: seq<Buffer>, n: nat)
    requires Bounded(bs, n) && Length(b) <= n
    ensures Bounded(InsertByLength(b, bs), n)
  {
    hide Length;
    if bs != [] {
      InsertBounded(b, bs[1..], n);
    }
  }

  lemma {:induction false} Inserts(b: Buffer, bs: seq<Buffer>)
    requires Falling(bs)
    ensures Falling(InsertByLength(b, bs)) && multiset(InsertByLength(b, bs)) == multiset(bs) + multiset{b}
  {
    hide Length, Falling, Bounded;
    if bs == [] {
      assert Bounded([], Length(b)) && Falling([]) by { NothingFalls(Length(b)); }
      FallingCons(b, []);
    } else {
      assert bs == [bs[0]] + bs[1..];
      FallingTail(bs);
      if Length(b) >= Length(bs[0]) {
        BoundedMore(bs, Length(bs[0]), Length(b));
        FallingCons(b, bs);
      } else {
        Inserts(b, bs[1..]);
        InsertBounded(b, bs[1..], Length(bs[0]));
        FallingCons(bs[0], InsertByLength(b, bs[1..]));
      }
    }
  }

  lemma NothingFalls(n: nat)
    ensures Bounded([], n) && Falling([])
  {
  }

  lemma BoundedMore(bs: seq<Buffer>, n: nat, m: nat)
    requires Bounded(bs, n) && n <= m
    ensures Bounded(bs, m)
  {
    hide Length;
  }

  lemma {:induction false} Sorts(bs: seq<Buffer>)
    ensures SortedByLength(SortByLength(bs), bs)
  {
    hide Length;
    if bs != [] {
      Sorts(bs[1..]);
      Inserts(bs[0], SortByLength(bs[1..]));
      assert bs == [bs[0]] + bs[1..];
    }
  }

  ghost predicate Draining(pc: Pc) { pc.Flushing? || pc.LastWriting? || pc.Done? }

  /** From a loop head of a stopped logger to the end: `n` partitions, `m` buffers handed over. */
  ghost function DrainSteps(n: nat, m: nat): (a: seq<Action>) {
    [Test] + (Repeat(Flush, n + 1) + Repeat(WriteLast, m + n + 1))
  }

  /** From the writing loop, with `k` buffers to go, to the loop head. */
  ghost function WriteSteps(k: nat, toWrite: seq<Buffer>): (a: seq<Action>) {
    Repeat(WriteOne, k) + [Refill(SortByLength(toWrite))]
  }

  /** What the thread still does once the logger is stopped. */
  ghost function LastSteps(s: State): (a: seq<Action>) {
    var n := |s.perThread|;
    match s.pc
    case LoopHead => DrainSteps(n, |s.buffers|)
    case AtMutex => [Swap] + ((if s.buffers == [] then [] else WriteSteps(|s.buffers|, s.buffers)) + DrainSteps(n, 0))
    case Writing(k) =>
      WriteSteps(if k <= |s.toWrite| then |s.toWrite| - k else 0, s.toWrite) + DrainSteps(n, |s.buffers|)
    case _ => []
  }

  lemma ExecuteFirst(s: State, a: Action, rest: seq<Action>)
    ensures Execute(s, [a] + rest) == Execute(Next(s, a), rest)
  {
    hide Step, Enabled;
    assert ([a] + rest)[1..] == rest;
  }

  lemma ExecuteOne(s: State, a: Action)
    ensures Execute(s, [a]) == Next(s, a)
  {
    assert [a] == [a] + [];
    ExecuteFirst(s, a, []);
  }

  lemma FromLoopHead(s: State, p: nat)
    requires Inv(s) && s.pc.LoopHead? && !s.running
    ensures var t := Execute(s, DrainSteps(|s.perThread|, |s.buffers|));
            t.pc.Done? && t.log == s.log && Only(p, t.file) == Only(p, Fitting(s.log))
  {
    hide Execute, Inv, Only, Fitting, Repeat, SortedByLength;
    var u := s.(pc := Flushing(0));
    StepInv(s, Test);
    assert Next(s, Test) == u == Step(s, Test);
    ExecuteFirst(s, Test, Repeat(Flush, |s.perThread| + 1) + Repeat(WriteLast, |s.buffers| + |s.perThread| + 1));
    DrainFinishes(u, p);
  }

  lemma {:induction false} WritesOut(s: State)
    requires s.pc.Writing? && s.pc.written <= |s.toWrite|
    ensures var t := Execute(s, Repeat(WriteOne, |s.toWrite| - s.pc.written));
            t == s.(pc := Writing(|s.toWrite|), file := t.file)
    decreases |s.toWrite| - s.pc.written
  {
    if s.pc.written < |s.toWrite| {
      var k := |s.toWrite| - s.pc.written - 1;
      var t := Step(s, WriteOne);
      WritesOut(t);
      hide Execute;
      ExecuteFirst(s, WriteOne, Repeat(WriteOne, k));
    }
  }

  lemma BackToLoopHead(s: State)
    requires Inv(s) && s.pc.Writing?
    ensures s.pc.written <= |s.toWrite|
    ensures var t := Execute(s, WriteSteps(|s.toWrite| - s.pc.written, s.toWrite));
            && Inv(t) && t.pc.LoopHead? && t.running == s.running && t.log == s.log
            && t.perThread == s.perThread && t.buffers == s.buffers
  {
    hide Execute, Inv, SortedByLength, SortByLength, Repeat, Next;
    WritingBound(s);
    var k, sorted := |s.toWrite| - s.pc.written, SortByLength(s.toWrite);
    var u := Execute(s, Repeat(WriteOne, k));
    WritesOut(s);
    ExecuteInv(s, WriteSteps(k, s.toWrite));
    Sorts(s.toWrite);
    ExecuteAppend(s, Repeat(WriteOne, k), [Refill(sorted)]);
    ExecuteOne(u, Refill(sorted));
    RefillNext(u, sorted);
  }

  lemma WritingBound(s: State)
    requires Inv(s) && s.pc.Writing?
    ensures s.pc.written <= |s.toWrite|
  {
  }

  lemma RefillNext(s: State, sorted: seq<Buffer>)
    requires s.pc == Writing(|s.toWrite|) && SortedByLength(sorted, s.toWrite)
    ensures var t := Next(s, Refill(sorted));
            && t.pc.LoopHead? && t.running == s.running && t.log == s.log
            && t.perThread == s.perThread && t.buffers == s.buffers
  {
    hide SortedByLength;
  }

  /**
   From every reachable state of a stopped logger that is not yet draining, the steps that the thread still does
   end with every partition's lines in the file.
   */
  lemma StopFinishes(s: State, p: nat)
    requires Inv(s) && !s.running && !Draining(s.pc)
    ensures var t := Execute(s, LastSteps(s));
            t.pc.Done? && t.log == s.log && Only(p, t.file) == Only(p, Fitting(s.log))
  {
    match s.pc
    case LoopHead => FromLoopHead(s, p);
    case AtMutex => FromMutex(s, p);
    case Writing(_) => FromWriting(s, p);
  }

  lemma FromWriting(s: State, p: nat)
    requires Inv(s) && !s.running && s.pc.Writing?
    ensures s.pc.written <= |s.toWrite|
    ensures var t := Execute(s, WriteSteps(|s.toWrite| - s.pc.written, s.toWrite) + DrainSteps(|s.perThread|, |s.buffers|));
            t.pc.Done? && t.log == s.log && Only(p, t.file) == Only(p, Fitting(s.log))
  {
    hide Execute, Inv, Only, Fitting, WriteSteps, DrainSteps;
    BackToLoopHead(s);
    var w := WriteSteps(|s.toWrite| - s.pc.written, s.toWrite);
    FromLoopHead(Execute(s, w), p);
    ExecuteAppend(s, w, DrainSteps(|s.perThread|, |s.buffers|));
  }

  lemma FromMutex(s: State, p: nat)
    requires Inv(s) && !s.running && s.pc.AtMutex?
    ensures var t := Execute(s, LastSteps(s));
            t.pc.Done? && t.log == s.log && Only(p, t.file) == Only(p, Fitting(s.log))
  {
    var u := Step(s, Swap);
    StepInv(s, Swap);
    assert s.toWrite == [] && u.buffers == [] && u.toWrite == s.buffers;
    hide Execute, Inv, Only, Fitting, WriteSteps, DrainSteps;
    var n := |s.perThread|;
    var w := if s.buffers == [] then [] else WriteSteps(|s.buffers|, s.buffers);
    ExecuteFirst(s, Swap, w + DrainSteps(n, 0));
    if s.buffers == [] {
      assert [] + DrainSteps(n, 0) == DrainSteps(n, 0);
      FromLoopHead(u, p);
    } else {
      FromWriting(u, p);
    }
  }

  ghost predicate HasStop(schedule: seq<Action>) { exists i :: 0 <= i < |schedule| && schedule[i].Stop? }

  lemma {:induction false} Stopping(s: State, schedule: seq<Action>)
    requires s.running ==> !Draining(s.pc)
    ensures var t := Execute(s, schedule);
            && (t.running <==> s.running && !HasStop(schedule))
            && (t.running ==> !Draining(t.pc))
    decreases |schedule|
  {
    if schedule != [] {
      var rest := schedule[1..];
      ScheduleCons(s, schedule);
      assert HasStop(schedule) <==> schedule[0].Stop? || HasStop(rest) by {
        if i :| 0 <= i < |schedule| && schedule[i].Stop? {
          assert i > 0 ==> rest[i - 1].Stop?;
        }
        if i :| 0 <= i < |rest| && rest[i].Stop? {
          assert schedule[i + 1].Stop?;
        }
      }
      hide Execute, HasStop, Accepted;
      Stopping(Next(s, schedule[0]), rest);
    }
  }

  /** In every schedule the logger runs until a stop, and the thread drains or ends only after one. */
  lemma EndsOnlyAfterStop(n: nat, schedule: seq<Action>)
    ensures var s := Execute(Init(n), schedule);
            && (s.running <==> !HasStop(schedule))
            && (Draining(s.pc) ==> HasStop(schedule))
  {
    Stopping(Init(n), schedule);
  }

  // ----- how many buffers there are -----

  function Total(s: State): (n: nat) { |s.perThread| + |s.buffers| + |s.toWrite| + |s.empty| }

  /** The action hands over a partition's buffer. */
  ghost predicate HandsOver(s: State, a: Action) {
    && Enabled(s, a)
    && match a
       case Append(p, line) => Length(s.perThread[p]) + |line| >= SIZE
       case Flush => s.pc.next < |s.perThread|
       case _ => false
  }

  /** A buffer is made by an action that hands one over while there is no spare one. */
  ghost function Made(s: State, a: Action): (n: nat) { if HandsOver(s, a) && s.empty == [] then 1 else 0 }

  /** Buffers are given up by a refill, if more were written than twice the number of partitions. */
  ghost function Dropped(s: State, a: Action): (n: nat) {
    if Enabled(s, a) && a.Refill? && |s.toWrite| > 2 * |s.perThread| then |s.toWrite| - 2 * |s.perThread| else 0
  }

  ghost function AllMade(s: State, schedule: seq<Action>): (n: nat)
    decreases |schedule|
  {
    if schedule == [] then 0 else Made(s, schedule[0]) + AllMade(Next(s, schedule[0]), schedule[1..])
  }

  ghost function AllDropped(s: State, schedule: seq<Action>): (n: nat)
    decreases |schedule|
  {
    if schedule == [] then 0 else Dropped(s, schedule[0]) + AllDropped(Next(s, schedule[0]), schedule[1..])
  }

  lemma NextTotal(s: State, a: Action)
    ensures Total(Next(s, a)) == Total(s) + Made(s, a) - Dropped(s, a)
  {
    if Enabled(s, a) && a.Refill? {
      assert |multiset(a.sorted)| == |multiset(s.toWrite)|;
    }
  }

  lemma {:induction false} TotalIs(s: State, schedule: seq<Action>)
    ensures Total(Execute(s, schedule)) == Total(s) + AllMade(s, schedule) - AllDropped(s, schedule)
    decreases |schedule|
  {
    if schedule != [] {
      ScheduleCons(s, schedule);
      NextTotal(s, schedule[0]);
      hide Execute, Next, Total, Made, Dropped, Accepted;
      TotalIs(Next(s, schedule[0]), schedule[1..]);
    }
  }

  /**
   Spare buffers are used before new ones are made: in every schedule the number of buffers is that of the
   beginning, plus one for each hand-over without a spare, minus those given up.
   */
  lemma BufferBalance(n: nat, schedule: seq<Action>)
    ensures Total(Execute(Init(n), schedule)) + AllDropped(Init(n), schedule)
         == n + (if n < 6 then n else 6) + AllMade(Init(n), schedule)
  {
    hide Execute, AllMade, AllDropped;
    TotalIs(Init(n), schedule);
  }

  // ----- the source -----

  /** The object, with the local variables of `ThreadLoop` as further fields. */
  class Logger {
    var bufferPerThread: seq<Buffer>
    var buffers: seq<Buffer>
    var emptyBuffers: seq<Buffer>
    var buffersToWrite: seq<Buffer>
    var output: seq<Record>
    var running: bool
    ghost var pc: Pc
    ghost var log: seq<Record>

    ghost function View(): (s: State)
      reads this
    {
      State(bufferPerThread, buffers, emptyBuffers, pc, buffersToWrite, output, running, log)
    }

    constructor (partitions: nat)
      ensures View() == Init(partitions) && Inv(View())
    {
      var perThread: seq<Buffer>, empty: seq<Buffer> := [], [];
      for i := 0 to partitions
        invariant |perThread| == i && AllEmpty(perThread)
        invariant |empty| == (if i < 6 then i else 6) && AllEmpty(empty)
      {
        perThread := perThread + [[]];
        if i < 6 {
          empty := empty + [[]];
        }
      }
      bufferPerThread, emptyBuffers := perThread, empty;
      buffers, buffersToWrite, output, running := [], [], [], true;
      pc, log := LoopHead, [];
      new;
      assert perThread == Init(partitions).perThread && empty == Init(partitions).empty;
      InitInv(partitions);
    }

    /** `AsyncLoggingDoubleBufferingShards::append` by the producer of partition `index`. */
    method Append(index: nat, line: string)
      requires Inv(View()) && Enabled(View(), Action.Append(index, line))
      modifies this
      ensures View() == AppendStep(old(View()), index, line) && Inv(View())
    {
      hide Inv;
      StepInv(View(), Action.Append(index, line));
      var r, b := Record(index, line), bufferPerThread[index];
      log := log + [r];
      if SIZE - Length(b) > |line| {
        bufferPerThread := bufferPerThread[index := Store(b, r)];
      } else {
        buffers := buffers + [b];
        var spare: Buffer := [];
        if emptyBuffers != [] {
          spare := emptyBuffers[|emptyBuffers| - 1];
          emptyBuffers := emptyBuffers[..|emptyBuffers| - 1];
        }
        bufferPerThread := bufferPerThread[index := Store(spare, r)];
      }
    }

    /** The condition of the loop, and what is asserted at its head. */
    method TestRunning() returns (goOn: bool)
      requires Inv(View()) && pc.LoopHead?
      modifies this
      ensures View() == Step(old(View()), Test) && Inv(View())
      ensures goOn == old(running) && pc == (if goOn then AtMutex else Flushing(0))
    {
      assert buffersToWrite == [];
      hide Inv;
      StepInv(View(), Test);
      goOn := running;
      pc := if goOn then AtMutex else Flushing(0);
    }

    method Stop()
      requires Inv(View())
      modifies this
      ensures View() == Step(old(View()), Action.Stop) && Inv(View()) && !running
    {
      hide Inv;
      StepInv(View(), Action.Stop);
      running := false;
    }

    /** One turn of `WriteBuffersToFile(buffersToWrite, output)`. */
    method WriteBuffer(i: nat)
      requires Inv(View()) && pc == Writing(i) && i < |buffersToWrite|
      modifies this
      ensures View() == Step(old(View()), WriteOne) && Inv(View())
    {
      hide Inv;
      StepInv(View(), WriteOne);
      output := output + buffersToWrite[i];
      pc := Writing(i + 1);
    }

    /** The locked block of the loop. */
    method SwapBuffers()
      requires Inv(View()) && pc.AtMutex?
      modifies this
      ensures View() == Step(old(View()), Swap) && Inv(View())
    {
      hide Inv;
      StepInv(View(), Swap);
      buffersToWrite, buffers := buffers, buffersToWrite;
      pc := if buffersToWrite == [] then LoopHead else Writing(0);
    }

    /** `RefillEmpty` after `SortBuffers` has left the order `sorted`. */
    method SortAndRefill(sorted: seq<Buffer>)
      requires Inv(View()) && Enabled(View(), Refill(sorted))
      modifies this
      ensures View() == RefillStep(old(View()), sorted) && Inv(View())
    {
      hide Inv;
      StepInv(View(), Refill(sorted));
      var threshold := 2 * |bufferPerThread|;
      var toWrite := if |sorted| > threshold then sorted[..threshold] else sorted;
      var empty := emptyBuffers;
      while toWrite != []
        invariant |empty| + |toWrite| == |emptyBuffers| + (if |sorted| > threshold then threshold else |sorted|)
        invariant emptyBuffers <= empty && AllEmpty(empty[|emptyBuffers|..])
        decreases |toWrite|
      {
        empty := empty + [[]];
        toWrite := toWrite[..|toWrite| - 1];
      }
      assert empty == emptyBuffers + empty[|emptyBuffers|..];
      emptyBuffers, buffersToWrite, pc := empty, [], LoopHead;
    }

    /** What follows the loop of `ThreadLoop`: flush, then write everything that is left. */
    method FinalDrain()
      requires Inv(View()) && pc == Flushing(0)
      modifies this
      ensures Inv(View()) && pc.Done? && log == old(log)
      ensures forall p: nat :: Only(p, output) == Only(p, Fitting(log))
    {
      FlushBuffers();
      WriteBuffersToFile();
      hide Inv, Only, Fitting;
      forall p: nat ensures Only(p, output) == Only(p, Fitting(log)) { DoneIsComplete(View(), p); }
    }

    method FlushBuffers()
      requires Inv(View()) && pc == Flushing(0)
      modifies this
      ensures Inv(View()) && pc == LastWriting(0) && log == old(log)
    {
      hide Inv;
      var i := 0;
      while i < |bufferPerThread|
        invariant i <= |bufferPerThread| && pc == Flushing(i) && Inv(View()) && log == old(log)
        decreases |bufferPerThread| - i
      {
        StepInv(View(), Flush);
        ghost var s := View();
        buffers := buffers + [bufferPerThread[i]];
        var spare: Buffer := [];
        if emptyBuffers != [] {
          spare := emptyBuffers[|emptyBuffers| - 1];
          emptyBuffers := emptyBuffers[..|emptyBuffers| - 1];
        }
        bufferPerThread := bufferPerThread[i := spare];
        i := i + 1;
        pc := Flushing(i);
        assert View() == FlushStep(s, i - 1);
      }
      StepInv(View(), Flush);
      pc := LastWriting(0);
    }

    /** `WriteBuffersToFile(buffers_, output)` */
    method WriteBuffersToFile()
      requires Inv(View()) && pc == LastWriting(0)
      modifies this
      ensures Inv(View()) && pc.Done? && log == old(log)
    {
      hide Inv;
      for i := 0 to |buffers|
        invariant pc == LastWriting(i) && Inv(View()) && log == old(log) && buffers == old(buffers)
      {
        StepInv(View(), WriteLast);
        output := output + buffers[i];
        pc := LastWriting(i + 1);
      }
      StepInv(View(), WriteLast);
      pc := Done;
    }
  }
}
