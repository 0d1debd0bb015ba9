/** Cyclic runs of cells: the index arithmetic of `Buffer` on plain sequences. */
module Ring {
  type Byte = bv8

  /** The cell `k` steps after `i`, in a ring of `cap` cells. */
  function Cell(cap: nat, i: nat, k: nat): (c: nat)
    requires i < cap && k <= cap
    ensures c < cap
  {
    if i + k < cap then i + k else i + k - cap
  }

  /** How many steps lead from cell `r` to cell `w`. */
  function Distance(cap: nat, r: nat, w: nat): (d: nat)
    requires r < cap && w < cap
    ensures d < cap && Cell(cap, r, d) == w
  {
    if r <= w then w - r else w + cap - r
  }

  /** The bytes in `n` cells from cell `i` on. */
  function Run(b: seq<Byte>, i: nat, n: nat): (s: seq<Byte>)
    requires i < |b| && n <= |b|
    ensures |s| == n && forall k :: 0 <= k < n ==> s[k] == b[Cell(|b|, i, k)]
  {
    seq(n, k requires 0 <= k < n => b[Cell(|b|, i, k)])
  }

  /** A run is one slice, or a slice up to the end and one from the start. */
  lemma RunIsSlices(b: seq<Byte>, i: nat, n: nat)
    requires i < |b| && n <= |b|
    ensures i + n <= |b| ==> Run(b, i, n) == b[i..i + n]
    ensures i + n >= |b| ==> Run(b, i, n) == b[i..] + b[..i + n - |b|]
  {
  }

  lemma DistanceOfCell(cap: nat, r: nat, n: nat)
    requires r < cap && n < cap
    ensures Distance(cap, r, Cell(cap, r, n)) == n
  {
  }

  lemma CellAdd(cap: nat, i: nat, m: nat, n: nat)
    requires i < cap && m + n <= cap && m < cap
    ensures Cell(cap, Cell(cap, i, m), n) == Cell(cap, i, m + n)
  {
  }

  /** Runs can be cut anywhere. */
  lemma RunSplit(b: seq<Byte>, i: nat, m: nat, n: nat)
    requires i < |b| && m < |b| && m + n <= |b|
    ensures Run(b, i, m + n) == Run(b, i, m) + Run(b, Cell(|b|, i, m), n)
  {
    forall k | 0 <= k < n ensures Run(b, i, m + n)[m + k] == Run(b, Cell(|b|, i, m), n)[k] {
      CellAdd(|b|, i, m, k);
    }
  }

  /** Moving the reader forward drops the oldest bytes of the readable run. */
  lemma DropRun(b: seq<Byte>, r: nat, w: nat, len: nat)
    requires r < |b| && w < |b| && len <= Distance(|b|, r, w)
    ensures var n, r' := Distance(|b|, r, w), Cell(|b|, r, len);
            && Distance(|b|, r', w) == n - len
            && Run(b, r', n - len) == Run(b, r, n)[len..]
            && Run(b, r, len) == Run(b, r, n)[..len]
  {
    var n := Distance(|b|, r, w);
    RunSplit(b, r, len, n - len);
  }

  lemma MoveBytes(put: seq<Byte>, taken: seq<Byte>, s: seq<Byte>, len: nat)
    requires put == taken + s && len <= |s|
    ensures put == (taken + s[..len]) + s[len..]
  {
  }

  /** Different steps within one round reach different cells. */
  lemma CellInjective(cap: nat, i: nat, j: nat, k: nat)
    requires i < cap && j < cap && k < cap && j != k
    ensures Cell(cap, i, j) != Cell(cap, i, k)
  {
  }

  /** `b'` is `b` with `data` written from cell `w` on. */
  ghost predicate Written(b: seq<Byte>, b': seq<Byte>, w: nat, data: seq<Byte>)
    requires w < |b| && |data| <= |b|
  {
    && |b'| == |b|
    && Run(b', w, |data|) == data
    && forall k :: |data| <= k < |b| ==> b'[Cell(|b|, w, k)] == b[Cell(|b|, w, k)]
  }

  /** Writing into free cells extends the readable run by what was written. */
  lemma AppendRun(b: seq<Byte>, b': seq<Byte>, r: nat, n: nat, data: seq<Byte>)
    requires r < |b| && n < |b| && n + |data| < |b|
    requires Written(b, b', Cell(|b|, r, n), data)
    ensures Run(b', r, n) == Run(b, r, n)
    ensures Run(b', r, n + |data|) == Run(b, r, n) + data
  {
    var cap, w := |b|, Cell(|b|, r, n);
    forall k | 0 <= k < n ensures b'[Cell(cap, r, k)] == b[Cell(cap, r, k)] {
      var back := cap - n + k;
      assert Cell(cap, w, back) == Cell(cap, r, k);
      assert |data| <= back < cap;
    }
    RunSplit(b', r, n, |data|);
  }

  /** Growing by new cells at the end keeps a run that does not wrap. */
  lemma GrowStraight(b: seq<Byte>, b': seq<Byte>, r: nat, n: nat)
    requires r < |b| && r + n <= |b| <= |b'| && b'[..|b|] == b
    ensures Run(b', r, n) == Run(b, r, n)
  {
    RunIsSlices(b, r, n);
    RunIsSlices(b', r, n);
  }

  /** A wrapped run that is copied to the start of a larger ring. */
  lemma GrowWrapped(b: seq<Byte>, b': seq<Byte>, r: nat, n: nat)
    requires r < |b| && r + n >= |b| && n <= |b| <= |b'|
    requires b'[..n] == b[r..] + b[..r + n - |b|]
    ensures Run(b', 0, n) == Run(b, r, n)
  {
    RunIsSlices(b, r, n);
    RunIsSlices(b', 0, n);
  }
}

/** The scatter and gather lists that `ReadFd` and `WriteFd` hand to the kernel. */
module RingVectors {
  import opened Ring

  /** One iovec entry: consecutive cells of the ring, or the overflow area on the stack. */
  datatype Iovec = Cells(start: nat, len: nat) | Extra(len: nat)

  const EXTRA: nat := 65536

  /** The cells an iovec list covers, in order. */
  function CellsOf(v: seq<Iovec>): (c: seq<nat>) {
    if v == [] then []
    else if v[0].Extra? then CellsOf(v[1..])
    else seq(v[0].len, k requires k >= 0 => v[0].start + k) + CellsOf(v[1..])
  }

  function TotalLen(v: seq<Iovec>): (n: nat) {
    if v == [] then 0 else v[0].len + TotalLen(v[1..])
  }

  /** The cells of a run, in order. */
  function RunCells(cap: nat, i: nat, n: nat): (c: seq<nat>)
    requires i < cap && n <= cap
    ensures |c| == n && forall k :: 0 <= k < n ==> c[k] == Cell(cap, i, k)
  {
    seq(n, k requires 0 <= k < n => Cell(cap, i, k))
  }

  /** The list built by `ReadFd`. */
  function ReadVector(cap: nat, r: nat, w: nat): (v: seq<Iovec>)
    requires r < cap && w < cap
  {
    var free :=
      if r <= w then
        if r == 0 then [Cells(w, cap - 1 - w)]
        else if r > 1 then [Cells(w, cap - w), Cells(0, r - 1)]
        else [Cells(w, cap - w)]
      else [Cells(w, r - 1 - w)];
    if cap - 1 - Distance(cap, r, w) < EXTRA then free + [Extra(EXTRA)] else free
  }

  /** The list built by `WriteFd`; empty when there is nothing to write. */
  function WriteVector(cap: nat, r: nat, w: nat): (v: seq<Iovec>)
    requires r < cap && w < cap
  {
    if r < w then [Cells(r, w - r)]
    else if r == w then []
    else if w != 0 then [Cells(r, cap - r), Cells(0, w)]
    else [Cells(r, cap - r)]
  }

  lemma OneEntry(e: Iovec)
    ensures CellsOf([e]) == if e.Extra? then [] else seq(e.len, k requires k >= 0 => e.start + k)
    ensures TotalLen([e]) == e.len
  {
    assert [e][1..] == [];
  }

  lemma ConsEntry(e: Iovec, v: seq<Iovec>)
    ensures CellsOf([e] + v) == CellsOf([e]) + CellsOf(v)
    ensures TotalLen([e] + v) == e.len + TotalLen(v)
  {
    OneEntry(e);
    assert ([e] + v)[1..] == v;
  }

  lemma {:induction false} VectorAppend(u: seq<Iovec>, v: seq<Iovec>)
    ensures CellsOf(u + v) == CellsOf(u) + CellsOf(v)
    ensures TotalLen(u + v) == TotalLen(u) + TotalLen(v)
  {
    if u == [] {
      assert u + v == v;
    } else {
      assert u + v == [u[0]] + (u[1..] + v);
      assert u == [u[0]] + u[1..];
      ConsEntry(u[0], u[1..] + v);
      ConsEntry(u[0], u[1..]);
      VectorAppend(u[1..], v);
    }
  }

  /** One or two slices of cells make up a run. */
  lemma OneSlice(cap: nat, i: nat, n: nat)
    requires i < cap && i + n <= cap
    ensures CellsOf([Cells(i, n)]) == RunCells(cap, i, n)
  {
    OneEntry(Cells(i, n));
  }

  lemma TwoSlices(cap: nat, i: nat, n: nat)
    requires n <= i < cap
    ensures CellsOf([Cells(i, cap - i), Cells(0, n)]) == RunCells(cap, i, cap - i + n)
    ensures TotalLen([Cells(i, cap - i), Cells(0, n)]) == cap - i + n
  {
    var a, b := Cells(i, cap - i), Cells(0, n);
    assert [a, b] == [a] + [b];
    ConsEntry(a, [b]);
    OneEntry(a);
    OneEntry(b);
  }

  /**
   `ReadFd` offers the kernel exactly the free cells, in ring order starting at the writer, so that no
   offered cell is readable; the overflow area comes last and only when little is free.
   */
  lemma ReadVectorIsFree(cap: nat, r: nat, w: nat)
    requires r < cap && w < cap
    ensures var v, free := ReadVector(cap, r, w), cap - 1 - Distance(cap, r, w);
            && CellsOf(v) == RunCells(cap, w, free)
            && TotalLen(v) == free + (if free < 65536 then 65536 else 0)
            && |v| <= 3
            && (forall i :: 0 <= i < |v| && v[i].Extra? ==> i == |v| - 1)
  {
    var free := cap - 1 - Distance(cap, r, w);
    var v :=
      if r <= w then
        if r == 0 then [Cells(w, cap - 1 - w)]
        else if r > 1 then [Cells(w, cap - w), Cells(0, r - 1)]
        else [Cells(w, cap - w)]
      else [Cells(w, r - 1 - w)];
    if r <= w && r > 1 {
      TwoSlices(cap, w, r - 1);
    } else {
      OneSlice(cap, w, v[0].len);
      OneEntry(v[0]);
    }
    OneEntry(Extra(EXTRA));
    VectorAppend(v, [Extra(EXTRA)]);
    assert CellsOf(v) + [] == CellsOf(v);
  }

  /** `WriteFd` offers exactly the readable cells, in ring order starting at the reader. */
  lemma WriteVectorIsReadable(cap: nat, r: nat, w: nat)
    requires r < cap && w < cap
    ensures var v := WriteVector(cap, r, w);
            && CellsOf(v) == RunCells(cap, r, Distance(cap, r, w))
            && TotalLen(v) == Distance(cap, r, w)
            && |v| <= 2
  {
    if r < w {
      OneSlice(cap, r, w - r);
      OneEntry(Cells(r, w - r));
    } else if r > w && w != 0 {
      TwoSlices(cap, r, w);
    } else if r > w {
      OneSlice(cap, r, cap - r);
      OneEntry(Cells(r, cap - r));
    }
  }
}

module RingBuffer {
  import opened Ring
  import opened RingVectors

  /** What the kernel does with a `readv`: fail with an error number, or deliver bytes. */
  datatype Received = Failed(errno: int) | Data(bytes: seq<Byte>)

  /** What a user of the buffer can do; the numbers of bytes the kernel takes or gives may be anything. */
  datatype Op =
    | OpAppend(data: seq<Byte>) | OpRemove(len: nat) | OpReceive(len: nat) | OpRetrieve(len: nat) | OpRetrieveAll
    | OpReadFd(received: Received) | OpWriteFd(accepted: int)

  /** The first `n` bytes, or all of them. */
  function AtMost(s: seq<Byte>, n: nat): (t: seq<Byte>)
    ensures t <= s && |t| == if n <= |s| then n else |s|
  {
    if n <= |s| then s[..n] else s
  }

  /** What a user can tell about a buffer: its size and its readable bytes, oldest first. */
  datatype Queue = Queue(capacity: nat, contents: seq<Byte>)

  ghost predicate Fits(q: Queue) { |q.contents| < q.capacity }

  function Free(q: Queue): (n: int) { q.capacity - 1 - |q.contents| }

  /** The most that one read can deliver: the free cells, and the stack buffer if they are few. */
  function Limit(q: Queue): (n: nat)
    requires Fits(q)
  {
    Free(q) + (if Free(q) < EXTRA then EXTRA else 0)
  }

  /** Bytes at the end of the queue; it grows to exactly what they need, and only if they need it. */
  function Put(q: Queue, data: seq<Byte>): (r: Queue)
    requires Fits(q)
    ensures Fits(r) && r.contents == q.contents + data
  {
    Queue(if Free(q) < |data| then |q.contents| + 1 + |data| else q.capacity, q.contents + data)
  }

  /** What an operation puts in. */
  function Come(op: Op, q: Queue): (come: seq<Byte>)
    requires Fits(q)
  {
    match op
    case OpAppend(data) => data
    case OpReadFd(Data(bytes)) => AtMost(bytes, Limit(q))
    case _ => []
  }

  /** What an operation takes out; one that asks for too much takes nothing. */
  function Gone(op: Op, q: Queue): (gone: seq<Byte>)
    ensures gone <= q.contents
  {
    match op
    case OpRemove(len) => if len <= |q.contents| then q.contents[..len] else []
    case OpRetrieve(len) => if len <= |q.contents| then q.contents[..len] else []
    case OpRetrieveAll => q.contents
    case OpWriteFd(accepted) => if accepted > 0 then AtMost(q.contents, accepted) else []
    case _ => []
  }

  function After(op: Op, q: Queue): (r: Queue)
    requires Fits(q)
    ensures Fits(r)
  {
    Put(q.(contents := q.contents[|Gone(op, q)|..]), Come(op, q))
  }

  function AfterAll(ops: seq<Op>, q: Queue): (r: Queue)
    requires Fits(q)
    ensures Fits(r)
    decreases |ops|
  {
    if ops == [] then q else AfterAll(ops[1..], After(ops[0], q))
  }

  /** What a run of operations puts in, one after the other. */
  function AllCome(ops: seq<Op>, q: Queue): (come: seq<Byte>)
    requires Fits(q)
    decreases |ops|
  {
    if ops == [] then [] else Come(ops[0], q) + AllCome(ops[1..], After(ops[0], q))
  }

  /** What a run of operations takes out, one after the other. */
  function AllGone(ops: seq<Op>, q: Queue): (gone: seq<Byte>)
    requires Fits(q)
    decreases |ops|
  {
    if ops == [] then [] else Gone(ops[0], q) + AllGone(ops[1..], After(ops[0], q))
  }

  lemma StepIsFifo(op: Op, q: Queue)
    requires Fits(q)
    ensures Gone(op, q) + After(op, q).contents == q.contents + Come(op, q)
  {
    hide Come;
    var gone := Gone(op, q);
    assert gone == q.contents[..|gone|];
    assert q.contents == gone + q.contents[|gone|..];
  }

  /** What fits does not make the queue grow, and what follows a full queue makes it grow by just that. */
  lemma PutParts(q: Queue, data: seq<Byte>, direct: nat)
    requires Fits(q) && direct == (if |data| <= Free(q) then |data| else Free(q))
    ensures Put(q, data[..direct]) == Queue(q.capacity, q.contents + data[..direct])
    ensures direct == |data| ==> data[..direct] == data
    ensures Put(Put(q, data[..direct]), data[direct..]) == Put(q, data)
  {
    assert data[..direct] + data[direct..] == data;
    assert q.contents + data[..direct] + data[direct..] == q.contents + (data[..direct] + data[direct..]);
  }

  lemma PutNothing(q: Queue)
    requires Fits(q)
    ensures Put(q, []) == q
  {
    assert q.contents + [] == q.contents;
  }

  lemma Unfold(ops: seq<Op>, i: nat, q: Queue)
    requires i < |ops| && Fits(q)
    ensures AfterAll(ops[i..], q) == AfterAll(ops[i + 1..], After(ops[i], q))
    ensures AllCome(ops[i..], q) == Come(ops[i], q) + AllCome(ops[i + 1..], After(ops[i], q))
    ensures AllGone(ops[i..], q) == Gone(ops[i], q) + AllGone(ops[i + 1..], After(ops[i], q))
  {
    hide Come, Gone, After;
    assert ops[i..][1..] == ops[i + 1..];
  }

  lemma Associative(a: seq<Byte>, b: seq<Byte>, c: seq<Byte>)
    ensures a + (b + c) == a + b + c
  {
  }

  lemma RunOfNothing(q: Queue)
    requires Fits(q)
    ensures AfterAll([], q) == q && AllCome([], q) == [] && AllGone([], q) == []
  {
  }

  lemma Takes(op: Op, q: Queue)
    requires Fits(q) && !op.OpAppend? && !(op.OpReadFd? && op.received.Data?)
    ensures Come(op, q) == [] && After(op, q) == Queue(q.capacity, q.contents[|Gone(op, q)|..])
  {
    var gone := q.contents[|Gone(op, q)|..];
    assert gone + [] == gone;
  }

  lemma Gives(op: Op, q: Queue)
    requires Fits(q) && (op.OpAppend? || op.OpReadFd?)
    ensures Gone(op, q) == [] && After(op, q) == Put(q, Come(op, q))
  {
    assert q.contents[0..] == q.contents;
  }

  /** In every run, what comes out and what is left is what was there and what goes in, in order. */
  lemma {:induction false} Fifo(ops: seq<Op>, q: Queue)
    requires Fits(q)
    ensures AllGone(ops, q) + AfterAll(ops, q).contents == q.contents + AllCome(ops, q)
    decreases |ops|
  {
    if ops != [] {
      var q' := After(ops[0], q);
      StepIsFifo(ops[0], q);
      Fifo(ops[1..], q');
      Chain(Gone(ops[0], q), q'.contents, q.contents, Come(ops[0], q),
            AllGone(ops[1..], q'), AfterAll(ops[1..], q').contents, AllCome(ops[1..], q'));
    }
  }

  lemma Chain(output: seq<Byte>, c: seq<Byte>, start: seq<Byte>, input: seq<Byte>, gone: seq<Byte>, c': seq<Byte>, come: seq<Byte>)
    requires output + c == start + input && gone + c' == c + come
    ensures output + gone + c' == start + (input + come)
  {
    assert output + gone + c' == output + (gone + c') == output + c + come;
  }

  const SIZE_MAX: int := 0xffff_ffff_ffff_ffff

  /**
   The growing ring buffer.  One cell always stays unused, to tell full from empty.  `put` and `taken` record
   every byte that ever entered and left; that they account for the contents is part of the invariant.
   */
  class Buffer {
    var buffer: array<Byte>
    var capacity: nat
    var readerIndex: nat
    var writerIndex: nat
    ghost var put: seq<Byte>
    ghost var taken: seq<Byte>

    ghost predicate Shape()
      reads this
    {
      buffer.Length == capacity && readerIndex < capacity && writerIndex < capacity
    }

    ghost predicate Valid()
      reads this, buffer
      ensures Valid() ==> Shape()
    {
      Shape() && put == taken + Contents()
    }

    ghost function Model(): (q: Queue)
      requires Shape()
      reads this, buffer
      ensures Fits(q) && q.capacity == capacity && q.contents == Contents()
    {
      Queue(capacity, Contents())
    }

    /** The readable bytes, oldest first. */
    ghost function Contents(): (s: seq<Byte>)
      requires Shape()
      reads this, buffer
      ensures |s| == Distance(capacity, readerIndex, writerIndex)
    {
      Run(buffer[..], readerIndex, Distance(capacity, readerIndex, writerIndex))
    }

    function ReadableBytes(): (n: nat)
      requires Shape()
      reads this, buffer
      ensures n == |Contents()|
    {
      if writerIndex - readerIndex < 0 then writerIndex - readerIndex + capacity else writerIndex - readerIndex
    }

    function WriteableBytes(): (n: nat)
      requires Shape()
      reads this, buffer
      ensures n + |Contents()| + 1 == capacity
    {
      capacity - 1 - ReadableBytes()
    }

    constructor (initialSize: nat)
      requires initialSize >= 1
      ensures Valid() && fresh(buffer) && capacity == initialSize
      ensures put == [] && taken == [] && Contents() == []
    {
      buffer := new Byte[initialSize];
      capacity, readerIndex, writerIndex := initialSize, 0, 0;
      put, taken := [], [];
    }

    /** The assignment to the reader index that passes over `len` bytes. */
    method SetReader(next: nat, ghost len: nat)
      requires Valid() && len <= |Contents()| && next == Cell(capacity, readerIndex, len)
      modifies this`readerIndex, this`taken
      ensures Valid() && Contents() == old(Contents()[len..]) && taken == old(taken + Contents()[..len])
    {
      ghost var c := Contents();
      DropRun(buffer[..], readerIndex, writerIndex, len);
      MoveBytes(put, taken, c, len);
      taken := taken + c[..len];
      readerIndex := next;
      assert Contents() == c[len..];
    }

    /** The assignment to the writer index that makes `data` readable. */
    method SetWriter(next: nat, ghost data: seq<Byte>)
      requires Valid() && |data| <= WriteableBytes() && next == Cell(capacity, writerIndex, |data|)
      requires Run(buffer[..], writerIndex, |data|) == data
      modifies this`writerIndex, this`put
      ensures Valid() && Contents() == old(Contents()) + data && put == old(put) + data
    {
      ghost var c, n := Contents(), Distance(capacity, readerIndex, writerIndex);
      RunSplit(buffer[..], readerIndex, n, |data|);
      CellAdd(capacity, readerIndex, n, |data|);
      put := put + data;
      writerIndex := next;
      DistanceOfCell(capacity, readerIndex, n + |data|);
      assert Contents() == c + data;
      assert taken + c + data == taken + (c + data);
    }

    /** Drop `len` readable bytes. */
    method Retrieve(len: nat) returns (n: int)
      requires Valid()
      modifies this
      ensures Valid() && buffer == old(buffer) && capacity == old(capacity) && put == old(put)
      ensures len > old(|Contents()|) ==> n == -1 && Contents() == old(Contents()) && taken == old(taken)
      ensures len <= old(|Contents()|) ==>
                n == len && Contents() == old(Contents()[len..]) && taken == old(taken + Contents()[..len])
    {
      if len > ReadableBytes() {
        return -1;
      }
      var next := readerIndex + len;
      if next >= capacity {
        next := next - capacity;
      }
      SetReader(next, len);
      n := len;
    }

    method RetrieveAll()
      requires Valid()
      modifies this
      ensures Valid() && buffer == old(buffer) && capacity == old(capacity) && put == old(put)
      ensures Contents() == [] && taken == old(taken + Contents())
    {
      taken := taken + Contents();
      readerIndex, writerIndex := 0, 0;
    }

    /** Copy out the oldest `len` bytes and leave them readable. */
    method Receive(len: nat) returns (n: int, data: seq<Byte>)
      requires Valid()
      ensures len > |Contents()| ==> n == 0xffff_ffff_ffff_ffff && data == []
      ensures len <= |Contents()| ==> n == len && data == Contents()[..len]
    {
      if len > ReadableBytes() {
        return SIZE_MAX, [];
      }
      data := CopyOut(len);
      n := len;
    }

    /** The two cases of memcpy out of the ring. */
    method CopyOut(len: nat) returns (data: seq<Byte>)
      requires Valid() && len <= |Contents()|
      ensures data == Contents()[..len]
    {
      var next := readerIndex + len;
      if next < capacity {
        data := buffer[readerIndex..next];
      } else {
        data := buffer[readerIndex..] + buffer[..next - capacity];
      }
      RunIsSlices(buffer[..], readerIndex, len);
      DropRun(buffer[..], readerIndex, writerIndex, len);
    }

    /** Copy out the oldest `len` bytes and drop them. */
    method Remove(len: nat) returns (n: int, data: seq<Byte>)
      requires Valid()
      modifies this
      ensures Valid() && buffer == old(buffer) && capacity == old(capacity) && put == old(put)
      ensures len > old(|Contents()|) ==> n == 0xffff_ffff_ffff_ffff && data == [] && Contents() == old(Contents()) && taken == old(taken)
      ensures len <= old(|Contents()|) ==>
                n == len && data == old(Contents()[..len]) && Contents() == old(Contents()[len..]) && taken == old(taken) + data
    {
      if len > ReadableBytes() {
        return SIZE_MAX, [];
      }
      data := CopyOut(len);
      var next := readerIndex + len;
      SetReader(if next < capacity then next else next - capacity, len);
      n := len;
    }

    /** Make `len` bytes readable that were stored in the free cells from the writer on. */
    method HasWritten(len: nat)
      requires Valid() && len <= WriteableBytes()
      modifies this
      ensures Valid() && buffer == old(buffer) && capacity == old(capacity) && taken == old(taken)
      ensures Contents() == old(Contents() + Run(buffer[..], writerIndex, len))
      ensures put == old(put + Run(buffer[..], writerIndex, len))
    {
      ghost var data := Run(buffer[..], writerIndex, len);
      var next := writerIndex + len;
      if next < capacity {
        SetWriter(next, data);
      } else {
        SetWriter(next - capacity, data);
        assert writerIndex < readerIndex;
      }
    }

    /** Append bytes that fit: memcpy in one or two pieces. */
    method DoAppend(data: seq<Byte>)
      requires Valid() && |data| <= WriteableBytes()
      modifies this, buffer
      ensures Valid() && buffer == old(buffer) && capacity == old(capacity) && taken == old(taken)
      ensures Contents() == old(Contents()) + data && put == old(put) + data
    {
      ghost var b := buffer[..];
      StoreFrom(data);
      AppendRun(b, buffer[..], readerIndex, Distance(capacity, readerIndex, writerIndex), data);
      var next := writerIndex + |data|;
      if next < capacity {
        SetWriter(next, data);
      } else {
        SetWriter(next - capacity, data);
        assert writerIndex < readerIndex;
      }
    }

    /** The copying part of `DoAppend`. */
    method StoreFrom(data: seq<Byte>)
      requires Shape() && |data| <= WriteableBytes()
      modifies buffer
      ensures Written(old(buffer[..]), buffer[..], writerIndex, data)
    {
      var first := if writerIndex + |data| < capacity then |data| else capacity - writerIndex;
      forall k | 0 <= k < first { buffer[writerIndex + k] := data[k]; }
      forall k | 0 <= k < |data| - first { buffer[k] := data[first + k]; }
    }

    /** Grow until `len` bytes fit. */
    method MakeSpace(len: nat)
      requires Valid() && WriteableBytes() < len
      modifies this
      ensures Valid() && fresh(buffer) && WriteableBytes() == len
      ensures Contents() == old(Contents()) && put == old(put) && taken == old(taken)
    {
      ghost var b, r := buffer[..], readerIndex;
      var readable := ReadableBytes();
      var diff := len - WriteableBytes();
      capacity := capacity + diff;
      var tmp := buffer;
      buffer := new Byte[capacity];
      if readerIndex <= writerIndex {
        forall k | 0 <= k < tmp.Length { buffer[k] := tmp[k]; }
        GrowStraight(b, buffer[..], r, readable);
      } else {
        var part1 := tmp.Length - readerIndex;
        var part2 := writerIndex;
        forall k | 0 <= k < part1 { buffer[k] := tmp[readerIndex + k]; }
        forall k | 0 <= k < part2 { buffer[part1 + k] := tmp[k]; }
        readerIndex := 0;
        writerIndex := part1 + part2;
        assert buffer[..readable] == b[r..] + b[..part2];
        GrowWrapped(b, buffer[..], r, readable);
      }
      assert readable == ReadableBytes();
    }

    method Append(data: seq<Byte>)
      requires Valid()
      modifies this, buffer
      ensures Valid() && (buffer == old(buffer) || fresh(buffer)) && taken == old(taken)
      ensures Contents() == old(Contents()) + data && put == old(put) + data
      ensures Model() == Put(old(Model()), data)
    {
      if WriteableBytes() < |data| {
        MakeSpace(|data|);
      }
      DoAppend(data);
    }

    /** The most that one `ReadFd` can receive. */
    function ReadLimit(): (n: nat)
      requires Shape()
      reads this, buffer
    {
      TotalLen(ReadVector(capacity, readerIndex, writerIndex))
    }

    lemma ReadLimitIs()
      requires Shape()
      ensures ReadLimit() == Limit(Model())
    {
      ReadVectorIsFree(capacity, readerIndex, writerIndex);
    }

    /** Receive whatever `readv` delivers: any number of bytes up to what the vector holds, or an error. */
    method ReadFd(received: Received) returns (n: int, savedErrno: int)
      requires Valid()
      requires received.Data? ==> |received.bytes| <= ReadLimit()
      modifies this, buffer
      ensures Valid() && (buffer == old(buffer) || fresh(buffer)) && taken == old(taken)
      ensures received.Failed? ==> n == -1 && savedErrno == received.errno && Contents() == old(Contents()) && put == old(put)
      ensures received.Data? ==>
                n == |received.bytes| && Contents() == old(Contents()) + received.bytes && put == old(put) + received.bytes
      ensures Model() == Put(old(Model()), if received.Data? then received.bytes else [])
    {
      savedErrno := 0;
      var writeable := WriteableBytes();
      var vec := ReadVector(capacity, readerIndex, writerIndex);
      ReadVectorIsFree(capacity, readerIndex, writerIndex);
      if received.Failed? {
        PutNothing(Model());
        return -1, received.errno;
      }
      var bytes := received.bytes;
      n := |bytes|;
      var direct := if n <= writeable then n else writeable;
      PutParts(Model(), bytes, direct);
      hide *;
      ReadDirect(vec, bytes[..direct]);
      if n > writeable {
        var extrabuf := bytes[direct..];
        Append(extrabuf);
        Associative(old(put), bytes[..direct], extrabuf);
        assert bytes[..direct] + extrabuf == bytes;
      }
    }

    /** The part of a read that goes into the ring. */
    method ReadDirect(vec: seq<Iovec>, bytes: seq<Byte>)
      requires Valid() && CellsOf(vec) == RunCells(capacity, writerIndex, WriteableBytes()) && |bytes| <= WriteableBytes()
      modifies this, buffer
      ensures Valid() && buffer == old(buffer) && capacity == old(capacity) && taken == old(taken)
      ensures Model() == Queue(capacity, old(Contents()) + bytes) && put == old(put) + bytes
    {
      Scatter(CellsOf(vec), bytes);
      HasWritten(|bytes|);
    }

    /** `readv` into the cells of the vector, in order. */
    method Scatter(cells: seq<nat>, bytes: seq<Byte>)
      requires Valid() && cells == RunCells(capacity, writerIndex, WriteableBytes()) && |bytes| <= |cells|
      modifies buffer
      ensures Valid() && Contents() == old(Contents())
      ensures Run(buffer[..], writerIndex, |bytes|) == bytes
    {
      ghost var b, n := buffer[..], Distance(capacity, readerIndex, writerIndex);
      forall j, k | 0 <= j < |bytes| && 0 <= k < capacity && j != k
        ensures Cell(capacity, writerIndex, j) != Cell(capacity, writerIndex, k)
      {
        CellInjective(capacity, writerIndex, j, k);
      }
      forall k | 0 <= k < |bytes| { buffer[cells[k]] := bytes[k]; }
      assert Written(b, buffer[..], writerIndex, bytes);
      AppendRun(b, buffer[..], readerIndex, n, bytes);
    }

    /** Send: `accepted` is what `writev` returns, an error or a byte count up to what was offered. */
    method WriteFd(accepted: int) returns (n: int, sent: seq<Byte>)
      requires Valid() && accepted <= |Contents()|
      modifies this
      ensures Valid() && buffer == old(buffer) && capacity == old(capacity) && put == old(put)
      ensures old(|Contents()|) == 0 ==> n == 0
      ensures old(|Contents()|) > 0 ==> n == accepted
      ensures |sent| == (if n > 0 then n else 0) && sent <= old(Contents())
      ensures Contents() == old(Contents())[|sent|..] && taken == old(taken) + sent
    {
      if readerIndex == writerIndex {
        return 0, [];
      }
      var vec := WriteVector(capacity, readerIndex, writerIndex);
      WriteVectorIsReadable(capacity, readerIndex, writerIndex);
      n := accepted;
      if n > 0 {
        var cells := CellsOf(vec);
        sent := seq(n, k requires 0 <= k < n && n <= |cells| && cells[k] < buffer.Length reads this, buffer => buffer[cells[k]]);
        assert sent == Contents()[..n];
        var _ := Retrieve(n);
      } else {
        sent := [];
      }
    }

    /**
     Any run of operations: the buffer does what the queue does, and gives and takes what the queue gives and
     takes, operation by operation.
     */
    method Session(ops: seq<Op>) returns (input: seq<Byte>, output: seq<Byte>)
      requires Valid()
      modifies this, buffer
      ensures Valid() && Model() == AfterAll(ops, old(Model()))
      ensures input == AllCome(ops, old(Model())) && output == AllGone(ops, old(Model()))
      ensures put == old(put) + input && taken == old(taken) + output
      ensures output + Contents() == old(Contents()) + input
    {
      hide *;
      input, output := [], [];
      ghost var q := Model();
      assert ops[0..] == ops;
      for i := 0 to |ops|
        invariant Valid() && (buffer == old(buffer) || fresh(buffer))
        invariant AfterAll(ops[i..], Model()) == AfterAll(ops, q)
        invariant input + AllCome(ops[i..], Model()) == AllCome(ops, q)
        invariant output + AllGone(ops[i..], Model()) == AllGone(ops, q)
        invariant put == old(put) + input && taken == old(taken) + output
      {
        ghost var rest := ops[i + 1..];
        Unfold(ops, i, Model());
        var gone, come := Do(ops[i]);
        Associative(input, come, AllCome(rest, Model()));
        Associative(output, gone, AllGone(rest, Model()));
        Associative(old(put), input, come);
        Associative(old(taken), output, gone);
        input, output := input + come, output + gone;
      }
      assert ops[|ops|..] == [];
      RunOfNothing(Model());
      Fifo(ops, q);
    }

    /** One operation, with the bytes that left and the bytes that came. */
    method Do(op: Op) returns (gone: seq<Byte>, come: seq<Byte>)
      requires Valid()
      modifies this, buffer
      ensures Valid() && (buffer == old(buffer) || fresh(buffer))
      ensures Model() == After(op, old(Model()))
      ensures come == Come(op, old(Model())) && gone == Gone(op, old(Model()))
      ensures put == old(put) + come && taken == old(taken) + gone
    {
      hide Contents, Shape, Valid, Model, ReadLimit, After, Put, Limit, AtMost;
      gone, come := [], [];
      if op.OpAppend? || op.OpReadFd? { Gives(op, Model()); }
      if !op.OpAppend? && !(op.OpReadFd? && op.received.Data?) { Takes(op, Model()); }
      match op
      case OpAppend(data) =>
        Append(data);
        come := data;
      case OpRemove(len) =>
        var _, data := Remove(len);
        gone := data;
      case OpReceive(len) =>
        var _, _ := Receive(len);
      case OpRetrieve(len) =>
        var _, data := Receive(len);
        var _ := Retrieve(len);
        gone := data;
      case OpRetrieveAll =>
        var _, data := Receive(ReadableBytes());
        RetrieveAll();
        gone := data;
      case OpReadFd(Failed(errno)) =>
        var _, _ := ReadFd(Failed(errno));
      case OpReadFd(Data(bytes)) =>
        ReadLimitIs();
        come := AtMost(bytes, ReadLimit());
        var _, _ := ReadFd(Data(come));
      case OpWriteFd(accepted) =>
        var n, sent := WriteFd(if accepted <= ReadableBytes() then accepted else ReadableBytes());
        gone := sent;
    }
  }
}
