/**
 Polynomials over GF(2) and division by a fixed polynomial of degree 32.

 A polynomial is the sequence of its coefficients, highest power first.  A generator is given by its
 coefficients of x^31 .. x^0; its x^32 is implied, and its constant term is not zero.
 */
module Polynomial {
  type Bits = seq<bool>
  type Generator = g: Bits | |g| == 32 && g[31] witness Ones(32)

  function Zeros(n: nat): (z: Bits)
    ensures |z| == n && forall i :: 0 <= i < n ==> !z[i]
  {
    seq(n, i => false)
  }

  function Ones(n: nat): (z: Bits)
    ensures |z| == n && forall i :: 0 <= i < n ==> z[i]
  {
    seq(n, i => true)
  }

  /** Sum of two polynomials with the same number of coefficients. */
  function Xor(a: Bits, b: Bits): (c: Bits)
    requires |a| == |b|
    ensures |c| == |a| && forall i :: 0 <= i < |a| ==> c[i] == (a[i] != b[i])
  {
    seq(|a|, i requires 0 <= i < |a| => a[i] != b[i])
  }

  function Complement(a: Bits): (c: Bits)
    ensures |c| == |a| && forall i :: 0 <= i < |a| ==> c[i] == !a[i]
  {
    seq(|a|, i requires 0 <= i < |a| => !a[i])
  }

  /** One step of long division: cancel the leading coefficient and drop it. */
  function Reduce(g: Generator, m: Bits): (r: Bits)
    requires |m| > 32
    ensures |r| == |m| - 1
  {
    if m[0] then Xor(m[1..33], g) + m[33..] else m[1..]
  }

  /** What is left of `m` after long division by the generator. */
  function Rem(g: Generator, m: Bits): (r: Bits)
    requires |m| >= 32
    ensures |r| == 32
    decreases |m|
  {
    if |m| == 32 then m else Rem(g, Reduce(g, m))
  }

  /** The leading term of `q` times the generator. */
  function Leading(g: Generator, q: Bits): (p: Bits)
    requires q != []
    ensures |p| == |q| + 32
  {
    if q[0] then [true] + g + Zeros(|q| - 1) else Zeros(|q| + 32)
  }

  /** The polynomial `q` times the generator. */
  function Times(g: Generator, q: Bits): (p: Bits)
    ensures |p| == |q| + 32
  {
    if q == [] then Zeros(32) else Xor(Leading(g, q), [false] + Times(g, q[1..]))
  }

  /** The quotient that the same long division produces. */
  function Quotient(g: Generator, m: Bits): (q: Bits)
    requires |m| >= 32
    ensures |q| == |m| - 32
    decreases |m|
  {
    if |m| == 32 then [] else [m[0]] + Quotient(g, Reduce(g, m))
  }

  lemma XorZeros(a: Bits)
    ensures Xor(Zeros(|a|), a) == a == Xor(a, Zeros(|a|))
  {
  }

  lemma ReduceLinear(g: Generator, a: Bits, b: Bits)
    requires |a| == |b| > 32
    ensures Reduce(g, Xor(a, b)) == Xor(Reduce(g, a), Reduce(g, b))
  {
    hide Xor;
  }

  lemma {:induction false} RemLinear(g: Generator, a: Bits, b: Bits)
    requires |a| == |b| >= 32
    ensures Rem(g, Xor(a, b)) == Xor(Rem(g, a), Rem(g, b))
    decreases |a|
  {
    if |a| > 32 {
      ReduceLinear(g, a, b);
      RemLinear(g, Reduce(g, a), Reduce(g, b));
    }
  }

  lemma {:induction false} RemLeadingZeros(g: Generator, n: nat, m: Bits)
    requires |m| >= 32
    ensures Rem(g, Zeros(n) + m) == Rem(g, m)
  {
    if n == 0 {
      assert Zeros(0) + m == m;
    } else {
      assert Reduce(g, Zeros(n) + m) == Zeros(n - 1) + m;
      RemLeadingZeros(g, n - 1, m);
    }
  }

  /** Division may be interrupted: only the remainder so far matters for what follows. */
  lemma {:induction false} RemAppend(g: Generator, m: Bits, t: Bits)
    requires |m| >= 32
    ensures Rem(g, m + t) == Rem(g, Rem(g, m) + t)
    decreases |m|
  {
    if |m| > 32 {
      assert Reduce(g, m + t) == Reduce(g, m) + t;
      RemAppend(g, Reduce(g, m), t);
    }
  }

  lemma RemOfLeading(g: Generator, q: Bits)
    requires q != []
    ensures Rem(g, Leading(g, q)) == Zeros(32)
  {
    var p := Leading(g, q);
    if q[0] {
      assert p[1..33] == g && p[33..] == Zeros(|q| - 1);
      assert Xor(g, g) == Zeros(32);
    }
    assert Reduce(g, p) == Zeros(|q| - 1) + Zeros(32);
    RemLeadingZeros(g, |q| - 1, Zeros(32));
  }

  lemma {:induction false} RemOfMultiple(g: Generator, q: Bits)
    ensures Rem(g, Times(g, q)) == Zeros(32)
  {
    if q != [] {
      var rest := [false] + Times(g, q[1..]);
      RemOfMultiple(g, q[1..]);
      assert Reduce(g, rest) == Times(g, q[1..]);
      RemOfLeading(g, q);
      RemLinear(g, Leading(g, q), rest);
      XorZeros(Zeros(32));
    }
  }

  lemma UndoReduce(g: Generator, m: Bits, q: Bits)
    requires |m| == |q| + 32 && q != [] && q[0] == m[0]
    ensures m == Xor(Leading(g, q), [false] + Reduce(g, m))
  {
    var p, r := Leading(g, q), [false] + Reduce(g, m);
    assert |p| == |r| == |m|;
    if m[0] {
      forall i | 1 <= i < 33 ensures m[i] == (p[i] != r[i]) {
        assert r[i] == Xor(m[1..33], g)[i - 1];
      }
      forall i | 33 <= i < |m| ensures m[i] == (p[i] != r[i]) {
        assert r[i] == m[33..][i - 33];
      }
    }
  }

  /** Long division divides: dividend = quotient * generator + remainder. */
  lemma {:induction false} DivisionExists(g: Generator, m: Bits)
    requires |m| >= 32
    ensures m == Xor(Times(g, Quotient(g, m)), Zeros(|m| - 32) + Rem(g, m))
    decreases |m|
  {
    if |m| == 32 {
      assert Zeros(0) + m == m;
      XorZeros(m);
    } else {
      DivisionExists(g, Reduce(g, m));
      assert Quotient(g, m)[1..] == Quotient(g, Reduce(g, m));
      DivisionStep(g, m, Quotient(g, m), Rem(g, m));
    }
  }

  lemma ZerosCons(n: nat, r: Bits)
    ensures Zeros(n + 1) + r == [false] + (Zeros(n) + r)
  {
  }

  lemma RegroupTails(m: Bits, lead: Bits, a: Bits, b: Bits)
    requires |a| == |b| && |lead| == |a| + 1
    requires m == Xor(lead, [false] + Xor(a, b))
    ensures m == Xor(Xor(lead, [false] + a), [false] + b)
  {
    assert [false] + Xor(a, b) == Xor([false] + a, [false] + b);
  }

  lemma DivisionStep(g: Generator, m: Bits, q: Bits, r: Bits)
    requires |m| == |q| + 32 && |r| == 32 && q != [] && q[0] == m[0]
    requires Reduce(g, m) == Xor(Times(g, q[1..]), Zeros(|q| - 1) + r)
    ensures m == Xor(Times(g, q), Zeros(|q|) + r)
  {
    UndoReduce(g, m, q);
    ZerosCons(|q| - 1, r);
    RegroupTails(m, Leading(g, q), Times(g, q[1..]), Zeros(|q| - 1) + r);
  }

  /** The remainder does not depend on how it was found: any decomposition has the same one. */
  lemma RemainderUnique(g: Generator, m: Bits, q: Bits, r: Bits)
    requires |r| == 32 && |m| == |q| + 32
    requires m == Xor(Times(g, q), Zeros(|q|) + r)
    ensures r == Rem(g, m)
  {
    RemLinear(g, Times(g, q), Zeros(|q|) + r);
    RemOfMultiple(g, q);
    RemLeadingZeros(g, |q|, r);
    assert Rem(g, r) == r;
    XorZeros(r);
  }

  lemma ShiftOne(g: Generator, s: Bits)
    requires |s| == 32
    ensures Reduce(g, s + [false]) == Zeros(32) ==> s == Zeros(32)
  {
    var next := Reduce(g, s + [false]);
    assert next[31] == s[0];
    assert s == [s[0]] + s[1..];
    assert !s[0] ==> next[..31] == s[1..];
  }

  /** The generator has a constant term, so appending zeros never makes a non-zero polynomial divisible. */
  lemma {:induction false} ShiftKeepsNonZero(g: Generator, s: Bits, n: nat)
    requires |s| == 32 && s != Zeros(32)
    ensures Rem(g, s + Zeros(n)) != Zeros(32)
    decreases n
  {
    if n == 0 {
      assert s + Zeros(0) == s;
    } else {
      var next := Reduce(g, s + [false]);
      assert s + Zeros(n) == (s + [false]) + Zeros(n - 1);
      RemAppend(g, s + [false], Zeros(n - 1));
      assert Rem(g, s + [false]) == next;
      ShiftOne(g, s);
      ShiftKeepsNonZero(g, next, n - 1);
    }
  }

  /** One division step of a message: the register times x^|src| plus the operand times x^32. */
  function Step(g: Generator, reg: Bits, src: Bits): (r: Bits)
    requires |reg| == 32
    ensures |r| == 32
  {
    Rem(g, Xor(reg + Zeros(|src|), src + Zeros(32)))
  }

  lemma SplitOperand(reg: Bits, a: Bits, b: Bits)
    requires |reg| == 32
    ensures Xor(reg + Zeros(|a| + |b|), (a + b) + Zeros(32))
         == Xor(Xor(reg + Zeros(|a|), a + Zeros(32)) + Zeros(|b|), Zeros(|a|) + (b + Zeros(32)))
  {
  }

  /** A step on a long operand is the same as a step on each part in turn. */
  lemma StepSplit(g: Generator, reg: Bits, a: Bits, b: Bits)
    requires |reg| == 32
    ensures Step(g, reg, a + b) == Step(g, Step(g, reg, a), b)
  {
    hide Rem, Xor, Zeros;
    var y, z := Xor(reg + Zeros(|a|), a + Zeros(32)), b + Zeros(32);
    SplitOperand(reg, a, b);
    RemLinear(g, y + Zeros(|b|), Zeros(|a|) + z);
    RemAppend(g, y, Zeros(|b|));
    RemLeadingZeros(g, |a|, z);
    RemLinear(g, Rem(g, y) + Zeros(|b|), z);
  }

  lemma StepEmpty(g: Generator, reg: Bits)
    requires |reg| == 32
    ensures Step(g, reg, []) == reg
  {
    assert Xor(reg + Zeros(0), [] + Zeros(32)) == reg;
  }
}

/**
 CRC-32C and `checksum_hw`, which computes it with the crc32 instruction eight bytes at a time.

 Registers, bytes and messages are bit sequences, least significant bit first.  CRC-32C is a reflected
 code, so this is the order of falling powers of x, and a little-endian load of several bytes is the
 concatenation of the bytes.
 */
module Crc32c {
  import opened Polynomial

  type Byte = b: Bits | |b| == 8 witness [false, false, false, false, false, false, false, false]
  type Word = w: Bits | |w| == 32 witness Ones(32)

  /** The CRC-32C generator 0x1EDC6F41, coefficients of x^31 .. x^0. */
  const GENERATOR: Generator := [
    false, false, false, true, true, true, true, false,
    true, true, false, true, true, true, false, false,
    false, true, true, false, true, true, true, true,
    false, true, false, false, false, false, false, true]

  /** The crc32 instruction: `_mm_crc32_u8` has an 8-bit source operand and `_mm_crc32_u64` a 64-bit one. */
  function Crc32Instr(crc: Word, src: Bits): (r: Word) {
    Step(GENERATOR, crc, src)
  }

  /** The bits of a byte string, in transmission order. */
  function Message(chunk: seq<Byte>): (m: Bits)
    ensures |m| == 8 * |chunk|
  {
    if chunk == [] then [] else chunk[0] + Message(chunk[1..])
  }

  /** CRC-32C by its definition: one division of the whole message, register preset to ones, complemented. */
  function Reference(chunk: seq<Byte>): (r: Word) {
    Complement(Crc32Instr(Ones(32), Message(chunk)))
  }

  /** One byte at a time. */
  function FoldBytes(crc: Word, chunk: seq<Byte>): (r: Word)
    decreases |chunk|
  {
    if chunk == [] then crc else FoldBytes(Crc32Instr(crc, chunk[0]), chunk[1..])
  }

  lemma InstrEmpty()
    ensures Crc32Instr(Ones(32), Message([])) == Ones(32)
  {
    StepEmpty(GENERATOR, Ones(32));
  }

  lemma {:induction false} MessageAppend(a: seq<Byte>, b: seq<Byte>)
    ensures Message(a + b) == Message(a) + Message(b)
  {
    if a == [] {
      assert a + b == b;
    } else {
      assert (a + b)[1..] == a[1..] + b;
      MessageAppend(a[1..], b);
    }
  }

  /** The byte-at-a-time fold is one division of everything folded. */
  lemma {:induction false} FoldIsDivision(crc: Word, chunk: seq<Byte>)
    ensures FoldBytes(crc, chunk) == Crc32Instr(crc, Message(chunk))
    decreases |chunk|
  {
    if chunk == [] {
      StepEmpty(GENERATOR, crc);
    } else {
      StepSplit(GENERATOR, crc, chunk[0], Message(chunk[1..]));
      FoldIsDivision(Crc32Instr(crc, chunk[0]), chunk[1..]);
    }
  }

  /** One 64-bit step on the little-endian load of eight bytes is eight byte steps. */
  lemma QuadwordIsEightBytes(crc: Word, eight: seq<Byte>)
    requires |eight| == 8
    ensures Crc32Instr(crc, Message(eight)) == FoldBytes(crc, eight)
  {
    FoldIsDivision(crc, eight);
  }

  /** A step on the next `k` bytes extends the division of the bytes before them. */
  lemma Extend(crc: Word, chunk: seq<Byte>, p: nat, k: nat)
    requires p + k <= |chunk|
    ensures Crc32Instr(Crc32Instr(crc, Message(chunk[..p])), Message(chunk[p..p + k]))
         == Crc32Instr(crc, Message(chunk[..p + k]))
  {
    assert chunk[..p + k] == chunk[..p] + chunk[p..p + k];
    MessageAppend(chunk[..p], chunk[p..p + k]);
    StepSplit(GENERATOR, crc, Message(chunk[..p]), Message(chunk[p..p + k]));
  }

  lemma ExtendByte(crc: Word, chunk: seq<Byte>, p: nat)
    requires p < |chunk|
    ensures Crc32Instr(Crc32Instr(crc, Message(chunk[..p])), chunk[p]) == Crc32Instr(crc, Message(chunk[..p + 1]))
  {
    Extend(crc, chunk, p, 1);
    assert chunk[p..p + 1] == [chunk[p]];
    assert Message([chunk[p]]) == chunk[p];
  }

  /** `checksum_hw` on the bytes `chunk` stored at address `addr`. */
  method ChecksumHw(chunk: seq<Byte>, addr: nat) returns (r: Word)
    ensures r == Reference(chunk)
    ensures r == Complement(FoldBytes(Ones(32), chunk))
  {
    hide Message, Crc32Instr, FoldBytes, Complement;
    var crc: Word := Ones(32);
    var p: nat, len: nat := 0, |chunk|;
    InstrEmpty();
    while (addr + p) % 4 != 0 && len > 0
      invariant p + len == |chunk|
      invariant crc == Crc32Instr(Ones(32), Message(chunk[..p]))
      decreases len
    {
      ExtendByte(Ones(32), chunk, p);
      crc := Crc32Instr(crc, chunk[p]);
      p, len := p + 1, len - 1;
    }
    var nqwords: nat := len / 8;
    while nqwords != 0
      invariant p + 8 * nqwords + len % 8 == |chunk|
      invariant crc == Crc32Instr(Ones(32), Message(chunk[..p]))
    {
      Extend(Ones(32), chunk, p, 8);
      crc := Crc32Instr(crc, Message(chunk[p..p + 8]));
      p, nqwords := p + 8, nqwords - 1;
    }
    len := len % 8;
    while len > 0
      invariant p + len == |chunk|
      invariant crc == Crc32Instr(Ones(32), Message(chunk[..p]))
    {
      ExtendByte(Ones(32), chunk, p);
      crc := Crc32Instr(crc, chunk[p]);
      p, len := p + 1, len - 1;
    }
    assert chunk[..p] == chunk;
    FoldIsDivision(Ones(32), chunk);
    r := Complement(crc);
  }
}

/** `checksum_sw`: the same checksum from lookup tables, eight bytes at a time (slicing-by-8). */
module Crc32cSlicing {
  import opened Polynomial
  import opened Crc32c

  /** The remainder of byte `i` followed by `k` zero bytes. */
  function ByteRem(g: Generator, k: nat, i: Bits): (r: Bits)
    requires |i| == 8
    ensures |r| == 32
  {
    Rem(g, i + Zeros(8 * k) + Zeros(32))
  }

  /** `g_crc_slicing[k][i]`. */
  function Slice(k: nat, i: Byte): (r: Word) {
    ByteRem(GENERATOR, k, i)
  }

  lemma SplitFirstByte(reg: Bits, b: Bits)
    requires |reg| == 32 && |b| == 8
    ensures Xor(reg + Zeros(8), b + Zeros(32))
         == Xor(Xor(reg[..8], b) + Zeros(0) + Zeros(32), Zeros(8) + (reg[8..] + Zeros(8)))
  {
  }

  /** The table step on one byte is the instruction step on that byte. */
  lemma TableStep(g: Generator, reg: Bits, b: Bits)
    requires |reg| == 32 && |b| == 8
    ensures Xor(ByteRem(g, 0, Xor(reg[..8], b)), reg[8..] + Zeros(8)) == Step(g, reg, b)
  {
    SplitFirstByte(reg, b);
    RemLinear(g, Xor(reg[..8], b) + Zeros(0) + Zeros(32), Zeros(8) + (reg[8..] + Zeros(8)));
    RemLeadingZeros(g, 8, reg[8..] + Zeros(8));
    assert Rem(g, reg[8..] + Zeros(8)) == reg[8..] + Zeros(8);
  }

  /** By linearity the leading byte contributes its own table entry. */
  lemma PeelByte(g: Generator, w: Bits, k: nat)
    requires |w| == 8 * k + 8
    ensures Rem(g, w + Zeros(32)) == Xor(ByteRem(g, k, w[..8]), Rem(g, w[8..] + Zeros(32)))
  {
    var left, right := w[..8] + Zeros(8 * k) + Zeros(32), Zeros(8) + (w[8..] + Zeros(32));
    assert w + Zeros(32) == Xor(left, right);
    RemLinear(g, left, right);
    RemLeadingZeros(g, 8, w[8..] + Zeros(32));
  }

  /** The lookups for the four bytes of `w`, `k` bytes before the end. */
  function FourLookups(g: Generator, w: Bits, k: nat): (r: Bits)
    requires |w| == 32
    ensures |r| == 32
  {
    Xor(Xor(Xor(ByteRem(g, k + 3, w[..8]), ByteRem(g, k + 2, w[8..16])), ByteRem(g, k + 1, w[16..24])),
        ByteRem(g, k, w[24..]))
  }

  lemma PeelWord(g: Generator, w: Bits, rest: Bits, k: nat)
    requires |w| == 32 && |rest| == 8 * k
    ensures Rem(g, w + rest + Zeros(32)) == Xor(FourLookups(g, w, k), Rem(g, rest + Zeros(32)))
  {
    var m := w + rest;
    assert m[..8] == w[..8] && m[8..] == w[8..] + rest;
    assert m[8..][..8] == w[8..16] && m[8..][8..] == w[16..] + rest;
    assert (w[16..] + rest)[..8] == w[16..24] && (w[16..] + rest)[8..] == w[24..] + rest;
    assert (w[24..] + rest)[..8] == w[24..] && (w[24..] + rest)[8..] == rest;
    PeelByte(g, m, k + 3);
    PeelByte(g, w[8..] + rest, k + 2);
    PeelByte(g, w[16..] + rest, k + 1);
    PeelByte(g, w[24..] + rest, k);
    RegroupFive(ByteRem(g, k + 3, w[..8]), ByteRem(g, k + 2, w[8..16]), ByteRem(g, k + 1, w[16..24]),
                ByteRem(g, k, w[24..]), Rem(g, rest + Zeros(32)));
  }

  lemma RegroupFive(a: Bits, b: Bits, c: Bits, d: Bits, e: Bits)
    requires |a| == |b| == |c| == |d| == |e|
    ensures Xor(a, Xor(b, Xor(c, Xor(d, e)))) == Xor(Xor(Xor(Xor(a, b), c), d), e)
  {
  }

  /** Slicing-by-8 is the 64-bit instruction step. */
  lemma SlicingStep(g: Generator, reg: Bits, lo: Bits, hi: Bits)
    requires |reg| == |lo| == |hi| == 32
    ensures Xor(FourLookups(g, Xor(reg, lo), 4), FourLookups(g, hi, 0)) == Step(g, reg, lo + hi)
  {
    var x := Xor(reg, lo);
    assert Xor(reg + Zeros(64), (lo + hi) + Zeros(32)) == x + hi + Zeros(32);
    PeelWord(g, x, hi, 4);
    PeelWord(g, hi, [], 0);
    assert hi + [] == hi && [] + Zeros(32) == Zeros(32);
    XorZeros(FourLookups(g, hi, 0));
  }

  /** The eight table lookups of one step, in the order the source combines them. */
  function EightLookups(crc: Word, next: Word): (r: Word) {
    Xor(Xor(Xor(Xor(Xor(Xor(Xor(
      Slice(7, crc[..8]), Slice(6, crc[8..16])), Slice(5, crc[16..24])), Slice(4, crc[24..])),
      Slice(3, next[..8])), Slice(2, next[8..16])), Slice(1, next[16..24])), Slice(0, next[24..]))
  }

  lemma EightLookupsStep(crc: Word, lo: Word, hi: Word)
    ensures EightLookups(Xor(crc, lo), hi) == Crc32Instr(crc, lo + hi)
  {
    SlicingStep(GENERATOR, crc, lo, hi);
    RegroupLeft(FourLookups(GENERATOR, Xor(crc, lo), 4),
                 Slice(3, hi[..8]), Slice(2, hi[8..16]), Slice(1, hi[16..24]), Slice(0, hi[24..]));
  }

  lemma RegroupLeft(f: Bits, a: Bits, b: Bits, c: Bits, d: Bits)
    requires |f| == |a| == |b| == |c| == |d|
    ensures Xor(f, Xor(Xor(Xor(a, b), c), d)) == Xor(Xor(Xor(Xor(f, a), b), c), d)
  {
  }

  /** Bytes consumed before the first four-byte boundary. */
  function Lead(addr: nat, n: nat): (k: nat)
    ensures k <= n && k <= 3
    ensures k == n || (addr + k) % 4 == 0
  {
    var toBoundary := (4 - addr % 4) % 4;
    if toBoundary <= n then toBoundary else n
  }

  const TWO32: nat := 0x1_0000_0000

  /** The quadword counter of `checksum_sw` is 32 bits wide. */
  function QuadwordCount(len: nat): (n: nat)
    ensures 8 * n + len % 8 <= len
    ensures 8 * n + len % 8 == len <==> len / 8 < TWO32
  {
    (len / 8) % TWO32
  }

  /** How many bytes `checksum_sw` looks at. */
  function Seen(addr: nat, n: nat): (k: nat)
    ensures k <= n
    ensures k == n <==> (n - Lead(addr, n)) / 8 < TWO32
  {
    var rest := n - Lead(addr, n);
    Lead(addr, n) + 8 * QuadwordCount(rest) + rest % 8
  }

  /** What the software routine returns, as a function of its arguments. */
  function SwResult(chunk: seq<Byte>, addr: nat): (r: Word) {
    Reference(chunk[..Seen(addr, |chunk|)])
  }

  /** The loop body for a byte before the boundary or in the tail. */
  method OneByte(crc: Word, chunk: seq<Byte>, p: nat) returns (r: Word)
    requires p < |chunk|
    requires crc == Crc32Instr(Ones(32), Message(chunk[..p]))
    ensures r == Crc32Instr(Ones(32), Message(chunk[..p + 1]))
  {
    ExtendByte(Ones(32), chunk, p);
    TableStep(GENERATOR, crc, chunk[p]);
    r := Xor(Slice(0, Xor(crc[..8], chunk[p])), crc[8..] + Zeros(8));
  }

  /** The loop body for a quadword. */
  method EightBytes(crc: Word, chunk: seq<Byte>, p: nat) returns (r: Word)
    requires p + 8 <= |chunk|
    requires crc == Crc32Instr(Ones(32), Message(chunk[..p]))
    ensures r == Crc32Instr(Ones(32), Message(chunk[..p + 8]))
  {
    var lo: Word, next: Word := Message(chunk[p..p + 4]), Message(chunk[p + 4..p + 8]);
    Extend(Ones(32), chunk, p, 8);
    assert chunk[p..p + 8] == chunk[p..p + 4] + chunk[p + 4..p + 8];
    MessageAppend(chunk[p..p + 4], chunk[p + 4..p + 8]);
    EightLookupsStep(crc, lo, next);
    r := EightLookups(Xor(crc, lo), next);
  }

  /** The byte loop, on the next `k` bytes. */
  method ByteLoop(crc0: Word, chunk: seq<Byte>, p0: nat, k: nat) returns (crc: Word)
    requires p0 + k <= |chunk|
    requires crc0 == Crc32Instr(Ones(32), Message(chunk[..p0]))
    ensures crc == Crc32Instr(Ones(32), Message(chunk[..p0 + k]))
  {
    hide Message, Crc32Instr;
    crc := crc0;
    var p, len := p0, k;
    while len > 0
      invariant p + len == p0 + k
      invariant crc == Crc32Instr(Ones(32), Message(chunk[..p]))
    {
      crc := OneByte(crc, chunk, p);
      p, len := p + 1, len - 1;
    }
  }

  /** The quadword loop, on the next `n` quadwords. */
  method QuadwordLoop(crc0: Word, chunk: seq<Byte>, p0: nat, n: nat) returns (crc: Word)
    requires p0 + 8 * n <= |chunk|
    requires crc0 == Crc32Instr(Ones(32), Message(chunk[..p0]))
    ensures crc == Crc32Instr(Ones(32), Message(chunk[..p0 + 8 * n]))
  {
    hide Message, Crc32Instr;
    crc := crc0;
    var p, nqwords := p0, n;
    while nqwords != 0
      invariant p + 8 * nqwords == p0 + 8 * n
      invariant crc == Crc32Instr(Ones(32), Message(chunk[..p]))
    {
      crc := EightBytes(crc, chunk, p);
      p, nqwords := p + 8, nqwords - 1;
    }
  }

  /** The byte loop up to the first four-byte boundary. */
  method LeadLoop(chunk: seq<Byte>, addr: nat) returns (crc: Word, p: nat)
    ensures p == Lead(addr, |chunk|)
    ensures crc == Crc32Instr(Ones(32), Message(chunk[..p]))
  {
    hide Message, Crc32Instr;
    crc, p := Ones(32), 0;
    InstrEmpty();
    while (addr + p) % 4 != 0 && |chunk| - p > 0
      invariant p <= Lead(addr, |chunk|)
      invariant crc == Crc32Instr(Ones(32), Message(chunk[..p]))
      decreases |chunk| - p
    {
      crc := OneByte(crc, chunk, p);
      p := p + 1;
    }
  }

  /** `checksum_sw`, little-endian build. */
  method ChecksumSw(chunk: seq<Byte>, addr: nat) returns (r: Word)
    ensures r == SwResult(chunk, addr)
  {
    hide Message, Crc32Instr, Lead, QuadwordCount, Complement;
    var crc, p := LeadLoop(chunk, addr);
    var len := |chunk| - p;
    var nqwords := QuadwordCount(len);
    crc := QuadwordLoop(crc, chunk, p, nqwords);
    crc := ByteLoop(crc, chunk, p + 8 * nqwords, len % 8);
    assert p + 8 * nqwords + len % 8 == Seen(addr, |chunk|);
    r := Complement(crc);
  }

  /** CRC-32C tells apart two messages that differ in the first bit of the last byte. */
  lemma LastByteMatters(s: seq<Byte>)
    ensures Reference(s + [Zeros(8)]) != Reference(s + [[true] + Zeros(7)])
  {
    var one: Byte := [true] + Zeros(7);
    var c := Crc32Instr(Ones(32), Message(s));
    MessageAppend(s, [Zeros(8)]);
    MessageAppend(s, [one]);
    assert Message([one]) == one && Message([Zeros(8)]) == Zeros(8);
    StepSplit(GENERATOR, Ones(32), Message(s), Zeros(8));
    StepSplit(GENERATOR, Ones(32), Message(s), one);
    FlippedBit(GENERATOR, c, one);
  }

  lemma FlippedBit(g: Generator, c: Word, one: Byte)
    requires one == [true] + Zeros(7)
    ensures Complement(Step(g, c, Zeros(8))) != Complement(Step(g, c, one))
  {
    var a, d := Xor(c + Zeros(8), Zeros(8) + Zeros(32)), one + Zeros(32);
    assert Xor(c + Zeros(8), d) == Xor(a, d);
    RemLinear(g, a, d);
    var s := [true] + Zeros(31);
    assert s[0] && !Zeros(32)[0];
    assert d == s + Zeros(8);
    ShiftKeepsNonZero(g, s, 8);
    DifferentSums(Rem(g, a), Rem(g, d));
  }

  lemma DifferentSums(a: Word, d: Word)
    requires d != Zeros(32)
    ensures Complement(a) != Complement(Xor(a, d))
  {
    var i :| 0 <= i < 32 && d[i] != Zeros(32)[i];
    assert Complement(a)[i] != Complement(Xor(a, d))[i];
  }

  /**
   The software and hardware routines agree on every chunk of a given length and alignment exactly
   when the quadword count fits the software routine's 32-bit counter.
   */
  lemma SoftwareAgrees(addr: nat, n: nat)
    ensures (forall chunk: seq<Byte> | |chunk| == n :: SwResult(chunk, addr) == Reference(chunk))
       <==> (n - Lead(addr, n)) / 8 < 0x1_0000_0000
  {
    hide Reference, Lead, Seen;
    if (n - Lead(addr, n)) / 8 < TWO32 {
      forall chunk: seq<Byte> | |chunk| == n
        ensures SwResult(chunk, addr) == Reference(chunk)
      {
        assert chunk[..Seen(addr, n)] == chunk;
      }
    } else {
      var s: seq<Byte> := seq(n - 1, i => Zeros(8));
      var a, b := s + [Zeros(8)], s + [[true] + Zeros(7)];
      LastByteMatters(s);
      assert a[..Seen(addr, n)] == b[..Seen(addr, n)];
      assert SwResult(a, addr) == SwResult(b, addr);
      assert |a| == n && |b| == n;
      assert SwResult(a, addr) != Reference(a) || SwResult(b, addr) != Reference(b);
    }
  }
}
