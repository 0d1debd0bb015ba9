/**
 CRC-32C in numbers: the literal entries of the lookup tables, and the published check value.  The laws of division
 hold for every generator; these values tell this code from all others.
 */
module Crc32cValues {
  import opened Polynomial
  import opened Crc32c
  import opened Crc32cSlicing

  /** A hexadecimal digit, most significant bit first. */
  datatype Digit = D(b3: bool, b2: bool, b1: bool, b0: bool)

  const X0 := D(false, false, false, false)
  const X1 := D(false, false, false, true)
  const X2 := D(false, false, true, false)
  const X3 := D(false, false, true, true)
  const X4 := D(false, true, false, false)
  const X5 := D(false, true, false, true)
  const X6 := D(false, true, true, false)
  const X7 := D(false, true, true, true)
  const X8 := D(true, false, false, false)
  const X9 := D(true, false, false, true)
  const XA := D(true, false, true, false)
  const XB := D(true, false, true, true)
  const XC := D(true, true, false, false)
  const XD := D(true, true, false, true)
  const XE := D(true, true, true, false)
  const XF := D(true, true, true, true)

  /** A 32-bit number, written as eight hexadecimal digits. */
  datatype Hex = Hex(h7: Digit, h6: Digit, h5: Digit, h4: Digit, h3: Digit, h2: Digit, h1: Digit, h0: Digit)

  /** Bits of a digit, of a byte and of a word, least significant bit first. */
  function DigitBits(d: Digit): (r: Bits)
    ensures |r| == 4
  {
    [d.b0, d.b1, d.b2, d.b3]
  }

  function ByteBits(h1: Digit, h0: Digit): (r: Byte) { DigitBits(h0) + DigitBits(h1) }

  function UpperBits(x: Hex): (r: Bits)
    ensures |r| == 16
  {
    DigitBits(x.h4) + (DigitBits(x.h5) + (DigitBits(x.h6) + DigitBits(x.h7)))
  }

  function WordBits(x: Hex): (r: Word) {
    DigitBits(x.h0) + (DigitBits(x.h1) + (DigitBits(x.h2) + (DigitBits(x.h3) + UpperBits(x))))
  }

  function XorDigit(a: Digit, b: Digit): (c: Digit) { D(a.b3 != b.b3, a.b2 != b.b2, a.b1 != b.b1, a.b0 != b.b0) }

  function XorHex(a: Hex, b: Hex): (c: Hex) {
    Hex(XorDigit(a.h7, b.h7), XorDigit(a.h6, b.h6), XorDigit(a.h5, b.h5), XorDigit(a.h4, b.h4),
        XorDigit(a.h3, b.h3), XorDigit(a.h2, b.h2), XorDigit(a.h1, b.h1), XorDigit(a.h0, b.h0))
  }

  function HalfDigit(carry: bool, d: Digit): (r: Digit) { D(carry, d.b3, d.b2, d.b1) }

  function Half(x: Hex): (r: Hex) {
    Hex(HalfDigit(false, x.h7), HalfDigit(x.h7.b0, x.h6), HalfDigit(x.h6.b0, x.h5), HalfDigit(x.h5.b0, x.h4),
        HalfDigit(x.h4.b0, x.h3), HalfDigit(x.h3.b0, x.h2), HalfDigit(x.h2.b0, x.h1), HalfDigit(x.h1.b0, x.h0))
  }

  /** The generator, reflected: 0x82f63b78. */
  const REFLECTED := Hex(X8, X2, XF, X6, X3, XB, X7, X8)

  /** One step of division on a word: the bit shifted out decides whether the generator is added. */
  function Shift(x: Hex): (r: Hex) { if x.h0.b0 then XorHex(Half(x), REFLECTED) else Half(x) }

  function Shift8(x: Hex): (r: Hex) { Shift(Shift(Shift(Shift(Shift(Shift(Shift(Shift(x)))))))) }

  lemma GeneratorIs()
    ensures GENERATOR == WordBits(REFLECTED)
  {
  }

  lemma XorDigits(a: Digit, r: Bits, b: Digit, t: Bits)
    requires |r| == |t|
    ensures Xor(DigitBits(a) + r, DigitBits(b) + t) == DigitBits(XorDigit(a, b)) + Xor(r, t)
  {
  }

  lemma XorUpper(a: Hex, b: Hex)
    ensures Xor(UpperBits(a), UpperBits(b)) == UpperBits(XorHex(a, b))
  {
    hide Xor, DigitBits, XorDigit;
    XorDigits(a.h7, [], b.h7, []);
    assert DigitBits(a.h7) + [] == DigitBits(a.h7) && DigitBits(b.h7) + [] == DigitBits(b.h7);
    assert DigitBits(XorDigit(a.h7, b.h7)) + Xor([], []) == DigitBits(XorDigit(a.h7, b.h7));
    XorDigits(a.h6, DigitBits(a.h7), b.h6, DigitBits(b.h7));
    XorDigits(a.h5, DigitBits(a.h6) + DigitBits(a.h7), b.h5, DigitBits(b.h6) + DigitBits(b.h7));
    XorDigits(a.h4, DigitBits(a.h5) + (DigitBits(a.h6) + DigitBits(a.h7)),
              b.h4, DigitBits(b.h5) + (DigitBits(b.h6) + DigitBits(b.h7)));
  }

  lemma XorIs(a: Hex, b: Hex)
    ensures Xor(WordBits(a), WordBits(b)) == WordBits(XorHex(a, b))
  {
    XorUpper(a, b);
    hide Xor, DigitBits, XorDigit, UpperBits;
    XorDigits(a.h3, UpperBits(a), b.h3, UpperBits(b));
    XorDigits(a.h2, DigitBits(a.h3) + UpperBits(a), b.h2, DigitBits(b.h3) + UpperBits(b));
    XorDigits(a.h1, DigitBits(a.h2) + (DigitBits(a.h3) + UpperBits(a)), b.h1, DigitBits(b.h2) + (DigitBits(b.h3) + UpperBits(b)));
    XorDigits(a.h0, DigitBits(a.h1) + (DigitBits(a.h2) + (DigitBits(a.h3) + UpperBits(a))),
              b.h0, DigitBits(b.h1) + (DigitBits(b.h2) + (DigitBits(b.h3) + UpperBits(b))));
  }

  /** A digit takes over the lowest bit of what follows it. */
  lemma HalfDigits(d: Digit, e: Digit, rest: Bits, s: Bits)
    ensures (DigitBits(d) + (DigitBits(e) + rest))[1..] + s
         == DigitBits(HalfDigit(e.b0, d)) + ((DigitBits(e) + rest)[1..] + s)
  {
  }

  lemma HalfUpper(x: Hex)
    ensures UpperBits(x)[1..] + [false] == UpperBits(Half(x))
  {
    assert DigitBits(x.h7)[1..] + [false] == DigitBits(HalfDigit(false, x.h7));
    assert DigitBits(x.h7) + [] == DigitBits(x.h7);
    HalfDigits(x.h6, x.h7, [], [false]);
    hide DigitBits, HalfDigit;
    HalfDigits(x.h5, x.h6, DigitBits(x.h7), [false]);
    HalfDigits(x.h4, x.h5, DigitBits(x.h6) + DigitBits(x.h7), [false]);
  }

  lemma HalfIs(x: Hex)
    ensures WordBits(x)[1..] + [false] == WordBits(Half(x))
  {
    HalfUpper(x);
    var up := DigitBits(x.h5) + (DigitBits(x.h6) + DigitBits(x.h7));
    hide DigitBits, HalfDigit;
    HalfDigits(x.h3, x.h4, up, [false]);
    HalfDigits(x.h2, x.h3, UpperBits(x), [false]);
    HalfDigits(x.h1, x.h2, DigitBits(x.h3) + UpperBits(x), [false]);
    HalfDigits(x.h0, x.h1, DigitBits(x.h2) + (DigitBits(x.h3) + UpperBits(x)), [false]);
  }

  /** Dividing a word with one zero appended. */
  lemma ReduceWord(g: Generator, w: Word)
    ensures Reduce(g, w + [false]) == if w[0] then Xor(w[1..] + [false], g) else w[1..] + [false]
  {
    hide Xor;
    var m := w + [false];
    assert m[1..33] == w[1..] + [false] == m[1..];
    assert m[33..] == [];
    var x := Xor(w[1..] + [false], g);
    assert x + [] == x;
  }

  lemma LowestBit(x: Hex)
    ensures WordBits(x)[0] == x.h0.b0
  {
  }

  lemma ShiftIs(x: Hex)
    ensures Reduce(GENERATOR, WordBits(x) + [false]) == WordBits(Shift(x))
  {
    hide WordBits, XorHex, Half, Reduce, Xor;
    LowestBit(x);
    ReduceWord(GENERATOR, WordBits(x));
    HalfIs(x);
    GeneratorIs();
    XorIs(Half(x), REFLECTED);
  }

  lemma {:induction false} RemShift(x: Hex, n: nat)
    ensures Rem(GENERATOR, WordBits(x) + Zeros(n + 1)) == Rem(GENERATOR, WordBits(Shift(x)) + Zeros(n))
  {
    hide WordBits, Shift;
    ShiftIs(x);
    assert WordBits(x) + Zeros(n + 1) == (WordBits(x) + [false]) + Zeros(n);
    RemAppend(GENERATOR, WordBits(x) + [false], Zeros(n));
  }

  lemma RemShift8(x: Hex, n: nat)
    ensures Rem(GENERATOR, WordBits(x) + Zeros(n + 8)) == Rem(GENERATOR, WordBits(Shift8(x)) + Zeros(n))
  {
    hide Rem, WordBits, Zeros, Shift;
    var x1 := Shift(x);
    var x2 := Shift(x1);
    var x3 := Shift(x2);
    var x4 := Shift(x3);
    var x5 := Shift(x4);
    var x6 := Shift(x5);
    var x7 := Shift(x6);
    RemShift(x, n + 7);
    RemShift(x1, n + 6);
    RemShift(x2, n + 5);
    RemShift(x3, n + 4);
    RemShift(x4, n + 3);
    RemShift(x5, n + 2);
    RemShift(x6, n + 1);
    RemShift(x7, n);
  }

  function ByteHex(h1: Digit, h0: Digit): (x: Hex) { Hex(X0, X0, X0, X0, X0, X0, h1, h0) }

  lemma ByteHexIs(h1: Digit, h0: Digit)
    ensures WordBits(ByteHex(h1, h0)) == ByteBits(h1, h0) + Zeros(24)
  {
    assert UpperBits(ByteHex(h1, h0)) == Zeros(16);
  }

  /** The entry of table `k` for a byte, in numbers. */
  function Entry(k: nat, h1: Digit, h0: Digit): (x: Hex) {
    Shift8(if k == 0 then ByteHex(h1, h0) else Entry(k - 1, h1, h0))
  }

  lemma {:induction false} RemEntry(k: nat, n: nat, h1: Digit, h0: Digit)
    ensures Rem(GENERATOR, WordBits(ByteHex(h1, h0)) + Zeros(8 * k + 8 + n))
         == Rem(GENERATOR, WordBits(Entry(k, h1, h0)) + Zeros(n))
    decreases k
  {
    hide Rem, WordBits, Zeros, Shift8, ByteHex;
    if k == 0 {
      RemShift8(ByteHex(h1, h0), n);
    } else {
      RemEntry(k - 1, n + 8, h1, h0);
      RemShift8(Entry(k - 1, h1, h0), n);
    }
  }

  lemma SliceIs(k: nat, h1: Digit, h0: Digit)
    ensures Slice(k, ByteBits(h1, h0)) == WordBits(Entry(k, h1, h0))
  {
    hide WordBits, Entry, ByteHex, ByteBits;
    ByteHexIs(h1, h0);
    RemEntry(k, 0, h1, h0);
    assert ByteBits(h1, h0) + Zeros(8 * k) + Zeros(32) == ByteBits(h1, h0) + Zeros(24) + Zeros(8 * k + 8 + 0);
    assert WordBits(Entry(k, h1, h0)) + Zeros(0) == WordBits(Entry(k, h1, h0));
  }

  /** Every entry is the sum of the entries for the bits of its index. */
  lemma SliceLinear(k: nat, a: Byte, b: Byte)
    ensures Slice(k, Xor(a, b)) == Xor(Slice(k, a), Slice(k, b))
  {
    hide Rem;
    var z := Zeros(8 * k) + Zeros(32);
    assert a + Zeros(8 * k) + Zeros(32) == a + z && b + Zeros(8 * k) + Zeros(32) == b + z;
    assert Xor(a, b) + Zeros(8 * k) + Zeros(32) == Xor(a + z, b + z);
    RemLinear(GENERATOR, a + z, b + z);
  }

  // ----- the tables of the source: the entries for single bits; the others are sums of them -----

  lemma Entries1()
    ensures Slice(0, ByteBits(X0, X1)) == WordBits(Hex(XF, X2, X6, XB, X8, X3, X0, X3))
    ensures Slice(1, ByteBits(X0, X1)) == WordBits(Hex(X1, X3, XA, X2, X9, X8, X7, X7))
    ensures Slice(2, ByteBits(X0, X1)) == WordBits(Hex(XA, X5, X4, X1, X9, X2, X7, XE))
    ensures Slice(3, ByteBits(X0, X1)) == WordBits(Hex(XD, XD, X4, X5, XA, XA, XB, X8))
    ensures Slice(4, ByteBits(X0, X1)) == WordBits(Hex(X3, X8, X1, X1, X6, XF, XA, XC))
    ensures Slice(5, ByteBits(X0, X1)) == WordBits(Hex(XE, XF, X3, X0, X6, XB, X1, X9))
    ensures Slice(6, ByteBits(X0, X1)) == WordBits(Hex(X6, X8, X0, X3, X2, XC, XC, X8))
    ensures Slice(7, ByteBits(X0, X1)) == WordBits(Hex(X4, X9, X3, XC, X7, XD, X2, X7))
  {
    SliceIs(0, X0, X1);
    SliceIs(1, X0, X1);
    SliceIs(2, X0, X1);
    SliceIs(3, X0, X1);
    SliceIs(4, X0, X1);
    SliceIs(5, X0, X1);
    SliceIs(6, X0, X1);
    SliceIs(7, X0, X1);
    hide Slice, ByteBits, WordBits;
  }

  lemma Entries2()
    ensures Slice(0, ByteBits(X0, X2)) == WordBits(Hex(XE, X1, X3, XB, X7, X0, XF, X7))
    ensures Slice(1, ByteBits(X0, X2)) == WordBits(Hex(X2, X7, X4, X5, X3, X0, XE, XE))
    ensures Slice(2, ByteBits(X0, X2)) == WordBits(Hex(X4, XF, X6, XF, X5, X2, X0, XD))
    ensures Slice(3, ByteBits(X0, X2)) == WordBits(Hex(XB, XF, X6, X7, X2, X3, X8, X1))
    ensures Slice(4, ByteBits(X0, X2)) == WordBits(Hex(X7, X0, X2, X2, XD, XF, X5, X8))
    ensures Slice(5, ByteBits(X0, X2)) == WordBits(Hex(XD, XB, X8, XC, XA, X0, XC, X3))
    ensures Slice(6, ByteBits(X0, X2)) == WordBits(Hex(XD, X0, X0, X6, X5, X9, X9, X0))
    ensures Slice(7, ByteBits(X0, X2)) == WordBits(Hex(X9, X2, X7, X8, XF, XA, X4, XE))
  {
    SliceIs(0, X0, X2);
    SliceIs(1, X0, X2);
    SliceIs(2, X0, X2);
    SliceIs(3, X0, X2);
    SliceIs(4, X0, X2);
    SliceIs(5, X0, X2);
    SliceIs(6, X0, X2);
    SliceIs(7, X0, X2);
    hide Slice, ByteBits, WordBits;
  }

  lemma Entries4()
    ensures Slice(0, ByteBits(X0, X4)) == WordBits(Hex(XC, X7, X9, XA, X9, X7, X1, XF))
    ensures Slice(1, ByteBits(X0, X4)) == WordBits(Hex(X4, XE, X8, XA, X6, X1, XD, XC))
    ensures Slice(2, ByteBits(X0, X4)) == WordBits(Hex(X9, XE, XD, XE, XA, X4, X1, XA))
    ensures Slice(3, ByteBits(X0, X4)) == WordBits(Hex(X7, XB, X2, X2, X3, X1, XF, X3))
    ensures Slice(4, ByteBits(X0, X4)) == WordBits(Hex(XE, X0, X4, X5, XB, XE, XB, X0))
    ensures Slice(5, ByteBits(X0, X4)) == WordBits(Hex(XB, X2, XF, X5, X3, X7, X7, X7))
    ensures Slice(6, ByteBits(X0, X4)) == WordBits(Hex(XA, X5, XE, X0, XC, X5, XD, X1))
    ensures Slice(7, ByteBits(X0, X4)) == WordBits(Hex(X2, X1, X1, XD, X8, X2, X6, XD))
  {
    SliceIs(0, X0, X4);
    SliceIs(1, X0, X4);
    SliceIs(2, X0, X4);
    SliceIs(3, X0, X4);
    SliceIs(4, X0, X4);
    SliceIs(5, X0, X4);
    SliceIs(6, X0, X4);
    SliceIs(7, X0, X4);
    hide Slice, ByteBits, WordBits;
  }

  lemma Entries8()
    ensures Slice(0, ByteBits(X0, X8)) == WordBits(Hex(X8, XA, XD, X9, X5, X8, XC, XF))
    ensures Slice(1, ByteBits(X0, X8)) == WordBits(Hex(X9, XD, X1, X4, XC, X3, XB, X8))
    ensures Slice(2, ByteBits(X0, X8)) == WordBits(Hex(X3, X8, X5, X1, X3, XE, XC, X5))
    ensures Slice(3, ByteBits(X0, X8)) == WordBits(Hex(XF, X6, X4, X4, X6, X3, XE, X6))
    ensures Slice(4, ByteBits(X0, X8)) == WordBits(Hex(XC, X5, X6, X7, X0, XB, X9, X1))
    ensures Slice(5, ByteBits(X0, X8)) == WordBits(Hex(X6, X0, X0, X6, X1, X8, X1, XF))
    ensures Slice(6, ByteBits(X0, X8)) == WordBits(Hex(X4, XE, X2, XD, XF, XD, X5, X3))
    ensures Slice(7, ByteBits(X0, X8)) == WordBits(Hex(X4, X2, X3, XB, X0, X4, XD, XA))
  {
    SliceIs(0, X0, X8);
    SliceIs(1, X0, X8);
    SliceIs(2, X0, X8);
    SliceIs(3, X0, X8);
    SliceIs(4, X0, X8);
    SliceIs(5, X0, X8);
    SliceIs(6, X0, X8);
    SliceIs(7, X0, X8);
    hide Slice, ByteBits, WordBits;
  }

  lemma Entries16()
    ensures Slice(0, ByteBits(X1, X0)) == WordBits(Hex(X1, X0, X5, XE, XC, X7, X6, XF))
    ensures Slice(1, ByteBits(X1, X0)) == WordBits(Hex(X3, XF, XC, X5, XF, X1, X8, X1))
    ensures Slice(2, ByteBits(X1, X0)) == WordBits(Hex(X7, X0, XA, X2, X7, XD, X8, XA))
    ensures Slice(3, ByteBits(X1, X0)) == WordBits(Hex(XE, X9, X6, X4, XB, X1, X3, XD))
    ensures Slice(4, ByteBits(X1, X0)) == WordBits(Hex(X8, XF, X2, X2, X6, X1, XD, X3))
    ensures Slice(5, ByteBits(X1, X0)) == WordBits(Hex(XC, X0, X0, XC, X3, X0, X3, XE))
    ensures Slice(6, ByteBits(X1, X0)) == WordBits(Hex(X9, XC, X5, XB, XF, XA, XA, X6))
    ensures Slice(7, ByteBits(X1, X0)) == WordBits(Hex(X8, X4, X7, X6, X0, X9, XB, X4))
  {
    SliceIs(0, X1, X0);
    SliceIs(1, X1, X0);
    SliceIs(2, X1, X0);
    SliceIs(3, X1, X0);
    SliceIs(4, X1, X0);
    SliceIs(5, X1, X0);
    SliceIs(6, X1, X0);
    SliceIs(7, X1, X0);
    hide Slice, ByteBits, WordBits;
  }

  lemma Entries32()
    ensures Slice(0, ByteBits(X2, X0)) == WordBits(Hex(X2, X0, XB, XD, X8, XE, XD, XE))
    ensures Slice(1, ByteBits(X2, X0)) == WordBits(Hex(X7, XF, X8, XB, XE, X3, X0, X2))
    ensures Slice(2, ByteBits(X2, X0)) == WordBits(Hex(XE, X1, X4, X4, XF, XB, X1, X4))
    ensures Slice(3, ByteBits(X2, X0)) == WordBits(Hex(XD, X7, X2, X5, X1, X4, X8, XB))
    ensures Slice(4, ByteBits(X2, X0)) == WordBits(Hex(X1, XB, XA, X8, XB, X5, X5, X7))
    ensures Slice(5, ByteBits(X2, X0)) == WordBits(Hex(X8, X5, XF, X4, X1, X6, X8, XD))
    ensures Slice(6, ByteBits(X2, X0)) == WordBits(Hex(X3, XD, X5, XB, X8, X3, XB, XD))
    ensures Slice(7, ByteBits(X2, X0)) == WordBits(Hex(X0, XD, X0, X0, X6, X5, X9, X9))
  {
    SliceIs(0, X2, X0);
    SliceIs(1, X2, X0);
    SliceIs(2, X2, X0);
    SliceIs(3, X2, X0);
    SliceIs(4, X2, X0);
    SliceIs(5, X2, X0);
    SliceIs(6, X2, X0);
    SliceIs(7, X2, X0);
    hide Slice, ByteBits, WordBits;
  }

  lemma Entries64()
    ensures Slice(0, ByteBits(X4, X0)) == WordBits(Hex(X4, X1, X7, XB, X1, XD, XB, XC))
    ensures Slice(1, ByteBits(X4, X0)) == WordBits(Hex(XF, XF, X1, X7, XC, X6, X0, X4))
    ensures Slice(2, ByteBits(X4, X0)) == WordBits(Hex(XC, X7, X6, X5, X8, X0, XD, X9))
    ensures Slice(3, ByteBits(X4, X0)) == WordBits(Hex(XA, XB, XA, X6, X5, XF, XE, X7))
    ensures Slice(4, ByteBits(X4, X0)) == WordBits(Hex(X3, X7, X5, X1, X6, XA, XA, XE))
    ensures Slice(5, ByteBits(X4, X0)) == WordBits(Hex(X0, XE, X0, X4, X5, XB, XE, XB))
    ensures Slice(6, ByteBits(X4, X0)) == WordBits(Hex(X7, XA, XB, X7, X0, X7, X7, XA))
    ensures Slice(7, ByteBits(X4, X0)) == WordBits(Hex(X1, XA, X0, X0, XC, XB, X3, X2))
  {
    SliceIs(0, X4, X0);
    SliceIs(1, X4, X0);
    SliceIs(2, X4, X0);
    SliceIs(3, X4, X0);
    SliceIs(4, X4, X0);
    SliceIs(5, X4, X0);
    SliceIs(6, X4, X0);
    SliceIs(7, X4, X0);
    hide Slice, ByteBits, WordBits;
  }

  lemma Entries128()
    ensures Slice(0, ByteBits(X8, X0)) == WordBits(Hex(X8, X2, XF, X6, X3, XB, X7, X8))
    ensures Slice(1, ByteBits(X8, X0)) == WordBits(Hex(XF, XB, XC, X3, XF, XA, XF, X9))
    ensures Slice(2, ByteBits(X8, X0)) == WordBits(Hex(X8, XB, X2, X7, X7, X7, X4, X3))
    ensures Slice(3, ByteBits(X8, X0)) == WordBits(Hex(X5, X2, XA, X0, XC, X9, X3, XF))
    ensures Slice(4, ByteBits(X8, X0)) == WordBits(Hex(X6, XE, XA, X2, XD, X5, X5, XC))
    ensures Slice(5, ByteBits(X8, X0)) == WordBits(Hex(X1, XC, X0, X8, XB, X7, XD, X6))
    ensures Slice(6, ByteBits(X8, X0)) == WordBits(Hex(XF, X5, X6, XE, X0, XE, XF, X4))
    ensures Slice(7, ByteBits(X8, X0)) == WordBits(Hex(X3, X4, X0, X1, X9, X6, X6, X4))
  {
    SliceIs(0, X8, X0);
    SliceIs(1, X8, X0);
    SliceIs(2, X8, X0);
    SliceIs(3, X8, X0);
    SliceIs(4, X8, X0);
    SliceIs(5, X8, X0);
    SliceIs(6, X8, X0);
    SliceIs(7, X8, X0);
    hide Slice, ByteBits, WordBits;
  }

  // ----- the check value -----

  lemma InstrIs(x: Hex, h1: Digit, h0: Digit)
    ensures Crc32Instr(WordBits(x), ByteBits(h1, h0)) == WordBits(Shift8(XorHex(x, ByteHex(h1, h0))))
  {
    hide WordBits, ByteBits, ByteHex, XorHex, Shift8, Rem;
    var w, y := WordBits(x), WordBits(ByteHex(h1, h0));
    ByteHexIs(h1, h0);
    XorIs(x, ByteHex(h1, h0));
    assert ByteBits(h1, h0) + Zeros(32) == y + Zeros(8);
    assert Xor(w + Zeros(8), y + Zeros(8)) == Xor(w, y) + Zeros(8);
    RemShift8(XorHex(x, ByteHex(h1, h0)), 0);
    RemWord(Shift8(XorHex(x, ByteHex(h1, h0))));
  }

  lemma RemWord(x: Hex)
    ensures Rem(GENERATOR, WordBits(x) + Zeros(0)) == WordBits(x)
  {
    hide WordBits;
    assert WordBits(x) + Zeros(0) == WordBits(x);
  }

  const ALL_ONES := Hex(XF, XF, XF, XF, XF, XF, XF, XF)

  lemma OnesIs()
    ensures Ones(32) == WordBits(ALL_ONES)
  {
  }

  lemma ComplementIs(x: Hex)
    ensures Complement(WordBits(x)) == WordBits(XorHex(x, ALL_ONES))
  {
    hide WordBits, XorHex;
    XorIs(x, ALL_ONES);
    OnesIs();
  }

  /** The bytes of the characters 1 to 9. */
  const CHECK_MESSAGE: seq<Byte> := [
    ByteBits(X3, X1), ByteBits(X3, X2), ByteBits(X3, X3), ByteBits(X3, X4), ByteBits(X3, X5),
    ByteBits(X3, X6), ByteBits(X3, X7), ByteBits(X3, X8), ByteBits(X3, X9)]

  lemma FoldCons(crc: Word, b: Byte, rest: seq<Byte>)
    ensures FoldBytes(crc, [b] + rest) == FoldBytes(Crc32Instr(crc, b), rest)
  {
    assert ([b] + rest)[1..] == rest;
  }

  lemma FoldHex(x: Hex, h1: Digit, h0: Digit, chunk: seq<Byte>, i: nat, y: Hex)
    requires i < |chunk| && chunk[i] == ByteBits(h1, h0) && y == Shift8(XorHex(x, ByteHex(h1, h0)))
    ensures FoldBytes(WordBits(x), chunk[i..]) == FoldBytes(WordBits(y), chunk[i + 1..])
  {
    hide WordBits, ByteBits, ByteHex, XorHex, Shift8, FoldBytes, Crc32Instr;
    assert chunk[i..] == [chunk[i]] + chunk[i + 1..];
    InstrIs(x, h1, h0);
    FoldCons(WordBits(x), chunk[i], chunk[i + 1..]);
  }

  /** The published check value of CRC-32C: for the characters 1 to 9 it is 0xe3069283. */
  lemma CheckValue()
    ensures Reference(CHECK_MESSAGE) == WordBits(Hex(XE, X3, X0, X6, X9, X2, X8, X3))
  {
    hide WordBits, ByteBits, FoldBytes, Crc32Instr, Complement, Message;
    FoldIsDivision(Ones(32), CHECK_MESSAGE);
    OnesIs();
    assert CHECK_MESSAGE[0..] == CHECK_MESSAGE;
    FoldHex(ALL_ONES, X3, X1, CHECK_MESSAGE, 0, Hex(X6, XF, X0, XA, X6, X6, X1, XC));
    FoldHex(Hex(X6, XF, X0, XA, X6, X6, X1, XC), X3, X2, CHECK_MESSAGE, 1, Hex(X8, XC, XA, XA, X3, XB, X9, XF));
    FoldHex(Hex(X8, XC, XA, XA, X3, XB, X9, XF), X3, X3, CHECK_MESSAGE, 2, Hex(XE, XF, X8, X4, XD, X0, X4, XD));
    FoldHex(Hex(XE, XF, X8, X4, XD, X0, X4, XD), X3, X4, CHECK_MESSAGE, 3, Hex(X0, X9, XC, X5, X0, XB, X1, X1));
    FoldHex(Hex(X0, X9, XC, X5, X0, XB, X1, X1), X3, X5, CHECK_MESSAGE, 4, Hex(XE, X7, X2, XE, XD, XC, XC, XA));
    FoldHex(Hex(XE, X7, X2, XE, XD, XC, XC, XA), X3, X6, CHECK_MESSAGE, 5, Hex(XB, XE, XC, XA, X8, XE, X7, X9));
    FoldHex(Hex(XB, XE, XC, XA, X8, XE, X7, X9), X3, X7, CHECK_MESSAGE, 6, Hex(XE, XD, XB, XD, X6, X8, X1, X5));
    FoldHex(Hex(XE, XD, XB, XD, X6, X8, X1, X5), X3, X8, CHECK_MESSAGE, 7, Hex(X9, XF, X7, X8, X7, XF, X6, X5));
    FoldHex(Hex(X9, XF, X7, X8, X7, XF, X6, X5), X3, X9, CHECK_MESSAGE, 8, Hex(X1, XC, XF, X9, X6, XD, X7, XC));
    assert CHECK_MESSAGE[9..] == [];
    assert FoldBytes(WordBits(Hex(X1, XC, XF, X9, X6, XD, X7, XC)), []) == WordBits(Hex(X1, XC, XF, X9, X6, XD, X7, XC)) by { FoldNothing(WordBits(Hex(X1, XC, XF, X9, X6, XD, X7, XC))); }
    ComplementIs(Hex(X1, XC, XF, X9, X6, XD, X7, XC));
  }

  lemma FoldNothing(crc: Word)
    ensures FoldBytes(crc, []) == crc
  {
  }
}
