/** The Bloom filter: `bloom_create` sets bits for a list of keys, `bloom_matches` looks a key up. */
module Bloom {
  import opened Arithmetic

  type Byte = bv8
  /** A key is a string of (signed) chars. */
  type Char = c: int | -128 <= c < 128
  type Key = seq<Char>

  const TWO32: nat := 0x1_0000_0000
  const BIT_PER_KEY: nat := 12
  const K: real := 12.0 * 0.69
  const SEED: nat := 0xbc9f1d34

  type Uint32 = h: int | 0 <= h < TWO32

  // ----- hashing -----

  /** The value of `_hash`: a polynomial in 33 over the key, modulo 2^32; negative chars are sign-extended. */
  function Hash(key: Key): (h: Uint32) {
    if key == [] then SEED else (33 * Hash(key[..|key| - 1]) + key[|key| - 1]) % TWO32
  }

  method HashLoop(key: Key) returns (h: Uint32)
    ensures h == Hash(key)
  {
    h := SEED;
    for i := 0 to |key|
      invariant h == Hash(key[..i])
    {
      assert key[..i + 1][..i] == key[..i];
      WrapSum(h, key[i]);
      h := ((h * 32 % TWO32 + h) % TWO32 + key[i] % TWO32) % TWO32;
    }
    assert key[..|key|] == key;
  }

  /** Wrapping after every operation is wrapping once. */
  lemma WrapSum(h: Uint32, c: int)
    ensures ((h * 32 % TWO32 + h) % TWO32 + c % TWO32) % TWO32 == (33 * h + c) % TWO32
  {
    var x := h * 32 % TWO32 + h;
    ModAdd(TWO32, x, c % TWO32);
    ModAdd(TWO32, c, x);
    ModAdd(TWO32, h * 32, h + c);
  }

  /** h rotated right by 17 bits. */
  function Delta(h: Uint32): (d: Uint32) {
    h / 0x2_0000 + h % 0x2_0000 * 0x8000
  }

  /** The 17 low bits come first, then the 15 high ones. */
  lemma DeltaRotates(h: Uint32)
    ensures Delta(h) / 0x8000 == h % 0x2_0000 && Delta(h) % 0x8000 == h / 0x2_0000
  {
    ModOf(0x8000, h % 0x2_0000, h / 0x2_0000);
  }

  /** The bit that probe number `j` of a key looks at. */
  function Position(key: Key, j: nat, bits: nat): (p: nat)
    requires bits > 0
    ensures p < bits
  {
    (Hash(key) + j * Delta(Hash(key))) % TWO32 % bits
  }

  // ----- bits -----

  /** 1 << k */
  function Mask(k: nat): (m: Byte)
    requires k < 8
  {
    if k == 0 then 1 else if k == 1 then 2 else if k == 2 then 4 else if k == 3 then 8
    else if k == 4 then 16 else if k == 5 then 32 else if k == 6 then 64 else 128
  }

  predicate ByteBit(b: Byte, k: nat)
    requires k < 8
  {
    b & Mask(k) != 0
  }

  function SetByteBit(b: Byte, k: nat): (c: Byte)
    requires k < 8
  {
    b | Mask(k)
  }

  lemma SetByteBitSets(b: Byte, j: nat, k: nat)
    requires j < 8 && k < 8
    ensures ByteBit(SetByteBit(b, k), j) <==> ByteBit(b, j) || j == k
  {
  }

  predicate BitAt(a: seq<Byte>, p: nat)
    requires p < 8 * |a|
  {
    ByteBit(a[p / 8], p % 8)
  }

  /** Set bit `p` of the array and leave the others. */
  function SetBit(a: seq<Byte>, p: nat): (r: seq<Byte>)
    requires p < 8 * |a|
  {
    a[p / 8 := SetByteBit(a[p / 8], p % 8)]
  }

  lemma SetBitSets(a: seq<Byte>, p: nat, q: nat)
    requires p < 8 * |a| && q < 8 * |a|
    ensures BitAt(SetBit(a, p), q) <==> BitAt(a, q) || q == p
  {
    hide ByteBit, SetByteBit;
    SetByteBitSets(a[p / 8], q % 8, p % 8);
  }

  /** The bits of `a` that are set are those in `s`. */
  ghost predicate BitsAre(a: seq<Byte>, s: set<int>) {
    forall p :: 0 <= p < 8 * |a| ==> (BitAt(a, p) <==> p in s)
  }

  lemma SetBitAdds(a: seq<Byte>, s: set<int>, p: nat)
    requires p < 8 * |a| && BitsAre(a, s)
    ensures BitsAre(SetBit(a, p), s + {p})
  {
    forall q | 0 <= q < 8 * |a| ensures BitAt(SetBit(a, p), q) <==> q in s + {p} { SetBitSets(a, p, q); }
  }

  // ----- what a filter is -----

  /** The first `m` probes of a key. */
  ghost function Probes(key: Key, m: nat, bits: nat): (s: set<int>)
    requires bits > 0
  {
    if m == 0 then {} else Probes(key, m - 1, bits) + {Position(key, m - 1, bits)}
  }

  /** The probes that building sets: nine for every key. */
  ghost function AllProbes(keys: seq<Key>, bits: nat): (s: set<int>)
    requires bits > 0
  {
    if keys == [] then {} else AllProbes(keys[..|keys| - 1], bits) + Probes(keys[|keys| - 1], 9, bits)
  }

  lemma {:induction false} ProbesAre(key: Key, m: nat, bits: nat, p: int)
    requires bits > 0
    ensures p in Probes(key, m, bits) <==> exists j: nat :: j < m && p == Position(key, j, bits)
  {
    if m > 0 {
      ProbesAre(key, m - 1, bits, p);
      assert p == Position(key, m - 1, bits) ==> exists j: nat :: j < m && p == Position(key, j, bits);
    }
  }

  lemma {:induction false} AllProbesContain(keys: seq<Key>, bits: nat, i: nat)
    requires bits > 0 && i < |keys|
    ensures Probes(keys[i], 9, bits) <= AllProbes(keys, bits)
  {
    if i < |keys| - 1 {
      AllProbesContain(keys[..|keys| - 1], bits, i);
    }
  }

  /** Bytes of the bit array for `n` keys. */
  function ArrayBytes(n: nat): (b: nat)
    ensures b >= 8 && 8 * b >= BIT_PER_KEY * n
  {
    var bits := if BIT_PER_KEY * n < 64 then 64 else BIT_PER_KEY * n;
    (bits + 7) / 8
  }

  /** `bloom_size`: the bit array and one byte for the number of probes. */
  function BloomSize(n: nat): (b: nat) { ArrayBytes(n) + 1 }

  /** What `bloom_create` appends for `keys`. */
  ghost predicate IsFilter(f: seq<Byte>, keys: seq<Key>) {
    && |f| == BloomSize(|keys|)
    && f[|f| - 1] == 8
    && BitsAre(f[..|f| - 1], AllProbes(keys, 8 * (|f| - 1)))
  }

  /** The probe count stored in a filter, a signed char converted to size_t. */
  function StoredProbes(f: seq<Byte>): (k: nat)
    requires f != []
  {
    var b := f[|f| - 1] as int;
    if b < 128 then b else 0x1_0000_0000_0000_0000 - 256 + b
  }

  /** Probe number `j` of the key finds its bit set. */
  predicate Hit(key: Key, j: nat, a: seq<Byte>)
    requires a != []
  {
    BitAt(a, Position(key, j, 8 * |a|))
  }

  ghost predicate Hits(key: Key, k: nat, a: seq<Byte>)
    requires a != []
  {
    forall j: nat :: j < k ==> Hit(key, j, a)
  }

  /** The answer of `bloom_matches`: every stored probe of the key hits a set bit. */
  ghost predicate Matches(key: Key, f: seq<Byte>) {
    |f| >= 2 && Hits(key, StoredProbes(f), f[..|f| - 1])
  }

  // ----- the loops of the source -----

  /** `*bitsets` before the call is `bitsets`; its new value is returned. */
  method BloomCreate(keys: seq<Key>, bitsets: seq<Byte>) returns (out: seq<Byte>)
    ensures |out| == |bitsets| + BloomSize(|keys|) && out[..|bitsets|] == bitsets
    ensures IsFilter(out[|bitsets|..], keys)
  {
    hide BitAt, Delta, Hash;
    var n := |keys|;
    var bits := BIT_PER_KEY * n;
    if bits < 64 {
      bits := 64;
    }
    var bytes := (bits + 7) / 8;
    bits := bytes * 8;
    var bitArray := seq(bytes, _ => 0 as Byte);
    ZeroArray(bitArray);
    assert AllProbes(keys[..0], bits) == {};
    hide BitsAre, AllProbes, Probes;
    for i := 0 to n
      invariant |bitArray| == bytes
      invariant BitsAre(bitArray, AllProbes(keys[..i], bits))
    {
      var h := HashLoop(keys[i]);
      bitArray := SetProbes(bitArray, keys[i], h, AllProbes(keys[..i], bits));
      AllProbesSnoc(keys, i, bits);
    }
    assert keys[..n] == keys;
    out := bitsets + bitArray + [K.Floor as bv8];
    assert out[|bitsets|..] == bitArray + [8];
    assert (bitArray + [8 as Byte])[..bytes] == bitArray;
  }

  lemma AllProbesSnoc(keys: seq<Key>, i: nat, bits: nat)
    requires i < |keys| && bits > 0
    ensures AllProbes(keys[..i + 1], bits) == AllProbes(keys[..i], bits) + Probes(keys[i], 9, bits)
  {
    assert keys[..i + 1][..i] == keys[..i];
  }

  lemma ZeroArray(a: seq<Byte>)
    requires forall i :: 0 <= i < |a| ==> a[i] == 0
    ensures BitsAre(a, {})
  {
    forall p | 0 <= p < 8 * |a| ensures !BitAt(a, p) { assert a[p / 8] == 0; }
  }

  /** The inner loop of `bloom_create`; its counter is compared with the real number 8.28, so it has nine turns. */
  method SetProbes(a0: seq<Byte>, key: Key, h0: Uint32, ghost s: set<int>) returns (a: seq<Byte>)
    requires a0 != [] && h0 == Hash(key) && BitsAre(a0, s)
    ensures |a| == |a0| && BitsAre(a, s + Probes(key, 9, 8 * |a0|))
  {
    a := a0;
    var h, delta, bits := h0, Delta(h0), 8 * |a0|;
    var j := 0;
    assert s + Probes(key, 0, bits) == s;
    while j as real < K
      invariant 0 <= j <= 9 && |a| == |a0|
      invariant h == (h0 + j * delta) % TWO32
      invariant BitsAre(a, s + Probes(key, j, bits))
      decreases 9 - j
    {
      var bitpos := h % bits;
      SetBitAdds(a, s + Probes(key, j, bits), bitpos);
      assert s + Probes(key, j, bits) + {bitpos} == s + Probes(key, j + 1, bits);
      a := SetBit(a, bitpos);
      WrapStep(h0, j, delta);
      h := (h + delta) % TWO32;
      j := j + 1;
    }
  }

  lemma WrapStep(h: int, j: int, d: int)
    ensures ((h + j * d) % TWO32 + d) % TWO32 == (h + (j + 1) * d) % TWO32
  {
    assert (j + 1) * d == j * d + d;
    ModAdd(TWO32, h + j * d, d);
  }

  method BloomMatches(key: Key, filter: seq<Byte>) returns (r: bool)
    ensures r <==> Matches(key, filter)
  {
    var len := |filter|;
    if len < 2 {
      return false;
    }
    var bits := (len - 1) * 8;
    var h := HashLoop(key);
    var delta := Delta(h);
    ghost var h0 := h;
    var k := StoredProbes(filter);
    for j := 0 to k
      invariant h == (h0 + j * delta) % TWO32
      invariant Hits(key, j, filter[..len - 1])
    {
      var bitpos := h % bits;
      assert bitpos == Position(key, j, bits);
      if !BitAt(filter[..len - 1], bitpos) {
        assert !Hit(key, j, filter[..len - 1]);
        return false;
      }
      WrapStep(h0, j, delta);
      h := (h + delta) % TWO32;
    }
    r := true;
  }

  // ----- the main results -----

  /** A key is accepted exactly if each of its eight examined probes is one of the nine set for some listed key. */
  lemma AcceptedExactly(key: Key, f: seq<Byte>, keys: seq<Key>)
    requires IsFilter(f, keys)
    ensures Matches(key, f) <==> Probes(key, 8, 8 * (|f| - 1)) <= AllProbes(keys, 8 * (|f| - 1))
  {
    var bits, a := 8 * (|f| - 1), f[..|f| - 1];
    if Matches(key, f) {
      forall p | p in Probes(key, 8, bits) ensures p in AllProbes(keys, bits) {
        ProbesAre(key, 8, bits, p);
        var j: nat :| j < 8 && p == Position(key, j, bits);
        assert Hit(key, j, a);
      }
    }
    if Probes(key, 8, bits) <= AllProbes(keys, bits) {
      forall j: nat | j < 8 ensures Hit(key, j, a) {
        ProbesAre(key, 8, bits, Position(key, j, bits));
      }
    }
  }

  /** No false negatives: every listed key is accepted, although fewer probes are examined than were set. */
  lemma NoFalseNegatives(f: seq<Byte>, keys: seq<Key>, i: nat)
    requires IsFilter(f, keys) && i < |keys|
    ensures Matches(keys[i], f)
  {
    var bits := 8 * (|f| - 1);
    AllProbesContain(keys, bits, i);
    assert Probes(keys[i], 8, bits) <= Probes(keys[i], 9, bits);
    AcceptedExactly(keys[i], f, keys);
  }

  // ----- the same in numbers -----

  function Power(n: nat): (p: nat) { if n == 0 then 1 else 33 * Power(n - 1) }

  /** The characters times falling powers of 33. */
  function KeySum(key: Key): (s: int) {
    if key == [] then 0 else key[0] * Power(|key| - 1) + KeySum(key[1..])
  }

  lemma {:induction false} KeySumSnoc(key: Key)
    requires key != []
    ensures KeySum(key) == 33 * KeySum(key[..|key| - 1]) + key[|key| - 1]
    decreases |key|
  {
    var n := |key| - 1;
    if n == 0 {
      assert key[1..] == [] && key[..0] == [];
    } else {
      KeySumSnoc(key[1..]);
      assert key[1..][..n - 1] == key[..n][1..] && key[1..][n - 1] == key[n];
      var c, p := key[0], Power(n - 1);
      assert c * (33 * p) == 33 * (c * p);
    }
  }

  /** `_hash` is the seed and the characters as the digits of a number to base 33, modulo 2^32. */
  lemma {:induction false} HashIsSum(key: Key)
    ensures Hash(key) == (0xbc9f1d34 * Power(|key|) + KeySum(key)) % 0x1_0000_0000
    decreases |key|
  {
    if key != [] {
      var n := |key| - 1;
      var init, c := key[..n], key[n];
      HashIsSum(init);
      KeySumSnoc(key);
      var x := 0xbc9f1d34 * Power(n) + KeySum(init);
      assert 0xbc9f1d34 * Power(|key|) + KeySum(key) == 33 * x + c;
      SumStep(x, c);
    }
  }

  lemma SumStep(x: int, c: int)
    ensures (33 * (x % TWO32) + c) % TWO32 == (33 * x + c) % TWO32
  {
    var q, t := x / TWO32, x % TWO32;
    assert x == TWO32 * q + t;
    var y := 33 * t + c;
    var k, r := y / TWO32, y % TWO32;
    assert 33 * x + c == TWO32 * (33 * q + k) + r;
    ModOf(TWO32, 33 * q + k, r);
  }

  /** Bit `q` of an array of so many bits is probe number `j` of the key. */
  predicate IsProbe(key: Key, j: nat, bits: nat, q: nat)
    requires bits > 0
  {
    var h := Hash(key);
    q == (h + j * (h / 0x2_0000 + h % 0x2_0000 * 0x8000)) % 0x1_0000_0000 % bits
  }

  lemma MaskIsShift(k: nat)
    requires k < 8
    ensures Mask(k) == (1 as Byte) << k
  {
  }

  lemma {:induction false} AllProbesAre(keys: seq<Key>, bits: nat, p: int)
    requires bits > 0
    ensures p in AllProbes(keys, bits) <==> exists i: nat :: i < |keys| && p in Probes(keys[i], 9, bits)
  {
    if keys != [] {
      var n := |keys| - 1;
      AllProbesAre(keys[..n], bits, p);
      if i: nat :| i < |keys| && p in Probes(keys[i], 9, bits) {
        assert i < n ==> p in Probes(keys[..n][i], 9, bits);
      }
      if i: nat :| i < n && p in Probes(keys[..n][i], 9, bits) {
        assert p in Probes(keys[i], 9, bits);
      }
    }
  }

  /** A filter is one byte with the number 8, after 12 bits for each key, but at least 64, rounded up to bytes. */
  lemma FilterSize(n: nat)
    ensures BloomSize(n) == (if 12 * n < 64 then 8 else (12 * n + 7) / 8) + 1
  {
  }

  lemma BitInFilter(f: seq<Byte>, keys: seq<Key>, q: nat)
    requires IsFilter(f, keys) && q < 8 * (|f| - 1)
    ensures f[q / 8] & ((1 as Byte) << (q % 8)) != 0 <==> q in AllProbes(keys, 8 * (|f| - 1))
  {
    hide AllProbes, Mask;
    MaskIsShift(q % 8);
    var a := f[..|f| - 1];
    assert a[q / 8] == f[q / 8];
    assert BitAt(a, q) <==> q in AllProbes(keys, 8 * (|f| - 1));
  }

  lemma PositionIsProbe(key: Key, bits: nat, q: nat)
    requires bits > 0
    ensures q in Probes(key, 9, bits) <==> exists j: nat :: j < 9 && IsProbe(key, j, bits, q)
  {
    hide Probes, Hash;
    ProbesAre(key, 9, bits, q);
    if j: nat :| j < 9 && q == Position(key, j, bits) {
      assert IsProbe(key, j, bits, q);
    }
    if j: nat :| j < 9 && IsProbe(key, j, bits, q) {
      assert q == Position(key, j, bits);
    }
  }

  /** Every bit of a filter is set exactly if it is one of the nine probes of some listed key. */
  lemma FilterBits(f: seq<Byte>, keys: seq<Key>, bits: nat, q: nat)
    requires IsFilter(f, keys) && bits == 8 * (|f| - 1) && q < bits
    ensures f[|f| - 1] == 8
    ensures f[q / 8] & ((1 as Byte) << (q % 8)) != 0
       <==> exists i: nat, j: nat :: i < |keys| && j < 9 && IsProbe(keys[i], j, bits, q)
  {
    BitInFilter(f, keys, q);
    hide BitsAre, AllProbes, Probes, IsProbe;
    AllProbesAre(keys, bits, q);
    if i: nat :| i < |keys| && q in Probes(keys[i], 9, bits) {
      PositionIsProbe(keys[i], bits, q);
    }
    if i: nat, j: nat :| i < |keys| && j < 9 && IsProbe(keys[i], j, bits, q) {
      PositionIsProbe(keys[i], bits, q);
    }
  }
}
