/**
 Base64 as in section 4 of RFC 4648, and the loops of `base64_encode` and `base64_decode`.
 The masks and shifts of the source on unsigned chars are written as division and remainder by powers of two.
 */
module Base64 {
  import opened Arithmetic

  type Byte = b: int | 0 <= b < 256
  type Sextet = x: int | 0 <= x < 64

  const CHARS: string := "ABCDEFGHIJKLMNOPQRSTUVWXYZ" + "abcdefghijklmnopqrstuvwxyz" + "0123456789+/"

  /** The table `chars` in closed form. */
  function CharOf(x: Sextet): (c: char) {
    if x < 26 then 'A' + x as char
    else if x < 52 then 'a' + (x - 26) as char
    else if x < 62 then '0' + (x - 52) as char
    else if x == 62 then '+'
    else '/'
  }

  /** `is_base64`, with isalnum of the C locale. */
  predicate IsBase64(c: char) {
    'A' <= c <= 'Z' || 'a' <= c <= 'z' || '0' <= c <= '9' || c == '+' || c == '/'
  }

  function IndexOf(c: char): (x: Sextet)
    requires IsBase64(c)
  {
    if 'A' <= c <= 'Z' then (c - 'A') as int
    else if 'a' <= c <= 'z' then (c - 'a') as int + 26
    else if '0' <= c <= '9' then (c - '0') as int + 52
    else if c == '+' then 62
    else 63
  }

  lemma Table(x: Sextet)
    ensures |CHARS| == 64 && CHARS[x] == CharOf(x)
  {
    assert |CHARS| == 64;
  }

  lemma CharOfIndexOf(c: char)
    requires IsBase64(c)
    ensures CharOf(IndexOf(c)) == c
  {
  }

  lemma IndexOfCharOf(x: Sextet)
    ensures IsBase64(CharOf(x)) && IndexOf(CharOf(x)) == x
  {
  }

  // ----- the code of the RFC -----

  /** A 24-bit group: three bytes, most significant first. */
  function Group(a: Byte, b: Byte, c: Byte): (n: int)
    ensures 0 <= n < 0x100_0000
  {
    a * 0x1_0000 + b * 0x100 + c
  }

  /** The same 24 bits as four concatenated 6-bit groups. */
  function Sextets(n: int): (x: seq<Sextet>)
    requires 0 <= n < 0x100_0000
    ensures |x| == 4
  {
    [n / 0x4_0000, n / 0x1000 % 64, n / 64 % 64, n % 64]
  }

  function Join(w: Sextet, x: Sextet, y: Sextet, z: Sextet): (n: int)
    ensures 0 <= n < 0x100_0000
  {
    w * 0x4_0000 + x * 0x1000 + y * 64 + z
  }

  function Bytes(n: int): (b: seq<Byte>)
    requires 0 <= n < 0x100_0000
    ensures |b| == 3
  {
    [n / 0x1_0000, n / 0x100 % 256, n % 256]
  }

  function Chars(x: seq<Sextet>): (s: string)
    ensures |s| == |x| && forall i :: 0 <= i < |x| ==> s[i] == CharOf(x[i])
  {
    seq(|x|, i requires 0 <= i < |x| => CharOf(x[i]))
  }

  function Encode(b: seq<Byte>): (s: string) {
    if |b| == 0 then ""
    else if |b| == 1 then Chars(Sextets(Group(b[0], 0, 0))[..2]) + "=="
    else if |b| == 2 then Chars(Sextets(Group(b[0], b[1], 0))[..3]) + "="
    else Chars(Sextets(Group(b[0], b[1], b[2]))) + Encode(b[3..])
  }

  /** The characters before the first one that is not in the alphabet. */
  function Payload(s: string): (t: string)
    ensures t <= s && (forall i :: 0 <= i < |t| ==> IsBase64(t[i]))
    ensures |t| == |s| || !IsBase64(s[|t|])
  {
    if s == [] || !IsBase64(s[0]) then [] else [s[0]] + Payload(s[1..])
  }

  function DecodeChars(s: string): (b: seq<Byte>)
    requires forall i :: 0 <= i < |s| ==> IsBase64(s[i])
  {
    if |s| < 2 then []
    else if |s| == 2 then Bytes(Join(IndexOf(s[0]), IndexOf(s[1]), 0, 0))[..1]
    else if |s| == 3 then Bytes(Join(IndexOf(s[0]), IndexOf(s[1]), IndexOf(s[2]), 0))[..2]
    else Bytes(Join(IndexOf(s[0]), IndexOf(s[1]), IndexOf(s[2]), IndexOf(s[3]))) + DecodeChars(s[4..])
  }

  function Decode(s: string): (b: seq<Byte>) { DecodeChars(Payload(s)) }

  lemma JoinSextets(n: int)
    requires 0 <= n < 0x100_0000
    ensures var x := Sextets(n); Join(x[0], x[1], x[2], x[3]) == n
  {
    assert n / 64 / 64 == n / 0x1000 && n / 0x1000 / 64 == n / 0x4_0000;
  }

  lemma SextetsJoin(w: Sextet, x: Sextet, y: Sextet, z: Sextet)
    ensures Sextets(Join(w, x, y, z)) == [w, x, y, z]
  {
    ModOf(64, w * 0x1000 + x * 64 + y, z);
    ModOf(64, w * 64 + x, y);
    ModOf(64, w, x);
    ModOf(0x1000, w * 64 + x, y * 64 + z);
    ModOf(0x4_0000, w, x * 0x1000 + y * 64 + z);
  }

  lemma BytesGroup(a: Byte, b: Byte, c: Byte)
    ensures Bytes(Group(a, b, c)) == [a, b, c]
  {
    ModOf(256, a * 256 + b, c);
    ModOf(256, a, b);
    ModOf(0x1_0000, a, b * 256 + c);
  }

  lemma GroupBytes(n: int)
    requires 0 <= n < 0x100_0000
    ensures var b := Bytes(n); Group(b[0], b[1], b[2]) == n
  {
    assert n / 0x100 / 0x100 == n / 0x1_0000;
  }

  /** The unused bits of a final group of two bytes are zero. */
  lemma TwoByteSextets(a: Byte, b: Byte)
    ensures Sextets(Group(a, b, 0))[3] == 0 && Sextets(Group(a, b, 0))[2] % 4 == 0
  {
    LowBits(Group(a, b, 0), a * 256 + b);
  }

  lemma LowBits(n: int, q: nat)
    requires n == 256 * q
    ensures n % 64 == 0 && n / 64 % 64 % 4 == 0
  {
    var h, l := q / 16, q % 16;
    ModOf(64, 4 * q, 0);
    assert 4 * q == 64 * h + 4 * l;
    ModOf(64, h, 4 * l);
    ModOf(4, l, 0);
  }

  /** The unused bits of a final group of one byte are zero. */
  lemma OneByteSextets(a: Byte)
    ensures Sextets(Group(a, 0, 0))[2] == 0 && Sextets(Group(a, 0, 0))[3] == 0 && Sextets(Group(a, 0, 0))[1] % 16 == 0
  {
    assert Group(a, 0, 0) == 64 * (a * 1024) + 0;
    ModOf(64, a * 1024, 0);
    ModOf(64, a * 16, 0);
    ModOf(0x1000, a * 16, 0);
    var h, l := a / 4, a % 4;
    assert a * 16 == 64 * h + 16 * l;
    ModOf(64, h, 16 * l);
  }

  lemma FinalBytes(w: Sextet, x: Sextet, y: Sextet)
    ensures y % 4 == 0 ==> Bytes(Join(w, x, y, 0))[2] == 0
    ensures x % 16 == 0 ==> Bytes(Join(w, x, 0, 0))[1] == 0 && Bytes(Join(w, x, 0, 0))[2] == 0
  {
    if y % 4 == 0 {
      ModOf(256, (w * 64 + x) * 16 + y / 4, 0);
    }
    if x % 16 == 0 {
      ModOf(256, (w * 4 + x / 16) * 256, 0);
      ModOf(256, w * 4 + x / 16, 0);
    }
  }

  // ----- decoding inverts encoding -----

  /** Reading back the first group of an encoding. */
  lemma DecodeGroup(a: Byte, b: Byte, c: Byte, rest: string)
    requires forall i :: 0 <= i < |rest| ==> IsBase64(rest[i])
    ensures var g := Chars(Sextets(Group(a, b, c)));
            && (forall i :: 0 <= i < |g + rest| ==> IsBase64((g + rest)[i]))
            && DecodeChars(g + rest) == [a, b, c] + DecodeChars(rest)
  {
    var x := Sextets(Group(a, b, c));
    var g := Chars(x);
    forall i | 0 <= i < 4 ensures IsBase64(g[i]) && IndexOf(g[i]) == x[i] { IndexOfCharOf(x[i]); }
    assert (g + rest)[4..] == rest;
    JoinSextets(Group(a, b, c));
    BytesGroup(a, b, c);
  }

  lemma IndicesOfChars(x: seq<Sextet>)
    ensures forall i :: 0 <= i < |x| ==> IsBase64(Chars(x)[i]) && IndexOf(Chars(x)[i]) == x[i]
  {
    forall i | 0 <= i < |x| ensures IsBase64(Chars(x)[i]) && IndexOf(Chars(x)[i]) == x[i] { IndexOfCharOf(x[i]); }
  }

  lemma DecodeTwoBytes(a: Byte, b: Byte)
    ensures var g := Chars(Sextets(Group(a, b, 0))[..3]);
            (forall i :: 0 <= i < 3 ==> IsBase64(g[i])) && DecodeChars(g) == [a, b]
  {
    TwoByteSextets(a, b);
    JoinSextets(Group(a, b, 0));
    BytesGroup(a, b, 0);
    hide Sextets, Group, Bytes, Join, IndexOf;
    IndicesOfChars(Sextets(Group(a, b, 0))[..3]);
  }

  lemma DecodeOneByte(a: Byte)
    ensures var g := Chars(Sextets(Group(a, 0, 0))[..2]);
            (forall i :: 0 <= i < 2 ==> IsBase64(g[i])) && DecodeChars(g) == [a]
  {
    OneByteSextets(a);
    JoinSextets(Group(a, 0, 0));
    BytesGroup(a, 0, 0);
    hide Sextets, Group, Bytes, Join, IndexOf;
    IndicesOfChars(Sextets(Group(a, 0, 0))[..2]);
  }

  /** A prefix of alphabet characters is part of the payload. */
  lemma {:induction false} PayloadAppend(a: string, b: string)
    requires forall i :: 0 <= i < |a| ==> IsBase64(a[i])
    ensures Payload(a + b) == a + Payload(b)
  {
    if a == [] {
      assert a + b == b;
    } else {
      assert (a + b)[1..] == a[1..] + b;
      PayloadAppend(a[1..], b);
    }
  }

  lemma CharsAreBase64(x: seq<Sextet>)
    ensures forall i :: 0 <= i < |x| ==> IsBase64(Chars(x)[i])
  {
    forall i | 0 <= i < |x| ensures IsBase64(Chars(x)[i]) { IndexOfCharOf(x[i]); }
  }

  lemma DecodeEncodeFinal(b: seq<Byte>)
    requires 1 <= |b| <= 2
    ensures Decode(Encode(b)) == b && |Encode(b)| == 4
  {
    hide Sextets, Group, Bytes, Join, DecodeChars;
    var g := if |b| == 1 then Chars(Sextets(Group(b[0], 0, 0))[..2]) else Chars(Sextets(Group(b[0], b[1], 0))[..3]);
    var pad := if |b| == 1 then "==" else "=";
    if |b| == 1 {
      DecodeOneByte(b[0]);
    } else {
      DecodeTwoBytes(b[0], b[1]);
    }
    PayloadAppend(g, pad);
    assert Payload(pad) == [] && g + [] == g;
  }

  /** The encoding has four characters for every three bytes begun. */
  lemma {:induction false} EncodeLength(b: seq<Byte>)
    ensures |Encode(b)| == 4 * ((|b| + 2) / 3)
  {
    hide Sextets, Group;
    if |b| >= 3 {
      EncodeLength(b[3..]);
      ModOf(3, (|b| - 1) / 3, (|b| - 1) % 3);
    }
  }

  /** Decoding an encoding gives the bytes back. */
  lemma {:induction false} DecodeEncode(b: seq<Byte>)
    ensures Decode(Encode(b)) == b
  {
    hide Sextets, Group, Bytes, Join, DecodeChars;
    if |b| == 0 {
      DecodeNothing();
    } else if |b| <= 2 {
      DecodeEncodeFinal(b);
    } else {
      var x, rest := Sextets(Group(b[0], b[1], b[2])), Encode(b[3..]);
      DecodeEncode(b[3..]);
      CharsAreBase64(x);
      PayloadAppend(Chars(x), rest);
      DecodeGroup(b[0], b[1], b[2], Payload(rest));
      assert b == [b[0], b[1], b[2]] + b[3..];
    }
  }

  lemma DecodeNothing()
    ensures Decode(Encode([])) == []
  {
  }

  // ----- encoding inverts decoding on canonical strings, and on no others -----

  /** Padded, with zero bits where a final group has bits to spare (section 3.5 of RFC 4648). */
  predicate Canonical(s: string) {
    if |s| == 0 then true
    else if |s| < 4 then false
    else if |s| == 4 && s[3] == '=' then
      IsBase64(s[0]) && IsBase64(s[1]) &&
      (if s[2] == '=' then IndexOf(s[1]) % 16 == 0 else IsBase64(s[2]) && IndexOf(s[2]) % 4 == 0)
    else
      IsBase64(s[0]) && IsBase64(s[1]) && IsBase64(s[2]) && IsBase64(s[3]) && Canonical(s[4..])
  }

  lemma {:induction false} EncodeIsCanonical(b: seq<Byte>)
    ensures Canonical(Encode(b))
  {
    if |b| == 0 {
    } else if |b| <= 2 {
      var b1 := if |b| == 1 then 0 else b[1];
      TwoByteSextets(b[0], b1);
      OneByteSextets(b[0]);
      var x := Sextets(Group(b[0], b1, 0));
      forall i | 0 <= i < 4 ensures IsBase64(CharOf(x[i])) && IndexOf(CharOf(x[i])) == x[i] { IndexOfCharOf(x[i]); }
      assert CharOf(x[2]) != '=';
    } else {
      var x, rest := Sextets(Group(b[0], b[1], b[2])), Encode(b[3..]);
      CharsAreBase64(x);
      EncodeIsCanonical(b[3..]);
      assert (Chars(x) + rest)[4..] == rest;
    }
  }

  /** Encoding what a full group decodes to. */
  lemma EncodeGroup(s: string)
    requires |s| == 4 && forall i :: 0 <= i < 4 ==> IsBase64(s[i])
    ensures var b := Bytes(Join(IndexOf(s[0]), IndexOf(s[1]), IndexOf(s[2]), IndexOf(s[3])));
            Chars(Sextets(Group(b[0], b[1], b[2]))) == s
  {
    var n := Join(IndexOf(s[0]), IndexOf(s[1]), IndexOf(s[2]), IndexOf(s[3]));
    GroupBytes(n);
    SextetsJoin(IndexOf(s[0]), IndexOf(s[1]), IndexOf(s[2]), IndexOf(s[3]));
    forall i | 0 <= i < 4 ensures CharOf(IndexOf(s[i])) == s[i] { CharOfIndexOf(s[i]); }
  }

  lemma EncodeFinal(s: string)
    requires |s| == 4 && s[3] == '=' && Canonical(s)
    ensures Encode(Decode(s)) == s
  {
    var k := if s[2] == '=' then 2 else 3;
    assert s == s[..k] + s[k..];
    PayloadAppend(s[..k], s[k..]);
    assert Payload(s[k..]) == [] && s[..k] + [] == s[..k];
    var w, x := IndexOf(s[0]), IndexOf(s[1]);
    var y := if k == 2 then 0 else IndexOf(s[2]);
    var n := Join(w, x, y, 0);
    FinalBytes(w, x, y);
    GroupBytes(n);
    SextetsJoin(w, x, y, 0);
    forall i | 0 <= i < k ensures CharOf(IndexOf(s[i])) == s[i] { CharOfIndexOf(s[i]); }
  }

  lemma {:induction false} CanonicalIsEncoding(s: string)
    requires Canonical(s)
    ensures Encode(Decode(s)) == s
  {
    if s == [] {
    } else if |s| == 4 && s[3] == '=' {
      EncodeFinal(s);
    } else {
      var g, rest := s[..4], s[4..];
      assert s == g + rest;
      PayloadAppend(g, rest);
      CanonicalIsEncoding(rest);
      EncodeGroup(g);
      var p := Payload(rest);
      assert (g + p)[4..] == p;
      var n := Join(IndexOf(s[0]), IndexOf(s[1]), IndexOf(s[2]), IndexOf(s[3]));
      assert (Bytes(n) + Decode(rest))[3..] == Decode(rest);
    }
  }

  /** Exactly the canonical strings are recovered by encoding their decoding. */
  lemma EncodeDecode(s: string)
    ensures Encode(Decode(s)) == s <==> Canonical(s)
  {
    if Canonical(s) {
      CanonicalIsEncoding(s);
    } else {
      EncodeIsCanonical(Decode(s));
    }
  }
}

/** The loops of the source, over its two small arrays. */
module Base64Loops {
  import opened Arithmetic
  import opened Base64

  lemma {:induction false} EncodeAppend(n: nat, a: seq<Byte>, b: seq<Byte>)
    requires |a| == 3 * n
    ensures Encode(a + b) == Encode(a) + Encode(b)
  {
    hide Sextets, Group, Chars;
    if a == [] {
      assert a + b == b;
    } else {
      assert (a + b)[3..] == a[3..] + b;
      EncodeAppend(n - 1, a[3..], b);
    }
  }

  /** The character for six bits is the one at that place of the alphabet of section 4 of RFC 4648. */
  lemma Alphabet(x: Sextet)
    ensures var letters := "ABCDEFGHIJKLMNOPQRSTUVWXYZ" + "abcdefghijklmnopqrstuvwxyz" + "0123456789+/";
            |letters| == 64 && letters[x] == CharOf(x)
  {
    Table(x);
  }

  /** The number that up to three bytes of `b` make, with zero bytes for those that are missing. */
  function GroupNumber(b: seq<Byte>): (n: int)
    requires b != []
    ensures 0 <= n < 0x100_0000
  {
    var first: int, second: int, third: int := b[0], if |b| > 1 then b[1] else 0, if |b| > 2 then b[2] else 0;
    65536 * first + 256 * second + third
  }

  /** The four characters for a number that stands for `left` bytes, or three if there are more. */
  predicate IsGroup(s: string, n: int, left: nat)
    requires 0 <= n < 0x100_0000
  {
    && |s| == 4 && s[0] == CharOf(n / 64 / 64 / 64 % 64) && s[1] == CharOf(n / 64 / 64 % 64)
    && s[2] == (if left > 1 then CharOf(n / 64 % 64) else '=')
    && s[3] == (if left > 2 then CharOf(n % 64) else '=')
  }

  /** The encoding group by group: three bytes are one number, and the characters are its four digits to base 64. */
  lemma EncodedGroup(b: seq<Byte>, g: nat)
    requires 3 * g < |b|
    ensures |Encode(b)| >= 4 * g + 4
    ensures IsGroup(Encode(b)[4 * g..4 * g + 4], GroupNumber(b[3 * g..]), |b| - 3 * g)
  {
    hide Encode, IsGroup, GroupNumber;
    var a, rest := b[..3 * g], b[3 * g..];
    assert b == a + rest;
    EncodeAppend(g, a, rest);
    EncodeLength(a);
    assert |Encode(a)| == 4 * g;
    FirstGroup(rest);
    assert Encode(b)[4 * g..4 * g + 4] == Encode(rest)[..4];
  }

  lemma DigitsAre(n: int)
    requires 0 <= n < 0x100_0000
    ensures Sextets(n) == [n / 64 / 64 / 64 % 64, n / 64 / 64 % 64, n / 64 % 64, n % 64]
  {
  }

  lemma FirstGroup(b: seq<Byte>)
    requires b != []
    ensures |Encode(b)| >= 4 && IsGroup(Encode(b)[..4], GroupNumber(b), |b|)
  {
    var left := |b|;
    var n := Group(b[0], if left > 1 then b[1] else 0, if left > 2 then b[2] else 0);
    assert n == GroupNumber(b);
    DigitsAre(n);
    hide CharOf, Sextets, Group, GroupNumber;
  }

  ghost predicate AllBase64(s: string) { forall i :: 0 <= i < |s| ==> IsBase64(s[i]) }

  lemma AllBase64Split(a: string, b: string)
    requires AllBase64(a + b)
    ensures AllBase64(a) && AllBase64(b)
  {
    assert forall i :: 0 <= i < |a| ==> a[i] == (a + b)[i];
    assert forall i :: 0 <= i < |b| ==> b[i] == (a + b)[|a| + i];
  }

  lemma {:induction false} DecodeAppend(n: nat, a: string, b: string)
    requires |a| == 4 * n && AllBase64(a) && AllBase64(b)
    ensures AllBase64(a + b) && DecodeChars(a + b) == DecodeChars(a) + DecodeChars(b)
  {
    hide Bytes, Join, IndexOf, IsBase64;
    if a == [] {
      assert a + b == b;
    } else {
      assert (a + b)[4..] == a[4..] + b;
      DecodeAppend(n - 1, a[4..], b);
    }
  }

  /** Decoding stops at the first character outside of the alphabet. */
  lemma DecodeStops(a: string, c: char, rest: string)
    requires AllBase64(a) && !IsBase64(c)
    ensures Decode(a + [c] + rest) == Decode(a) == DecodeChars(a)
  {
    hide IsBase64, DecodeChars;
    assert a + [c] + rest == a + ([c] + rest) && a + "" == a;
    PayloadAppend(a, [c] + rest);
    PayloadAppend(a, "");
    assert a + [] == a;
  }

  function DigitsNumber(w: Sextet, x: Sextet, y: Sextet, z: Sextet): (n: int)
    ensures 0 <= n < 0x100_0000
  {
    var (a: int, b: int, c: int, d: int) := (w, x, y, z);
    64 * (64 * (64 * a + b) + c) + d
  }

  /** The number that up to four characters make, with zero digits for those that are missing. */
  function CharsNumber(s: string): (n: int)
    requires s != [] && AllBase64(s)
    ensures 0 <= n < 0x100_0000
  {
    DigitsNumber(IndexOf(s[0]), if |s| > 1 then IndexOf(s[1]) else 0, if |s| > 2 then IndexOf(s[2]) else 0,
                 if |s| > 3 then IndexOf(s[3]) else 0)
  }

  /** The bytes of a number that stands for `left` characters, or four if there are more: one less than those. */
  function NumberBytes(n: int, left: nat): (b: seq<Byte>)
    requires 0 <= n < 0x100_0000 && left > 0
  {
    [n / 65536, n / 256 % 256, n % 256][..if left > 3 then 3 else left - 1]
  }

  lemma {:induction false} DecodedLength(g: nat, s: string)
    requires |s| == 4 * g && AllBase64(s)
    ensures |DecodeChars(s)| == 3 * g
  {
    hide IsBase64, IndexOf, Join, Bytes;
    if g > 0 {
      DecodedLength(g - 1, s[4..]);
    }
  }

  /** The decoding group by group: four characters are one number, and the bytes are its digits to base 256. */
  lemma DecodedGroup(s: string, g: nat)
    requires AllBase64(s) && 4 * g < |s|
    ensures AllBase64(s[4 * g..])
    ensures var left := |s| - 4 * g;
            var k := if left > 3 then 3 else left - 1;
            |DecodeChars(s)| >= 3 * g + k && DecodeChars(s)[3 * g..3 * g + k] == NumberBytes(CharsNumber(s[4 * g..]), left)
  {
    hide IsBase64, DecodeChars, NumberBytes, CharsNumber;
    var a, rest := s[..4 * g], s[4 * g..];
    assert s == a + rest;
    AllBase64Split(a, rest);
    DecodeAppend(g, a, rest);
    DecodedLength(g, a);
    FirstDecoded(rest);
    var k := if |rest| > 3 then 3 else |rest| - 1;
    assert DecodeChars(s)[3 * g..3 * g + k] == DecodeChars(rest)[..k];
  }

  lemma FirstDecoded(s: string)
    requires AllBase64(s) && s != []
    ensures var k := if |s| > 3 then 3 else |s| - 1;
            |DecodeChars(s)| >= k && DecodeChars(s)[..k] == NumberBytes(CharsNumber(s), |s|)
  {
    var n := Join(IndexOf(s[0]), if |s| > 1 then IndexOf(s[1]) else 0, if |s| > 2 then IndexOf(s[2]) else 0,
                  if |s| > 3 then IndexOf(s[3]) else 0);
    assert n == CharsNumber(s);
    hide IsBase64, IndexOf, Join, CharsNumber;
  }


  /** The four assignments to `char_array_4` in the encoder. */
  method Split(a3: array<Byte>, a4: array<Byte>)
    requires a3.Length == 3 && a4.Length == 4 && a3 != a4
    modifies a4
    ensures a4[..] == Sextets(Group(a3[0], a3[1], a3[2]))
  {
    SplitIsSextets(a3[0], a3[1], a3[2]);
    a4[0] := a3[0] / 4;
    a4[1] := a3[0] % 4 * 16 + a3[1] / 16;
    a4[2] := a3[1] % 16 * 4 + a3[2] / 64;
    a4[3] := a3[2] % 64;
  }

  lemma SplitIsSextets(a: Byte, b: Byte, c: Byte)
    ensures Sextets(Group(a, b, c)) == [a / 4, a % 4 * 16 + b / 16, b % 16 * 4 + c / 64, c % 64]
  {
    var x, y, z, w := a / 4, a % 4 * 16 + b / 16, b % 16 * 4 + c / 64, c % 64;
    assert Group(a, b, c) == Join(x, y, z, w);
    SextetsJoin(x, y, z, w);
  }

  /** Append the characters of the first `n` sextets. */
  method Emit(ret: string, a4: array<Byte>, n: nat) returns (r: string)
    requires n <= a4.Length && forall j :: 0 <= j < n ==> a4[j] < 64
    ensures r == ret + Chars(a4[..n])
  {
    r := ret;
    for j := 0 to n
      invariant r == ret + Chars(a4[..j])
    {
      Table(a4[j]);
      r := r + [CHARS[a4[j]]];
      assert Chars(a4[..j + 1]) == Chars(a4[..j]) + [CharOf(a4[j])];
    }
  }

  method EncodeLoop(bytes: seq<Byte>) returns (ret: string)
    ensures ret == Encode(bytes)
  {
    hide Sextets, Group, Chars, Encode;
    ret := "";
    var a3, a4 := new Byte[3], new Byte[4];
    var i: nat, k: nat := 0, 0;
    ghost var n: nat := 0;
    EncodeNothing();
    while k < |bytes|
      invariant i < 3 && k == 3 * n + i <= |bytes|
      invariant forall j :: 0 <= j < i ==> a3[j] == bytes[3 * n + j]
      invariant ret == Encode(bytes[..3 * n])
    {
      a3[i] := bytes[k];
      i, k := i + 1, k + 1;
      if i == 3 {
        Split(a3, a4);
        SextetsBelow64(Group(a3[0], a3[1], a3[2]));
        ret := Emit(ret, a4, 4);
        assert a4[..4] == a4[..];
        FullGroup(bytes, n);
        i, n := 0, n + 1;
      }
    }
    if i != 0 {
      ret := EncodeTail(ret, bytes, a3, a4, i, n);
    } else {
      assert bytes[..k] == bytes;
    }
  }

  lemma EncodeNothing()
    ensures Encode([]) == ""
  {
  }

  lemma SextetsBelow64(n: int)
    requires 0 <= n < 0x100_0000
    ensures forall j :: 0 <= j < 4 ==> 0 <= Sextets(n)[j] < 64
  {
  }

  lemma FullGroup(bytes: seq<Byte>, n: nat)
    requires 3 * n + 3 <= |bytes|
    ensures Encode(bytes[..3 * n + 3])
         == Encode(bytes[..3 * n]) + Chars(Sextets(Group(bytes[3 * n], bytes[3 * n + 1], bytes[3 * n + 2])))
  {
    hide Sextets, Group, Chars;
    var g := bytes[3 * n..3 * n + 3];
    assert bytes[..3 * n + 3] == bytes[..3 * n] + g;
    EncodeAppend(n, bytes[..3 * n], g);
    assert Encode(g) == Chars(Sextets(Group(g[0], g[1], g[2]))) + Encode(g[3..]);
  }

  /** The part after the main loop: `i0` bytes are left over in `a3`. */
  method EncodeTail(ret0: string, bytes: seq<Byte>, a3: array<Byte>, a4: array<Byte>, i0: nat, ghost n: nat)
    returns (ret: string)
    requires a3.Length == 3 && a4.Length == 4 && a3 != a4
    requires 1 <= i0 <= 2 && |bytes| == 3 * n + i0 && ret0 == Encode(bytes[..3 * n])
    requires forall j :: 0 <= j < i0 ==> a3[j] == bytes[3 * n + j]
    modifies a3, a4
    ensures ret == Encode(bytes)
  {
    hide Sextets, Group, Chars, Encode;
    var i := i0;
    for j := i to 3
      invariant forall m :: 0 <= m < i0 ==> a3[m] == bytes[3 * n + m]
      invariant forall m :: i0 <= m < j ==> a3[m] == 0
    {
      a3[j] := 0;
    }
    Split(a3, a4);
    SextetsBelow64(Group(a3[0], a3[1], a3[2]));
    ghost var x := Sextets(Group(a3[0], a3[1], a3[2]));
    ret := Emit(ret0, a4, i + 1);
    assert a4[..i0 + 1] == x[..i0 + 1];
    LastGroup(bytes, n, x);
    ret := Pad(ret, i);
  }

  /** Fill the last group up to four characters. */
  method Pad(ret0: string, i0: nat) returns (ret: string)
    requires 1 <= i0 <= 2
    ensures ret == ret0 + (if i0 == 1 then "==" else "=")
  {
    var i := i0;
    ret := ret0;
    while i < 3
      invariant i0 <= i <= 3
      invariant ret == ret0 + (if i == i0 then "" else if i == i0 + 1 then "=" else "==")
    {
      ret, i := ret + "=", i + 1;
    }
  }

  lemma LastGroup(bytes: seq<Byte>, n: nat, x: seq<Sextet>)
    requires 3 * n + 1 <= |bytes| <= 3 * n + 2
    requires x == Sextets(Group(bytes[3 * n], if |bytes| == 3 * n + 1 then 0 else bytes[3 * n + 1], 0))
    ensures Encode(bytes) == Encode(bytes[..3 * n]) + Chars(x[..|bytes| - 3 * n + 1])
                               + (if |bytes| == 3 * n + 1 then "==" else "=")
  {
    hide Sextets, Group, Chars;
    var g := bytes[3 * n..];
    assert bytes == bytes[..3 * n] + g;
    EncodeAppend(n, bytes[..3 * n], g);
  }

  /** `chars.find(c)` cast to unsigned char: 255 when `c` is not in the table. */
  function Find(c: Byte, k: nat): (x: Byte)
    requires k <= 64
    decreases 64 - k
  {
    Table(0);
    if k == 64 then 255 else if CHARS[k] == c as char then k else Find(c, k + 1)
  }

  lemma {:induction false} FindHits(x: Sextet, c: Byte, k: nat)
    requires k <= x && c as char == CharOf(x)
    ensures Find(c, k) == x
    decreases x - k
  {
    hide CharOf, IndexOf, IsBase64;
    Table(k);
    IndexOfCharOf(x);
    IndexOfCharOf(k);
    if k < x {
      FindHits(x, c, k + 1);
    }
  }

  lemma {:induction false} FindMisses(c: Byte, k: nat)
    requires k <= 64 && !IsBase64(c as char)
    ensures Find(c, k) == 255
    decreases 64 - k
  {
    if k < 64 {
      Table(k);
      IndexOfCharOf(k);
      FindMisses(c, k + 1);
    }
  }

  lemma FindIsIndex(c: Byte)
    requires IsBase64(c as char)
    ensures Find(c, 0) == IndexOf(c as char)
  {
    CharOfIndexOf(c as char);
    FindHits(IndexOf(c as char), c, 0);
  }

  /** Replace four characters by their positions in the table; one that is not there becomes 255. */
  method Lookup(a4: array<Byte>)
    requires a4.Length == 4
    modifies a4
    ensures forall j :: 0 <= j < 4 ==> a4[j] == Find(old(a4[j]), 0)
  {
    for j := 0 to 4
      invariant forall m :: 0 <= m < j ==> a4[m] == Find(old(a4[m]), 0)
      invariant forall m :: j <= m < 4 ==> a4[m] == old(a4[m])
    {
      a4[j] := Find(a4[j], 0);
    }
  }

  /** The three assignments to `char_array_3` in the decoder, truncated to unsigned char. */
  function Merge(w: Byte, x: Byte, y: Byte, z: Byte): (b: seq<Byte>)
    ensures |b| == 3
  {
    [(w * 4 + x / 16 % 4) % 256, (x % 16 * 16 + y / 4 % 16) % 256, (y % 4 * 64 + z) % 256]
  }

  lemma MergeIsBytes(w: Sextet, x: Sextet, y: Byte, z: Byte)
    ensures Merge(w, x, y, z)[0] == Bytes(Join(w, x, 0, 0))[0]
    ensures y < 64 ==> Merge(w, x, y, z)[..2] == Bytes(Join(w, x, y, 0))[..2]
    ensures y < 64 && z < 64 ==> Merge(w, x, y, z) == Bytes(Join(w, x, y, z))
  {
    hide Bytes, Join;
    JoinAsBytes(w, x, 0, 0);
    if y < 64 {
      JoinAsBytes(w, x, y, 0);
      if z < 64 {
        JoinAsBytes(w, x, y, z);
      }
    }
  }

  lemma JoinAsBytes(w: Sextet, x: Sextet, y: Sextet, z: Sextet)
    ensures Bytes(Join(w, x, y, z)) == Merge(w, x, y, z)
  {
    var xh, xl, yh, yl := x / 16, x % 16, y / 4, y % 4;
    assert x == 16 * xh + xl && y == 4 * yh + yl;
    assert Join(w, x, y, z) == Group(w * 4 + xh, xl * 16 + yh, yl * 64 + z);
    hide Bytes, Join, Group, Merge;
    BytesGroup(w * 4 + xh, xl * 16 + yh, yl * 64 + z);
    MergeOfParts(w, xh, xl, yh, yl, z);
  }

  lemma MergeOfParts(w: int, xh: int, xl: int, yh: int, yl: int, z: int)
    requires 0 <= w < 64 && 0 <= xh < 4 && 0 <= xl < 16 && 0 <= yh < 16 && 0 <= yl < 4 && 0 <= z < 64
    ensures Merge(w, 16 * xh + xl, 4 * yh + yl, z) == [w * 4 + xh, xl * 16 + yh, yl * 64 + z]
  {
    ModOf(16, xh, xl);
    ModOf(4, 0, xh);
    ModOf(4, yh, yl);
    ModOf(16, 0, yh);
    ModOf(256, 0, w * 4 + xh);
    ModOf(256, 0, xl * 16 + yh);
    ModOf(256, 0, yl * 64 + z);
  }

  method DecodeLoop(s: string) returns (ret: seq<Byte>)
    ensures ret == Decode(s)
  {
    hide Bytes, Join, IndexOf, DecodeChars, Find, Merge;
    ret := [];
    var a4 := new Byte[4];
    var i: nat, k: nat := 0, 0;
    ghost var n: nat := 0;
    DecodeNoChars();
    while k < |s| && s[k] != '=' && IsBase64(s[k])
      invariant i < 4 && k == 4 * n + i <= |s|
      invariant AllBase64(s[..k]) && AllBase64(s[..4 * n])
      invariant forall j :: 0 <= j < i ==> a4[j] as char == s[4 * n + j]
      invariant ret == DecodeChars(s[..4 * n])
    {
      a4[i] := s[k] as int;
      i, k := i + 1, k + 1;
      if i == 4 {
        ret := DecodeFullGroup(ret, s, a4, n);
        i, n := 0, n + 1;
      }
    }
    if i != 0 {
      assert s[..k][..4 * n] == s[..4 * n];
      ret := DecodeTail(ret, s[..k], a4, i, n);
    }
    assert s == s[..k] + s[k..];
    PayloadAppend(s[..k], s[k..]);
    assert s[..k] + [] == s[..k];
  }

  lemma DecodeNoChars()
    ensures DecodeChars([]) == []
  {
  }

  /** The body of `if (i == 4)`. */
  method DecodeFullGroup(ret0: seq<Byte>, s: string, a4: array<Byte>, ghost n: nat) returns (ret: seq<Byte>)
    requires a4.Length == 4 && 4 * n + 4 <= |s| && AllBase64(s[..4 * n]) && AllBase64(s[..4 * n + 4])
    requires forall j :: 0 <= j < 4 ==> a4[j] as char == s[4 * n + j]
    requires ret0 == DecodeChars(s[..4 * n])
    modifies a4
    ensures ret == DecodeChars(s[..4 * n + 4])
  {
    hide Bytes, Join, IndexOf, DecodeChars, Find, Merge;
    forall j | 0 <= j < 4 ensures IsBase64(a4[j] as char) && Find(a4[j], 0) == IndexOf(a4[j] as char) {
      assert s[..4 * n + 4][4 * n + j] == a4[j] as char;
      FindIsIndex(a4[j]);
    }
    Lookup(a4);
    MergeIsBytes(a4[0], a4[1], a4[2], a4[3]);
    FullChars(s, n);
    ret := ret0 + Merge(a4[0], a4[1], a4[2], a4[3]);
  }

  lemma FullChars(s: string, n: nat)
    requires 4 * n + 4 <= |s| && AllBase64(s[..4 * n + 4])
    ensures IsBase64(s[4 * n]) && IsBase64(s[4 * n + 1]) && IsBase64(s[4 * n + 2]) && IsBase64(s[4 * n + 3])
    ensures AllBase64(s[..4 * n])
    ensures DecodeChars(s[..4 * n + 4]) == DecodeChars(s[..4 * n])
              + Bytes(Join(IndexOf(s[4 * n]), IndexOf(s[4 * n + 1]), IndexOf(s[4 * n + 2]), IndexOf(s[4 * n + 3])))
  {
    hide Bytes, Join, IndexOf, IsBase64;
    var t, g := s[..4 * n], s[4 * n..4 * n + 4];
    assert s[..4 * n + 4] == t + g;
    AllBase64Split(t, g);
    assert g[0] == s[4 * n] && g[1] == s[4 * n + 1] && g[2] == s[4 * n + 2] && g[3] == s[4 * n + 3];
    DecodeAppend(n, t, g);
    assert g[4..] == [];
    assert DecodeChars(g) == Bytes(Join(IndexOf(g[0]), IndexOf(g[1]), IndexOf(g[2]), IndexOf(g[3]))) + DecodeChars(g[4..]);
  }

  /** The part after the main loop: `i` characters are left over in `a4`; the rest is looked up as NUL. */
  method DecodeTail(ret0: seq<Byte>, t: string, a4: array<Byte>, i: nat, ghost n: nat) returns (ret: seq<Byte>)
    requires a4.Length == 4 && 1 <= i <= 3 && |t| == 4 * n + i
    requires AllBase64(t) && AllBase64(t[..4 * n]) && ret0 == DecodeChars(t[..4 * n])
    requires forall j :: 0 <= j < i ==> a4[j] as char == t[4 * n + j]
    modifies a4
    ensures ret == DecodeChars(t)
  {
    hide Bytes, Join, IndexOf, DecodeChars, Find, Merge;
    for j := i to 4
      invariant forall m :: 0 <= m < i ==> a4[m] as char == t[4 * n + m]
      invariant forall m :: i <= m < j ==> a4[m] == 0
    {
      a4[j] := 0;
    }
    forall j | 0 <= j < i ensures IsBase64(t[4 * n + j]) && Find(a4[j], 0) == IndexOf(t[4 * n + j]) {
      FindIsIndex(a4[j]);
    }
    FindMisses(0, 0);
    Lookup(a4);
    var b := Merge(a4[0], a4[1], a4[2], a4[3]);
    LastChars(t, n, a4[0], a4[1], a4[2], a4[3]);
    ret := ret0;
    for j := 0 to i - 1
      invariant ret == ret0 + b[..j]
    {
      ret := ret + [b[j]];
    }
  }

  lemma LastChars(t: string, n: nat, w: Byte, x: Byte, y: Byte, z: Byte)
    requires 4 * n + 1 <= |t| <= 4 * n + 3 && AllBase64(t)
    requires IsBase64(t[4 * n]) && w == IndexOf(t[4 * n])
    requires |t| >= 4 * n + 2 ==> IsBase64(t[4 * n + 1]) && x == IndexOf(t[4 * n + 1])
    requires |t| == 4 * n + 3 ==> IsBase64(t[4 * n + 2]) && y == IndexOf(t[4 * n + 2])
    ensures AllBase64(t[..4 * n])
    ensures DecodeChars(t) == DecodeChars(t[..4 * n]) + Merge(w, x, y, z)[..|t| - 4 * n - 1]
  {
    hide Bytes, Join, IndexOf, Merge, IsBase64, DecodeChars;
    var u, g := t[..4 * n], t[4 * n..];
    assert t == u + g;
    assert forall j :: 0 <= j < |g| ==> g[j] == t[4 * n + j];
    DecodeAppend(n, u, g);
    LastGroupChars(g, w, x, y, z);
  }

  lemma LastGroupChars(g: string, w: Byte, x: Byte, y: Byte, z: Byte)
    requires 1 <= |g| <= 3 && AllBase64(g) && w == IndexOf(g[0])
    requires |g| >= 2 ==> x == IndexOf(g[1])
    requires |g| == 3 ==> y == IndexOf(g[2])
    ensures DecodeChars(g) == Merge(w, x, y, z)[..|g| - 1]
  {
    hide Bytes, Join, IndexOf, Merge, IsBase64;
    if |g| >= 2 {
      MergeIsBytes(w, x, y, z);
    }
  }
}
