/** Base64url without padding (section 5 of RFC 4648): encoding, and a decoder that accepts only what is encoded. */
module RchatBase64 {
  import opened Bits
  import opened Wrappers

  type sextet = x: int | 0 <= x < 64

  function Alphabet(v: sextet): u8 {
    if v < 26 then 65 + v else if v < 52 then 97 + (v - 26) else if v < 62 then 48 + (v - 52)
    else if v == 62 then 45 else 95
  }

  function Value(c: u8): Option<sextet> {
    if 65 <= c <= 90 then Some(c - 65)
    else if 97 <= c <= 122 then Some(c - 97 + 26)
    else if 48 <= c <= 57 then Some(c - 48 + 52)
    else if c == 45 then Some(62)
    else if c == 95 then Some(63)
    else None
  }

  /** The alphabet of section 5 of RFC 4648. */
  lemma AlphabetIsStandard(v: sextet)
    ensures v < 26 ==> Alphabet(v) == "ABCDEFGHIJKLMNOPQRSTUVWXYZ"[v] as int
    ensures 26 <= v < 52 ==> Alphabet(v) == "abcdefghijklmnopqrstuvwxyz"[v - 26] as int
    ensures 52 <= v ==> Alphabet(v) == "0123456789-_"[v - 52] as int
  {
    var upper, lower := "ABCDEFGHIJKLMNOPQRSTUVWXYZ", "abcdefghijklmnopqrstuvwxyz";
    LettersInOrder(upper, 65);
    LettersInOrder(lower, 97);
  }

  lemma LettersInOrder(s: string, first: nat)
    requires (s == "ABCDEFGHIJKLMNOPQRSTUVWXYZ" && first == 65) || (s == "abcdefghijklmnopqrstuvwxyz" && first == 97)
    ensures forall i :: 0 <= i < |s| ==> s[i] as int == first + i
  {
  }

  /** Characters and six-bit values correspond one to one. */
  lemma AlphabetIsValue(v: sextet, c: u8)
    ensures Value(Alphabet(v)) == Some(v)
    ensures Value(c).Some? ==> Alphabet(Value(c).value) == c
  {
  }

  lemma AlphabetIsValid()
    ensures forall v: sextet :: Value(Alphabet(v)) == Some(v)
  {
    forall v: sextet
      ensures Value(Alphabet(v)) == Some(v)
    {
      AlphabetIsValue(v, 0);
    }
  }

  function EncodedLength(n: nat): nat {
    (n * 4 + 2) / 3
  }

  /** Three bytes give four characters; what is left over is padded with zero bits to a whole character. */
  function Encode(s: seq<u8>): (r: seq<u8>)
    ensures |r| == EncodedLength(|s|)
  {
    if s == [] then []
    else if |s| == 1 then
      [Alphabet(s[0] / 4), Alphabet(s[0] % 4 * 16)]
    else if |s| == 2 then
      [Alphabet(s[0] / 4), Alphabet(s[0] % 4 * 16 + s[1] / 16), Alphabet(s[1] % 16 * 4)]
    else
      [Alphabet(s[0] / 4), Alphabet(s[0] % 4 * 16 + s[1] / 16), Alphabet(s[1] % 16 * 4 + s[2] / 64),
       Alphabet(s[2] % 64)] + Encode(s[3..])
  }

  /** A byte string as a number, first byte most significant. */
  function Bytes(s: seq<u8>): nat {
    if s == [] then 0 else Bytes(s[..|s| - 1]) * 256 + s[|s| - 1]
  }

  predicate AllValues(t: seq<u8>) {
    forall i :: 0 <= i < |t| ==> Value(t[i]).Some?
  }

  /** A character string as a number, first character most significant. */
  function Sextets(t: seq<u8>): nat
    requires AllValues(t)
  {
    if t == [] then 0 else Sextets(t[..|t| - 1]) * 64 + Value(t[|t| - 1]).value
  }

  function Pow64(n: nat): nat {
    if n == 0 then 1 else 64 * Pow64(n - 1)
  }

  function Pow256(n: nat): nat {
    if n == 0 then 1 else 256 * Pow256(n - 1)
  }

  lemma {:induction false} SextetsAppend(a: seq<u8>, b: seq<u8>)
    requires AllValues(a) && AllValues(b)
    ensures AllValues(a + b) && Sextets(a + b) == Sextets(a) * Pow64(|b|) + Sextets(b)
  {
    hide Value;
    hide Pow64;
    if b == [] {
      assert a + b == a;
      Powers64(0);
    } else {
      var k := |b| - 1;
      SextetsAppend(a, b[..k]);
      assert (a + b)[..|a + b| - 1] == a + b[..k];
      Powers64(k);
      OneDigit(Sextets(a), Pow64(k), Sextets(b[..k]), 64);
    }
  }

  lemma Powers64(k: nat)
    ensures Pow64(0) == 1 && Pow64(k + 1) == 64 * Pow64(k)
  {
  }

  lemma Powers256(k: nat)
    ensures Pow256(0) == 1 && Pow256(k + 1) == 256 * Pow256(k)
  {
  }

  /** One more digit in base c. */
  lemma OneDigit(x: nat, p: nat, y: nat, c: nat)
    ensures (x * p + y) * c == x * (c * p) + y * c
  {
    MulOut(x, p, c);
  }

  lemma MulOut(x: nat, p: nat, c: nat)
    ensures x * p * c == x * (c * p)
  {
  }

  lemma {:induction false} BytesAppend(a: seq<u8>, b: seq<u8>)
    ensures Bytes(a + b) == Bytes(a) * Pow256(|b|) + Bytes(b)
  {
    hide Pow256;
    if b == [] {
      assert a + b == a;
      Powers256(0);
    } else {
      var k := |b| - 1;
      BytesAppend(a, b[..k]);
      assert (a + b)[..|a + b| - 1] == a + b[..k];
      Powers256(k);
      OneDigit(Bytes(a), Pow256(k), Bytes(b[..k]), 256);
    }
  }

  lemma {:induction false} BytesBound(s: seq<u8>)
    ensures Bytes(s) < Pow256(|s|)
  {
    if s != [] {
      BytesBound(s[..|s| - 1]);
    }
  }

  lemma {:induction false} SextetsBound(t: seq<u8>)
    requires AllValues(t)
    ensures Sextets(t) < Pow64(|t|)
  {
    if t != [] {
      SextetsBound(t[..|t| - 1]);
    }
  }

  /** Numbers of equal length are equal only as strings. */
  lemma {:induction false} BytesInjective(a: seq<u8>, b: seq<u8>)
    requires |a| == |b| && Bytes(a) == Bytes(b)
    ensures a == b
  {
    if a != [] {
      var k := |a| - 1;
      BytesInjective(a[..k], b[..k]);
      assert a == a[..k] + [a[k]] && b == b[..k] + [b[k]];
    }
  }

  lemma {:induction false} SextetsInjective(a: seq<u8>, b: seq<u8>)
    requires AllValues(a) && AllValues(b) && |a| == |b| && Sextets(a) == Sextets(b)
    ensures a == b
  {
    if a != [] {
      var k := |a| - 1;
      SextetsInjective(a[..k], b[..k]);
      AlphabetIsValue(0, a[k]);
      AlphabetIsValue(0, b[k]);
      assert a == a[..k] + [a[k]] && b == b[..k] + [b[k]];
    }
  }

  /** The zero bits that fill up the last character. */
  function Padding(n: nat): nat {
    6 * EncodedLength(n) - 8 * n
  }

  lemma TwoSextets(a: u8, b: u8)
    requires Value(a).Some? && Value(b).Some?
    ensures AllValues([a, b]) && Sextets([a, b]) == Value(a).value * 64 + Value(b).value
  {
    hide Value;
    assert [a, b][..1] == [a] && [a][..0] == [];
    assert Sextets([a]) == Sextets([a][..0]) * 64 + Value(a).value;
  }

  lemma TwoBytes(a: u8, b: u8)
    ensures Bytes([a]) == a && Bytes([a, b]) == a * 256 + b
  {
    assert [a, b][..1] == [a] && [a][..0] == [];
    assert Bytes([a]) == Bytes([a][..0]) * 256 + a;
  }

  lemma OneByteGroup(a: u8)
    ensures a / 4 * 64 + a % 4 * 16 == a * 16
  {
  }

  lemma TwoByteGroup(a: u8, b: u8)
    ensures (a / 4 * 64 + (a % 4 * 16 + b / 16)) * 64 + b % 16 * 4 == (a * 256 + b) * 4
  {
  }

  lemma ThreeByteGroup(a: u8, b: u8, c: u8)
    ensures ((a / 4 * 64 + (a % 4 * 16 + b / 16)) * 64 + (b % 16 * 4 + c / 64)) * 64 + c % 64 == (a * 256 + b) * 256 + c
  {
  }

  lemma Group1(a: u8)
    ensures AllValues(Encode([a])) && Sextets(Encode([a])) == a * 16
  {
    hide Alphabet, Value;
    AlphabetIsValid();
    OneByteGroup(a);
    TwoSextets(Alphabet(a / 4), Alphabet(a % 4 * 16));
  }

  lemma Group2(a: u8, b: u8)
    ensures AllValues(Encode([a, b])) && Sextets(Encode([a, b])) == (a * 256 + b) * 4
  {
    hide Alphabet, Value;
    AlphabetIsValid();
    TwoByteGroup(a, b);
    TwoSextets(Alphabet(a / 4), Alphabet(a % 4 * 16 + b / 16));
    var t := Encode([a, b]);
    assert t[..2] == [Alphabet(a / 4), Alphabet(a % 4 * 16 + b / 16)];
    LastSextet(t);
  }

  lemma Group3(a: u8, b: u8, c: u8)
    ensures AllValues(Encode([a, b, c])) && Sextets(Encode([a, b, c])) == (a * 256 + b) * 256 + c
  {
    hide Alphabet, Value, Sextets;
    AlphabetIsValid();
    ThreeByteGroup(a, b, c);
    TwoSextets(Alphabet(a / 4), Alphabet(a % 4 * 16 + b / 16));
    var t := Encode([a, b, c]);
    assert [a, b, c][3..] == [] && |t| == 4;
    assert t[..3][..2] == [Alphabet(a / 4), Alphabet(a % 4 * 16 + b / 16)];
    LastSextet(t[..3]);
    LastSextet(t);
  }

  lemma LastSextet(t: seq<u8>)
    requires t != [] && AllValues(t)
    ensures Sextets(t) == Sextets(t[..|t| - 1]) * 64 + Value(t[|t| - 1]).value
  {
  }

  lemma LastByte(s: seq<u8>)
    requires s != []
    ensures Bytes(s) == Bytes(s[..|s| - 1]) * 256 + s[|s| - 1]
  {
  }

  /** A group of characters denotes its bytes followed by the padding bits. */
  lemma GroupValue(s: seq<u8>)
    requires 1 <= |s| <= 3
    ensures AllValues(Encode(s)) && Sextets(Encode(s)) == Bytes(s) * Pow2(Padding(|s|))
  {
    hide Encode, Sextets, Bytes, AllValues, Pow2, Padding;
    if |s| == 1 {
      OneValue(s);
    } else if |s| == 2 {
      TwoValue(s);
    } else {
      ThreeValue(s);
    }
  }

  lemma OneValue(s: seq<u8>)
    requires |s| == 1
    ensures AllValues(Encode(s)) && Sextets(Encode(s)) == Bytes(s) * Pow2(Padding(|s|))
  {
    hide Encode, Sextets, Bytes, AllValues, Pow2;
    PaddingPowers();
    assert Pow2(Padding(|s|)) == 16;
    assert s == [s[0]];
    TwoBytes(s[0], 0);
    Group1(s[0]);
  }

  lemma TwoValue(s: seq<u8>)
    requires |s| == 2
    ensures AllValues(Encode(s)) && Sextets(Encode(s)) == Bytes(s) * Pow2(Padding(|s|))
  {
    hide Encode, Sextets, Bytes, AllValues, Pow2;
    PaddingPowers();
    assert Pow2(Padding(|s|)) == 4;
    assert s == [s[0], s[1]];
    TwoBytes(s[0], s[1]);
    Group2(s[0], s[1]);
  }

  lemma ThreeValue(s: seq<u8>)
    requires |s| == 3
    ensures AllValues(Encode(s)) && Sextets(Encode(s)) == Bytes(s) * Pow2(Padding(|s|))
  {
    hide Encode, Sextets, Bytes, AllValues, Pow2;
    PaddingPowers();
    assert Pow2(Padding(|s|)) == 1;
    assert s == [s[0], s[1], s[2]] && s[..2] == [s[0], s[1]];
    TwoBytes(s[0], s[1]);
    LastByte(s);
    Group3(s[0], s[1], s[2]);
  }

  lemma PaddingPowers()
    ensures Pow2(0) == 1 && Pow2(2) == 4 && Pow2(4) == 16
  {
  }

  /** An encoding denotes its bytes followed by the padding bits. */
  lemma {:induction false} EncodeValue(s: seq<u8>)
    ensures AllValues(Encode(s)) && Sextets(Encode(s)) == Bytes(s) * Pow2(Padding(|s|))
  {
    hide Pow2, Pow64, Pow256, Sextets, Bytes, Encode, Padding, EncodedLength;
    if s == [] {
      EmptyValue();
    } else if |s| <= 3 {
      GroupValue(s);
    } else {
      GroupValue(s[..3]);
      EncodeValue(s[3..]);
      EncodeSplit(s);
      SextetsAppend(Encode(s[..3]), Encode(s[3..]));
      BytesAppend(s[..3], s[3..]);
      assert s[..3] + s[3..] == s;
      GroupShift(Bytes(s[..3]), Bytes(s[3..]), |s| - 3);
    }
  }

  lemma EmptyValue()
    ensures Encode([]) == [] && AllValues([]) && Sextets([]) == 0 && Bytes([]) == 0
  {
  }

  lemma EncodeSplit(s: seq<u8>)
    requires |s| >= 3
    ensures Encode(s) == Encode(s[..3]) + Encode(s[3..])
  {
    hide Encode, Quad;
    EncodeStep(s);
    EncodeStep(s[..3]);
    EmptyValue();
    assert s[..3][3..] == [];
  }

  /** The four characters of three bytes. */
  function Quad(a: u8, b: u8, c: u8): (r: seq<u8>)
    ensures |r| == 4
  {
    [Alphabet(a / 4), Alphabet(a % 4 * 16 + b / 16), Alphabet(b % 16 * 4 + c / 64), Alphabet(c % 64)]
  }

  lemma EncodeStep(s: seq<u8>)
    requires |s| >= 3
    ensures Encode(s) == Quad(s[0], s[1], s[2]) + Encode(s[3..])
  {
    hide Alphabet, EncodedLength;
  }

  /** Shifting by the characters of n bytes is shifting by their bits and padding. */
  lemma GroupShift(x: nat, y: nat, n: nat)
    ensures x * Pow2(Padding(3)) * Pow64(EncodedLength(n)) + y * Pow2(Padding(n))
         == (x * Pow256(n) + y) * Pow2(Padding(n + 3))
  {
    hide Pow64, Pow256, Pow2;
    assert Padding(n + 3) == Padding(n) && Padding(3) == 0;
    PowZero();
    Pow64IsPow2(EncodedLength(n));
    Pow256IsPow2(n);
    Pow2Add(8 * n, Padding(n));
    Distribute(x, Pow256(n), y, Pow2(Padding(n)));
  }

  lemma Distribute(x: nat, p: nat, y: nat, q: nat)
    ensures x * (p * q) + y * q == (x * p + y) * q
  {
  }

  lemma {:induction false} Pow64IsPow2(n: nat)
    ensures Pow64(n) == Pow2(6 * n)
  {
    if n > 0 {
      Pow64IsPow2(n - 1);
      Pow2Add(6, 6 * (n - 1));
      assert Pow2(6) == 64;
    }
  }

  lemma {:induction false} Pow256IsPow2(n: nat)
    ensures Pow256(n) == Pow2(8 * n)
  {
    if n > 0 {
      Pow256IsPow2(n - 1);
      Pow2Add(8, 8 * (n - 1));
      assert Pow2(8) == 256;
    }
  }

  /** Different byte strings have different encodings. */
  lemma {:induction false} EncodeInjective(a: seq<u8>, b: seq<u8>)
    requires Encode(a) == Encode(b)
    ensures a == b
  {
    hide Encode, Sextets, Bytes, Pow2;
    assert |a| == |b| by {
      assert EncodedLength(|a|) == EncodedLength(|b|);
    }
    EncodeValue(a);
    EncodeValue(b);
    SameQuotient(Bytes(a), Bytes(b), Pow2(Padding(|a|)), 0);
    BytesInjective(a, b);
  }

  // The encoder.

  lemma LengthStep(n: nat)
    requires n >= 3
    ensures EncodedLength(n) == 4 + EncodedLength(n - 3)
  {
    var q, r := ((n - 3) * 4 + 2) / 3, ((n - 3) * 4 + 2) % 3;
    assert (n - 3) * 4 + 2 == 3 * q + r;
    DivModUnique(n * 4 + 2, 3, q + 4, r);
  }

  method Base64Url(input: seq<u8>, output: array<u8>) returns (r: Option<nat>)
    modifies output
    ensures r == if output.Length < EncodedLength(|input|) + 1 then None else Some(EncodedLength(|input|))
    ensures r.Some? ==> output[..r.value] == Encode(input) && output[r.value] == 0
  {
    hide Encode, EncodedLength;
    var required := EncodedLength(|input|);
    if output.Length < required + 1 {
      return None;
    }
    var source, target := PutGroups(input, output);
    target := PutRest(input, source, output, target);
    output[target] := 0;
    return Some(target);
  }

  /** All groups of three bytes. */
  method PutGroups(input: seq<u8>, output: array<u8>) returns (source: nat, target: nat)
    requires EncodedLength(|input|) < output.Length
    modifies output
    ensures source <= |input| < source + 3 && target + EncodedLength(|input| - source) == EncodedLength(|input|)
    ensures target < output.Length && output[..target] + Encode(input[source..]) == Encode(input)
  {
    hide Encode, EncodedLength;
    source, target := 0, 0;
    assert output[..0] == [] && input[0..] == input;
    while source + 3 <= |input|
      invariant source <= |input| && target + EncodedLength(|input| - source) == EncodedLength(|input|)
      invariant output[..target] + Encode(input[source..]) == Encode(input)
    {
      LengthStep(|input| - source);
      PutGroup(input, source, output, target);
      source := source + 3;
      target := target + 4;
    }
  }

  method PutRest(input: seq<u8>, source: nat, output: array<u8>, target: nat) returns (end: nat)
    requires source <= |input| < source + 3 && target + EncodedLength(|input| - source) <= output.Length
    modifies output
    ensures end == target + EncodedLength(|input| - source)
    ensures output[..end] == old(output[..target]) + Encode(input[source..])
  {
    hide Alphabet;
    ghost var done, rest := output[..target], input[source..];
    end := target;
    if |input| - source == 1 {
      var a := input[source];
      output[end] := Alphabet(a / 4);
      output[end + 1] := Alphabet(a % 4 * 16);
      end := end + 2;
    } else if |input| - source == 2 {
      var a, b := input[source], input[source + 1];
      output[end] := Alphabet(a / 4);
      output[end + 1] := Alphabet(a % 4 * 16 + b / 16);
      output[end + 2] := Alphabet(b % 16 * 4);
      end := end + 3;
    }
    assert output[..end] == done + Encode(rest);
  }

  /** Three bytes at once. */
  method PutGroup(input: seq<u8>, source: nat, output: array<u8>, target: nat)
    requires source + 3 <= |input| && target + 4 <= output.Length
    modifies output
    ensures output[..target + 4] + Encode(input[source + 3..]) == old(output[..target]) + Encode(input[source..])
  {
    hide Alphabet;
    ghost var done, rest := output[..target], input[source..];
    var a, b, c := input[source], input[source + 1], input[source + 2];
    output[target] := Alphabet(a / 4);
    output[target + 1] := Alphabet(a % 4 * 16 + b / 16);
    output[target + 2] := Alphabet(b % 16 * 4 + c / 64);
    output[target + 3] := Alphabet(c % 64);
    assert rest[3..] == input[source + 3..];
    assert output[..target + 4] == done + Encode(rest)[..4];
    assert Encode(rest) == Encode(rest)[..4] + Encode(rest[3..]);
  }

  // The decoders.

  /** The state of the decoding loop: what was read denotes the bytes written followed by the bits still held. */
  predicate Midway(read: seq<u8>, written: seq<u8>, bits: nat, held: nat) {
    && AllValues(read) && held < 8 && 6 * |read| == 8 * |written| + held
    && bits < Pow2(held) && Sextets(read) == Bytes(written) * Pow2(held) + bits
  }

  /** Reading one more character when that completes no byte. */
  lemma MoreBits(read: seq<u8>, written: seq<u8>, bits: nat, held: nat, c: u8)
    requires Midway(read, written, bits, held) && Value(c).Some? && held + 6 < 8
    ensures Midway(read + [c], written, bits * 64 + Value(c).value, held + 6)
  {
    hide Value, Pow2, Bytes, Sextets;
    assert (read + [c])[..|read|] == read;
    LastSextet(read + [c]);
    Pow2Add(6, held);
    SixtyFour();
    ShiftIn(Bytes(written), Pow2(held), bits, Value(c).value);
  }

  /** Reading one more character when that completes a byte. */
  lemma NextByte(read: seq<u8>, written: seq<u8>, bits: nat, held: nat, c: u8)
    requires Midway(read, written, bits, held) && Value(c).Some? && held + 6 >= 8
    ensures var more := bits * 64 + Value(c).value;
            var p := Pow2(held - 2);
            0 <= more / p < 256 && 0 <= more % p && Midway(read + [c], written + [more / p], more % p, held - 2)
  {
    hide Value, Pow2, Bytes, Sextets;
    var v, more, p := Value(c).value, bits * 64 + Value(c).value, Pow2(held - 2);
    assert (read + [c])[..|read|] == read;
    LastSextet(read + [c]);
    PowStep(held - 2);
    PowStep(held - 1);
    QuotientParts(more, p);
    var b, rest := more / p, more % p;
    ByteFull(b, p, more, bits);
    assert (written + [b])[..|written|] == written;
    LastByte(written + [b]);
    ShiftOut(Bytes(written), p, bits, v, b, rest);
  }

  lemma QuotientParts(x: nat, p: nat)
    requires p > 0
    ensures x == p * (x / p) + x % p && 0 <= x / p && 0 <= x % p < p
  {
  }

  lemma SixtyFour()
    ensures Pow2(6) == 64
  {
  }

  lemma ShiftIn(w: nat, p: nat, bits: nat, v: nat)
    requires bits < p && v < 64
    ensures (w * p + bits) * 64 + v == w * (64 * p) + (bits * 64 + v)
    ensures bits * 64 + v < 64 * p
  {
  }

  lemma ByteFull(b: nat, p: nat, more: nat, bits: nat)
    requires p > 0 && more >= p * b && bits < 4 * p && more < bits * 64 + 64
    ensures b < 256
  {
    if b >= 256 {
      MulLarge(p, b);
    }
  }

  lemma MulLarge(p: nat, b: nat)
    requires b >= 256
    ensures p * b >= p * 256
  {
    assert p * b == p * 256 + p * (b - 256);
  }

  lemma ShiftOut(w: nat, p: nat, bits: nat, v: nat, b: nat, rest: nat)
    requires bits * 64 + v == p * b + rest
    ensures (w * (4 * p) + bits) * 64 + v == (w * 256 + b) * p + rest
  {
    assert w * (4 * p) * 64 == w * 256 * p;
    assert b * p == p * b;
  }

  /** When all characters are read and the bits held are zero, the input is the encoding of what was written. */
  lemma {:induction false} DecodedIsEncoded(input: seq<u8>, written: seq<u8>, held: nat)
    requires Midway(input, written, 0, held) && |input| == EncodedLength(|written|)
    ensures input == Encode(written)
  {
    hide Sextets, Bytes, Pow2, Encode, Value;
    EncodeValue(written);
    SextetsInjective(input, Encode(written));
  }

  /** The converse: reading an encoding, the bits held at the end are zero and the bytes are those encoded. */
  lemma {:induction false} EncodedIsDecoded(s: seq<u8>, written: seq<u8>, bits: nat, held: nat)
    requires Midway(Encode(s), written, bits, held)
    ensures written == s && bits == 0
  {
    hide Sextets, Bytes, Encode, Value;
    EncodeValue(s);
    var n := |s|;
    assert 0 <= 6 * EncodedLength(n) - 8 * n < 6;
    assert |written| == n && held == Padding(n);
    SameQuotient(Bytes(s), Bytes(written), Pow2(held), bits);
    BytesInjective(s, written);
  }

  lemma SameQuotient(x: nat, y: nat, p: nat, bits: nat)
    requires x * p == y * p + bits && bits < p
    ensures x == y && bits == 0
  {
    MulDifference(x, y, p);
    MulDifference(y, x, p);
    if x > y {
      MulAtLeast(p, x - y);
    } else if x < y {
      MulAtLeast(p, y - x);
    }
  }

  lemma MulDifference(x: nat, y: nat, p: nat)
    ensures x * p - y * p == p * (x - y)
  {
  }

  /** Decoding to exactly n bytes accepts exactly the encodings of n bytes. */
  method DecodeBase64Url(input: seq<u8>, n: nat) returns (r: Option<seq<u8>>)
    ensures r.Some? <==> exists s :: |s| == n && input == Encode(s)
    ensures r.Some? ==> |r.value| == n && input == Encode(r.value)
  {
    hide Encode, Value, Sextets, Bytes, Pow2, Midway, EncodedLength;
    if |input| != EncodedLength(n) {
      return None;
    }
    LengthFits(n);
    var output: seq<u8>, bits: nat, held: nat := [], 0, 0;
    NothingRead(input);
    for i := 0 to |input|
      invariant Midway(input[..i], output, bits, held) && held < 8 && 6 * i == 8 * |output| + held
    {
      var v := Value(input[i]);
      if v.None? {
        NotEncoded(input, i);
        return None;
      }
      if held + 6 < 8 {
        MoreBits(input[..i], output, bits, held, input[i]);
      } else {
        NextByte(input[..i], output, bits, held, input[i]);
      }
      assert input[..i + 1] == input[..i] + [input[i]];
      bits := bits * 64 + v.value;
      held := held + 6;
      if held >= 8 {
        held := held - 8;
        if |output| >= n {
          return None;
        }
        output := output + [bits / Pow2(held)];
        bits := bits % Pow2(held);
      }
    }
    assert input[..|input|] == input;
    forall s | input == Encode(s)
      ensures output == s && bits == 0
    {
      EncodedIsDecoded(s, output, bits, held);
    }
    if |output| != n || bits != 0 {
      return None;
    }
    DecodedIsEncoded(input, output, held);
    return Some(output);
  }

  lemma LengthFits(n: nat)
    ensures 8 * n <= 6 * EncodedLength(n) <= 8 * n + 4
  {
  }

  lemma NothingRead(input: seq<u8>)
    ensures Midway(input[..0], [], 0, 0)
  {
    assert input[..0] == [];
  }

  /** The length of an encoding gives the length of what is encoded. */
  lemma LengthsMatch(input: seq<u8>)
    ensures forall s :: input == Encode(s) ==>
              |input| % 4 != 1 && |input| * 6 / 8 == |s| && |input| == EncodedLength(|input| * 6 / 8)
  {
    hide Encode, EncodedLength;
    forall s | input == Encode(s)
      ensures |input| % 4 != 1 && |input| * 6 / 8 == |s|
    {
      LengthBack(|s|);
    }
  }

  lemma LengthBack(n: nat)
    ensures EncodedLength(n) % 4 != 1 && EncodedLength(n) * 6 / 8 == n
  {
  }

  lemma {:induction false} NotEncoded(input: seq<u8>, i: nat)
    requires i < |input| && Value(input[i]).None?
    ensures !exists s :: input == Encode(s)
  {
    if s :| input == Encode(s) {
      EncodeValue(s);
    }
  }

  /** Decoding to at most `maximum` bytes accepts exactly the encodings of that many bytes or fewer. */
  method DecodeBase64UrlVec(input: seq<u8>, maximum: nat) returns (r: Option<seq<u8>>)
    ensures r.Some? <==> exists s :: |s| <= maximum && input == Encode(s)
    ensures r.Some? ==> |r.value| <= maximum && input == Encode(r.value)
  {
    hide Encode, EncodedLength, Value, Sextets, Bytes, Pow2, Midway, AllValues;
    LengthsMatch(input);
    if |input| % 4 == 1 {
      return None;
    }
    var length := |input| * 6 / 8;
    if length > maximum || |input| != EncodedLength(length) {
      return None;
    }
    var output: seq<u8>, bits: nat, held: nat := [], 0, 0;
    NothingRead(input);
    for i := 0 to |input|
      invariant Midway(input[..i], output, bits, held) && held < 8 && 6 * i == 8 * |output| + held
    {
      var v := Value(input[i]);
      if v.None? {
        NotEncoded(input, i);
        return None;
      }
      if held + 6 < 8 {
        MoreBits(input[..i], output, bits, held, input[i]);
      } else {
        NextByte(input[..i], output, bits, held, input[i]);
      }
      assert input[..i + 1] == input[..i] + [input[i]];
      bits := bits * 64 + v.value;
      held := held + 6;
      if held >= 8 {
        held := held - 8;
        output := output + [bits / Pow2(held)];
        bits := bits % Pow2(held);
      }
    }
    assert input[..|input|] == input;
    forall s | input == Encode(s)
      ensures output == s && bits == 0
    {
      EncodedIsDecoded(s, output, bits, held);
    }
    if |output| != length || bits != 0 {
      return None;
    }
    DecodedIsEncoded(input, output, held);
    return Some(output);
  }
}
