/**
 Fixed-size Base64 decoding (DecodeFixedBase64 in voice_protocol/control.cc) against the
 standard encoding of sections 3.5 and 4 of RFC 4648.
 */
module Base64 {
  import opened Machine

  type Bytes = seq<u8>
  type Sextet = x: nat | x < 64

  const PAD := '='

  /** The Base64 alphabet. */
  function Digit(v: Sextet): char {
    if v < 26 then 'A' + (v as char)
    else if v < 52 then 'a' + ((v - 26) as char)
    else if v < 62 then '0' + ((v - 52) as char)
    else if v == 62 then '+'
    else '/'
  }

  /** The value of a character, -1 outside the alphabet. */
  function Base64Value(c: char): int {
    if 'A' <= c <= 'Z' then c as int - 'A' as int
    else if 'a' <= c <= 'z' then c as int - 'a' as int + 26
    else if '0' <= c <= '9' then c as int - '0' as int + 52
    else if c == '+' then 62
    else if c == '/' then 63
    else -1
  }

  /** What a character stands for. */
  datatype Symbol = Value(v: Sextet) | Pad | Bad

  function SymbolOf(c: char): Symbol {
    if c == PAD then Pad else if Base64Value(c) < 0 then Bad else Value(Base64Value(c))
  }

  function CharOf(s: Symbol): char
    requires !s.Bad?
  {
    if s.Pad? then PAD else Digit(s.v)
  }

  lemma SymbolIff(c: char, s: Symbol)
    requires !s.Bad?
    ensures SymbolOf(c) == s <==> c == CharOf(s)
  {
  }

  /** Four characters. */
  datatype Quad = Quad(s0: Symbol, s1: Symbol, s2: Symbol, s3: Symbol) {
    predicate Good() {
      !s0.Bad? && !s1.Bad? && !s2.Bad? && !s3.Bad?
    }
  }

  function Read(q: string): Quad
    requires |q| == 4
  {
    Quad(SymbolOf(q[0]), SymbolOf(q[1]), SymbolOf(q[2]), SymbolOf(q[3]))
  }

  function Write(x: Quad): (q: string)
    requires x.Good()
    ensures |q| == 4
  {
    [CharOf(x.s0), CharOf(x.s1), CharOf(x.s2), CharOf(x.s3)]
  }

  lemma ReadIffWritten(q: string, x: Quad)
    requires |q| == 4 && x.Good()
    ensures Read(q) == x <==> q == Write(x)
  {
    SymbolIff(q[0], x.s0);
    SymbolIff(q[1], x.s1);
    SymbolIff(q[2], x.s2);
    SymbolIff(q[3], x.s3);
    assert q == [q[0], q[1], q[2], q[3]];
  }

  // ---- Packing: four sextets hold three octets ------------------------------------------------

  function Sextet1(a: u8, b: u8): Sextet {
    a % 4 * 16 + b / 16
  }

  function Sextet2(b: u8, c: u8): Sextet {
    b % 16 * 4 + c / 64
  }

  /** `(first << 2) | (second >> 4)`, truncated to eight bits */
  function Octet0(v0: Sextet, v1: Sextet): u8 {
    v0 * 4 % 256 + v1 / 16
  }

  /** `(second << 4) | (third >> 2)`, truncated to eight bits */
  function Octet1(v1: Sextet, v2: Sextet): u8 {
    v1 * 16 % 256 + v2 / 4
  }

  /** `(third << 6) | fourth`, truncated to eight bits */
  function Octet2(v2: Sextet, v3: Sextet): u8 {
    v2 * 64 % 256 + v3
  }

  lemma Octet0Iff(v0: Sextet, v1: Sextet, a: u8)
    ensures a == Octet0(v0, v1) <==> v0 == a / 4 && v1 / 16 == a % 4
  {
    assert v0 * 4 % 256 == v0 * 4;
    DigitsOf(a, v0, v1 / 16);
  }

  lemma DigitsOf(n: nat, hi: nat, lo: nat)
    requires lo < 4
    ensures n == hi * 4 + lo <==> hi == n / 4 && lo == n % 4
  {
  }

  lemma Octet1Iff(v1: Sextet, v2: Sextet, b: u8)
    ensures b == Octet1(v1, v2) <==> v1 % 16 == b / 16 && v2 / 4 == b % 16
  {
    Carry(v1);
  }

  lemma Octet2Iff(v2: Sextet, v3: Sextet, c: u8)
    ensures c == Octet2(v2, v3) <==> v2 % 4 == c / 64 && v3 == c % 64
  {
    assert v2 * 64 % 256 == v2 % 4 * 64;
  }

  lemma SextetsIff(v1: Sextet, v2: Sextet, a: u8, b: u8, c: u8)
    ensures v1 == Sextet1(a, b) <==> v1 / 16 == a % 4 && v1 % 16 == b / 16
    ensures v2 == Sextet2(b, c) <==> v2 / 4 == b % 16 && v2 % 4 == c / 64
  {
  }

  /** Four sextets and three octets hold the same 24 bits. */
  lemma Regroup(v0: Sextet, v1: Sextet, v2: Sextet, v3: Sextet, a: u8, b: u8, c: u8)
    ensures a == Octet0(v0, v1) && b == Octet1(v1, v2) && c == Octet2(v2, v3) <==>
            v0 == a / 4 && v1 == Sextet1(a, b) && v2 == Sextet2(b, c) && v3 == c % 64
  {
    Octet0Iff(v0, v1, a);
    Octet1Iff(v1, v2, b);
    Octet2Iff(v2, v3, c);
    SextetsIff(v1, v2, a, b, c);
  }

  lemma Carry(v: Sextet)
    ensures v * 16 % 256 == v % 16 * 16
  {
  }

  lemma RegroupTwo(v0: Sextet, v1: Sextet, v2: Sextet, a: u8, b: u8)
    ensures v2 % 4 == 0 && a == Octet0(v0, v1) && b == Octet1(v1, v2) <==>
            v0 == a / 4 && v1 == Sextet1(a, b) && v2 == Sextet2(b, 0)
  {
    Regroup(v0, v1, v2, 0, a, b, 0);
    assert Octet2(v2, 0) == v2 % 4 * 64;
    assert Sextet2(b, 0) % 4 == 0;
  }

  lemma RegroupOne(v0: Sextet, v1: Sextet, a: u8)
    ensures v1 % 16 == 0 && a == Octet0(v0, v1) <==> v0 == a / 4 && v1 == Sextet1(a, 0)
  {
    Regroup(v0, v1, 0, 0, a, 0, 0);
    Carry(v1);
    assert Octet1(v1, 0) == v1 % 16 * 16;
    assert Sextet1(a, 0) % 16 == 0;
  }

  // ---- The standard encoder ----------------------------------------------------------------------

  /** One to three bytes; a short group is filled with zero bits and padding. */
  function QuadOf(b: Bytes): (x: Quad)
    requires 1 <= |b| <= 3
    ensures x.Good()
  {
    var b1, b2 := if |b| >= 2 then b[1] else 0, if |b| == 3 then b[2] else 0;
    Quad(Value(b[0] / 4), Value(Sextet1(b[0], b1)),
         if |b| >= 2 then Value(Sextet2(b1, b2)) else Pad,
         if |b| == 3 then Value(b2 % 64) else Pad)
  }

  function GroupSize(n: nat): nat {
    if n < 3 then n else 3
  }

  /** Four characters per group. */
  function EncodedSize(n: nat): nat {
    if n == 0 then 0 else 4 + EncodedSize(n - GroupSize(n))
  }

  lemma {:induction false} EncodedSizeFormula(n: nat)
    ensures EncodedSize(n) == (n + 2) / 3 * 4
  {
    if n > 0 {
      EncodedSizeFormula(n - GroupSize(n));
    }
  }

  function Encode(b: Bytes): (s: string)
    ensures |s| == EncodedSize(|b|)
    decreases |b|
  {
    if b == [] then [] else Write(QuadOf(b[..GroupSize(|b|)])) + Encode(b[GroupSize(|b|)..])
  }

  // ---- The decoder of four characters --------------------------------------------------------------

  /** `remaining` bytes are still to be filled; `last` marks the final four characters. */
  function DecodeQuad(x: Quad, remaining: nat, last: bool): Option<Bytes> {
    var thirdPadding, fourthPadding := x.s2.Pad?, x.s3.Pad?;
    if !x.s0.Value? || !x.s1.Value? || x.s2.Bad? || x.s3.Bad?
       || (!last && (thirdPadding || fourthPadding)) || (thirdPadding && !fourthPadding) then None
    else if thirdPadding then
      if !last || remaining != 1 || x.s1.v % 16 != 0 then None else Some([Octet0(x.s0.v, x.s1.v)])
    else if fourthPadding then
      if !last || remaining != 2 || x.s2.v % 4 != 0 then None else Some([Octet0(x.s0.v, x.s1.v), Octet1(x.s1.v, x.s2.v)])
    else if remaining < 3 then None
    else Some([Octet0(x.s0.v, x.s1.v), Octet1(x.s1.v, x.s2.v), Octet2(x.s2.v, x.s3.v)])
  }

  lemma OneByteIff(x: Quad, a: u8)
    ensures DecodeQuad(x, 1, true) == Some([a]) <==> x == QuadOf([a])
  {
    if x.s0.Value? && x.s1.Value? {
      RegroupOne(x.s0.v, x.s1.v, a);
    }
  }

  lemma TwoBytesIff(x: Quad, a: u8, b: u8)
    ensures DecodeQuad(x, 2, true) == Some([a, b]) <==> x == QuadOf([a, b])
  {
    if x.s0.Value? && x.s1.Value? && x.s2.Value? {
      RegroupTwo(x.s0.v, x.s1.v, x.s2.v, a, b);
    }
  }

  lemma ThreeBytesIff(x: Quad, remaining: nat, last: bool, a: u8, b: u8, c: u8)
    requires remaining >= 3
    ensures DecodeQuad(x, remaining, last) == Some([a, b, c]) <==> x == QuadOf([a, b, c])
  {
    if x.s0.Value? && x.s1.Value? && x.s2.Value? && x.s3.Value? {
      Regroup(x.s0.v, x.s1.v, x.s2.v, x.s3.v, a, b, c);
    }
  }

  lemma QuadSize(x: Quad, remaining: nat, last: bool)
    requires remaining > 0 && DecodeQuad(x, remaining, last).Some?
    ensures |DecodeQuad(x, remaining, last).value| == GroupSize(remaining)
  {
  }

  /** Four characters decode exactly to the group of bytes that encodes to them, and to nothing of another size. */
  lemma QuadIff(x: Quad, remaining: nat, last: bool, b: Bytes)
    requires remaining > 0 && (remaining < 3 ==> last)
    ensures DecodeQuad(x, remaining, last) == Some(b) <==> |b| == GroupSize(remaining) && x == QuadOf(b)
  {
    if DecodeQuad(x, remaining, last) == Some(b) {
      QuadSize(x, remaining, last);
    }
    if |b| == GroupSize(remaining) {
      if remaining == 1 {
        assert b == [b[0]];
        OneByteIff(x, b[0]);
      } else if remaining == 2 {
        assert b == [b[0], b[1]];
        TwoBytesIff(x, b[0], b[1]);
      } else {
        assert b == [b[0], b[1], b[2]];
        ThreeBytesIff(x, remaining, last, b[0], b[1], b[2]);
      }
    }
  }

  // ---- The decoder -----------------------------------------------------------------------------

  /** Decode to exactly `size` bytes, or reject. */
  function Decode(size: nat, s: string): Option<Bytes>
    decreases |s|
  {
    if |s| != EncodedSize(size) then None
    else if size == 0 then Some([])
    else
      var r := DecodeQuad(Read(s[..4]), size, |s| == 4);
      if r.None? then None else Prepended(r.value, Decode(size - GroupSize(size), s[4..]))
  }

  function Prepended(a: Bytes, r: Option<Bytes>): Option<Bytes> {
    if r.None? then None else Some(a + r.value)
  }

  /** For every size the decoder accepts exactly the standard encodings of that many bytes, and inverts them. */
  lemma {:induction false} DecodesExactlyEncodings(size: nat, s: string, b: Bytes)
    ensures Decode(size, s) == Some(b) <==> |b| == size && s == Encode(b)
    decreases size
  {
    if |s| == EncodedSize(size) && size > 0 {
      if Decode(size, s) == Some(b) {
        DecodedIsEncoding(size, s, b);
      }
      if |b| == size && s == Encode(b) {
        EncodingDecodes(size, b);
      }
    }
  }

  lemma DecodedParts(size: nat, s: string, b: Bytes) returns (group: Bytes, tail: Bytes)
    requires size > 0 && Decode(size, s) == Some(b)
    ensures |s| == EncodedSize(size) && |group| == GroupSize(size) && b == group + tail
    ensures DecodeQuad(Read(s[..4]), size, |s| == 4) == Some(group)
    ensures Decode(size - GroupSize(size), s[4..]) == Some(tail)
  {
    group := DecodeQuad(Read(s[..4]), size, |s| == 4).value;
    tail := Decode(size - GroupSize(size), s[4..]).value;
    QuadSize(Read(s[..4]), size, |s| == 4);
  }

  lemma DecodedIsEncoding(size: nat, s: string, b: Bytes)
    requires size > 0 && Decode(size, s) == Some(b)
    ensures |b| == size && s == Encode(b)
    decreases size, 0
  {
    var group, tail := DecodedParts(size, s, b);
    QuadIff(Read(s[..4]), size, |s| == 4, group);
    ReadIffWritten(s[..4], QuadOf(group));
    DecodesExactlyEncodings(size - GroupSize(size), s[4..], tail);
    assert b[..|group|] == group && b[|group|..] == tail && s == s[..4] + s[4..];
  }

  lemma EncodingDecodes(size: nat, b: Bytes)
    requires size > 0 && |b| == size
    ensures Decode(size, Encode(b)) == Some(b)
    decreases size, 0
  {
    var n, s := GroupSize(size), Encode(b);
    var group, tail := b[..n], b[n..];
    assert s[..4] == Write(QuadOf(group)) && s[4..] == Encode(tail);
    ReadIffWritten(s[..4], QuadOf(group));
    QuadIff(QuadOf(group), size, |s| == 4, group);
    DecodesExactlyEncodings(size - n, Encode(tail), tail);
    assert b == group + tail;
  }

  /** The decoder of the firmware: fills the output four characters at a time. */
  method DecodeFixedBase64(encoded: string, output: array<u8>) returns (ok: bool)
    modifies output
    ensures ok == Decode(output.Length, encoded).Some?
    ensures ok ==> Some(output[..]) == Decode(output.Length, encoded)
  {
    EncodedSizeFormula(output.Length);
    if |encoded| != (output.Length + 2) / 3 * 4 {
      return false;
    }
    ok := DecodeGroups(encoded, output);
  }

  method DecodeGroups(encoded: string, output: array<u8>) returns (ok: bool)
    requires |encoded| == EncodedSize(output.Length)
    modifies output
    ensures ok == Decode(output.Length, encoded).Some?
    ensures ok ==> Some(output[..]) == Decode(output.Length, encoded)
  {
    var written, index := 0, 0;
    ghost var whole, rest := Decode(output.Length, encoded), encoded;
    PrependedToNothing(whole);
    while index < |encoded|
      invariant 0 <= index <= |encoded| && 0 <= written <= output.Length
      invariant rest == encoded[index..] && |rest| == EncodedSize(output.Length - written)
      invariant Prepended(output[..written], Decode(output.Length - written, rest)) == whole
      decreases |encoded| - index
    {
      var next := DecodeNext(encoded[index..], output, written);
      if next.None? {
        return false;
      }
      written := next.value;
      index := index + 4;
      rest := rest[4..];
    }
    assert output[..written] == output[..];
    AllWritten(output.Length - written, rest, output[..]);
    return written == output.Length;
  }

  lemma AllWritten(size: nat, rest: string, done: Bytes)
    requires rest == [] && |rest| == EncodedSize(size)
    ensures size == 0 && Prepended(done, Decode(size, rest)) == Some(done)
  {
    assert done + [] == done;
  }

  /** Decode four characters behind the bytes written so far; the result is the new number of bytes. */
  method DecodeNext(rest: string, output: array<u8>, written: nat) returns (next: Option<nat>)
    requires written < output.Length && |rest| == EncodedSize(output.Length - written)
    modifies output
    ensures var remaining := output.Length - written;
            if next.None? then Decode(remaining, rest).None?
            else
              && next.value == written + GroupSize(remaining)
              && Prepended(old(output[..written]), Decode(remaining, rest)) ==
                 Prepended(output[..next.value], Decode(output.Length - next.value, rest[4..]))
  {
    var bytes := DecodeQuad(Read(rest[..4]), output.Length - written, |rest| == 4);
    NextQuad(output.Length - written, rest, output[..written]);
    if bytes.None? {
      return None;
    }
    Store(output, written, bytes.value);
    next := Some(written + |bytes.value|);
  }

  /** Decoding what is left is decoding its first four characters and then the rest. */
  lemma NextQuad(size: nat, s: string, done: Bytes)
    requires size > 0 && |s| == EncodedSize(size)
    ensures var r := DecodeQuad(Read(s[..4]), size, |s| == 4);
            if r.None? then Decode(size, s).None?
            else
              && |r.value| == GroupSize(size)
              && Prepended(done, Decode(size, s)) == Prepended(done + r.value, Decode(size - GroupSize(size), s[4..]))
  {
    var r := DecodeQuad(Read(s[..4]), size, |s| == 4);
    if r.Some? {
      QuadSize(Read(s[..4]), size, |s| == 4);
      PrependedTwice(done, r.value, Decode(size - GroupSize(size), s[4..]));
    }
  }

  /** Write one to three bytes. */
  method Store(output: array<u8>, at: nat, bytes: Bytes)
    requires 1 <= |bytes| <= 3 && at + |bytes| <= output.Length
    modifies output
    ensures output[..at + |bytes|] == old(output[..at]) + bytes
  {
    output[at] := bytes[0];
    if |bytes| >= 2 {
      output[at + 1] := bytes[1];
    }
    if |bytes| >= 3 {
      output[at + 2] := bytes[2];
    }
  }

  lemma PrependedToNothing(r: Option<Bytes>)
    ensures Prepended([], r) == r
  {
    if r.Some? {
      assert [] + r.value == r.value;
    }
  }

  lemma PrependedTwice(a: Bytes, b: Bytes, r: Option<Bytes>)
    ensures Prepended(a, Prepended(b, r)) == Prepended(a + b, r)
  {
    if r.Some? {
      assert a + (b + r.value) == a + b + r.value;
    }
  }

  // ---- The standard's own terms ------------------------------------------------------------------------

  /** Digits are the alphabet of table 1 of RFC 4648: A to Z, a to z, 0 to 9, plus and slash, in this order; padding is '='. */
  lemma DigitsInOrder(v: Sextet)
    ensures Digit(0) == 'A' && Digit(26) == 'a' && Digit(52) == '0' && Digit(62) == '+' && Digit(63) == '/'
    ensures v + 1 < 26 || 26 <= v < 51 || 52 <= v < 61 ==> Digit(v + 1) as int == Digit(v) as int + 1
    ensures CharOf(Pad) == '='
  {
  }

  /** The number whose base-256 digits are these bytes. */
  function Number(b: Bytes): nat {
    if b == [] then 0
    else
      var last: nat := b[|b| - 1];
      Number(b[..|b| - 1]) * 256 + last
  }

  lemma NumberOfThree(a: u8, b: u8, c: u8)
    ensures Number([a]) == a && Number([a, b]) == (a as nat) * 256 + b && Number([a, b, c]) == ((a as nat) * 256 + b) * 256 + c
  {
    assert [a][..0] == [] && [a, b][..1] == [a] && [a, b, c][..2] == [a, b];
  }

  // A group's digits, read in base 64, are its bytes read in base 256, filled with zero bits to whole digits.

  lemma OneByteNumber(a: u8)
    ensures exists v0: Sextet, v1: Sextet :: QuadOf([a]) == Quad(Value(v0), Value(v1), Pad, Pad) && InBase64([v0, v1]) == Number([a]) * 16
  {
    NumberOfThree(a, 0, 0);
    DigitsOfThree(a, 0, 0);
    assert QuadOf([a]) == Quad(Value(a / 4), Value(Sextet1(a, 0)), Pad, Pad);
  }

  lemma TwoByteNumber(a: u8, b: u8)
    ensures exists v0: Sextet, v1: Sextet, v2: Sextet ::
              QuadOf([a, b]) == Quad(Value(v0), Value(v1), Value(v2), Pad) && InBase64([v0, v1, v2]) == Number([a, b]) * 4
  {
    NumberOfThree(a, b, 0);
    DigitsOfThree(a, b, 0);
    assert QuadOf([a, b]) == Quad(Value(a / 4), Value(Sextet1(a, b)), Value(Sextet2(b, 0)), Pad);
  }

  lemma ThreeByteNumber(a: u8, b: u8, c: u8)
    ensures exists v0: Sextet, v1: Sextet, v2: Sextet, v3: Sextet ::
              QuadOf([a, b, c]) == Quad(Value(v0), Value(v1), Value(v2), Value(v3)) && InBase64([v0, v1, v2, v3]) == Number([a, b, c])
  {
    NumberOfThree(a, b, c);
    DigitsOfThree(a, b, c);
    assert QuadOf([a, b, c]) == Quad(Value(a / 4), Value(Sextet1(a, b)), Value(Sextet2(b, c)), Value(c % 64));
  }

  function InBase64(v: seq<Sextet>): nat {
    if v == [] then 0
    else
      var last: nat := v[|v| - 1];
      InBase64(v[..|v| - 1]) * 64 + last
  }

  lemma DigitsOfThree(a: u8, b: u8, c: u8)
    ensures InBase64([a / 4, Sextet1(a, 0)]) == (a as nat) * 16
    ensures InBase64([a / 4, Sextet1(a, b), Sextet2(b, 0)]) == ((a as nat) * 256 + b) * 4
    ensures InBase64([a / 4, Sextet1(a, b), Sextet2(b, c), c % 64]) == ((a as nat) * 256 + b) * 256 + c
  {
    Base64OfFour(a / 4, Sextet1(a, 0), 0, 0);
    Base64OfFour(a / 4, Sextet1(a, b), Sextet2(b, 0), 0);
    Base64OfFour(a / 4, Sextet1(a, b), Sextet2(b, c), c % 64);
  }

  lemma Base64OfFour(v0: Sextet, v1: Sextet, v2: Sextet, v3: Sextet)
    ensures InBase64([v0, v1]) == (v0 as nat) * 64 + v1
    ensures InBase64([v0, v1, v2]) == ((v0 as nat) * 64 + v1) * 64 + v2
    ensures InBase64([v0, v1, v2, v3]) == (((v0 as nat) * 64 + v1) * 64 + v2) * 64 + v3
  {
    assert [v0][..0] == [] && [v0, v1][..1] == [v0];
    assert [v0, v1, v2][..2] == [v0, v1] && [v0, v1, v2, v3][..3] == [v0, v1, v2];
    assert InBase64([v0]) == v0;
  }

  /** Encoding goes group by group: three bytes to four digits, a last short group padded. */
  lemma EncodeGroups(b: Bytes)
    ensures |Encode(b)| == (|b| + 2) / 3 * 4
    ensures 0 < |b| <= 3 ==> Encode(b) == Write(QuadOf(b))
    ensures |b| > 3 ==> Encode(b) == Write(QuadOf(b[..3])) + Encode(b[3..])
  {
    EncodedSizeFormula(|b|);
    if 0 < |b| <= 3 {
      assert b[..|b|] == b && b[|b|..] == [];
      assert Encode(b[|b|..]) == [];
    }
  }
}
