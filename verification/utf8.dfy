/** UTF-8 (section 3 of RFC 3629) on scalar values: encoding, and the one-sequence decoding step that decoders
    build on. */
module Utf8 {
  type Byte = b: int | 0 <= b < 256
  type Scalar = c: int | 0 <= c < 0xD800 || 0xE000 <= c < 0x110000
  type Text = seq<Scalar>

  function EncodeOne(c: Scalar): (bs: seq<Byte>)
    ensures 1 <= |bs| <= 4
  {
    if c < 0x80 then [c]
    else if c < 0x800 then [0xC0 + c / 64, 0x80 + c % 64]
    else if c < 0x10000 then [0xE0 + c / 4096, 0x80 + c / 64 % 64, 0x80 + c % 64]
    else [0xF0 + c / 262144, 0x80 + c / 4096 % 64, 0x80 + c / 64 % 64, 0x80 + c % 64]
  }

  function Encode(t: Text): seq<Byte> {
    if t == [] then [] else EncodeOne(t[0]) + Encode(t[1..])
  }

  // ---- Decoding one sequence ----

  // The bytes start with one character; or with n bytes that belong to none; or they end inside a character.
  datatype Step = Char(c: Scalar, n: nat) | Bad(n: nat) | Short

  predicate Tail(b: Byte) { 0x80 <= b < 0xC0 }

  // What may follow this lead byte in the second place: no overlong form, no surrogate, nothing past U+10FFFF
  predicate Second(lead: Byte, b: Byte) {
    && Tail(b)
    && (lead == 0xE0 ==> b >= 0xA0) && (lead == 0xED ==> b < 0xA0)
    && (lead == 0xF0 ==> b >= 0x90) && (lead == 0xF4 ==> b < 0x90)
  }

  function Decode2(a: Byte, b: Byte): int { (a - 0xC0) * 64 + (b - 0x80) }

  function Decode3(a: Byte, b: Byte, c: Byte): int { (a - 0xE0) * 4096 + (b - 0x80) * 64 + (c - 0x80) }

  function Decode4(a: Byte, b: Byte, c: Byte, d: Byte): int {
    (a - 0xF0) * 262144 + (b - 0x80) * 4096 + (c - 0x80) * 64 + (d - 0x80)
  }

  // A malformed sequence is given up at the first byte that cannot continue it.
  function DecodeStep(bs: seq<Byte>): (s: Step)
    ensures s.Char? ==> 1 <= s.n <= |bs|
    ensures s.Bad? ==> 1 <= s.n <= |bs|
  {
    if bs == [] then Short
    else if bs[0] < 0x80 then Char(bs[0], 1)
    else if !(0xC2 <= bs[0] < 0xF5) then Bad(1)
    else if |bs| < 2 then Short
    else if !Second(bs[0], bs[1]) then Bad(1)
    else if bs[0] < 0xE0 then Char(Decode2(bs[0], bs[1]), 2)
    else if |bs| < 3 then Short
    else if !Tail(bs[2]) then Bad(2)
    else if bs[0] < 0xF0 then Char(Decode3(bs[0], bs[1], bs[2]), 3)
    else if |bs| < 4 then Short
    else if !Tail(bs[3]) then Bad(3)
    else Char(Decode4(bs[0], bs[1], bs[2], bs[3]), 4)
  }

  lemma SplitScalar(c: Scalar)
    ensures c == c / 64 * 64 + c % 64
    ensures c / 64 == c / 4096 * 64 + c / 64 % 64
    ensures c / 4096 == c / 262144 * 64 + c / 4096 % 64
  {}

  // An encoded character is decoded again, whatever follows it.
  lemma DecodeEncoded(c: Scalar, rest: seq<Byte>)
    ensures DecodeStep(EncodeOne(c) + rest) == Char(c, |EncodeOne(c)|)
  {
    SplitScalar(c);
  }

  // Cut inside a character, the decoder waits for more.
  lemma CutIsShort(c: Scalar, n: nat)
    requires n < |EncodeOne(c)|
    ensures DecodeStep(EncodeOne(c)[..n]) == Short
  {
    SplitScalar(c);
  }

  // What has been decided does not change when more bytes arrive.
  lemma DecidedStays(bs: seq<Byte>, more: seq<Byte>)
    requires DecodeStep(bs) != Short
    ensures DecodeStep(bs + more) == DecodeStep(bs)
  {}

  lemma {:induction false} EncodeConcat(a: Text, b: Text)
    ensures Encode(a + b) == Encode(a) + Encode(b)
  {
    if a == [] {
      assert a + b == b;
    } else {
      assert (a + b)[1..] == a[1..] + b;
      EncodeConcat(a[1..], b);
    }
  }

  // ---- What the decoding step decides ----

  lemma SixBits(high: nat, low: nat)
    requires low < 64
    ensures (high * 64 + low) / 64 == high && (high * 64 + low) % 64 == low
  {}

  lemma Encoded2(a: Byte, b: Byte)
    requires 0xC2 <= a < 0xE0 && Tail(b)
    ensures 0x80 <= Decode2(a, b) < 0x800 && EncodeOne(Decode2(a, b)) == [a, b]
  {
    SixBits(a - 0xC0, b - 0x80);
  }

  lemma Encoded3(a: Byte, b: Byte, c: Byte)
    requires 0xE0 <= a < 0xF0 && Second(a, b) && Tail(c)
    ensures var x := Decode3(a, b, c);
            0x800 <= x < 0x10000 && !(0xD800 <= x < 0xE000) && EncodeOne(x) == [a, b, c]
  {
    var high := (a - 0xE0) * 64 + (b - 0x80);
    assert Decode3(a, b, c) == high * 64 + (c - 0x80);
    SixBits(high, c - 0x80);
    SixBits(a - 0xE0, b - 0x80);
    assert Decode3(a, b, c) / 4096 == high / 64;
  }

  lemma Encoded4(a: Byte, b: Byte, c: Byte, d: Byte)
    requires 0xF0 <= a < 0xF5 && Second(a, b) && Tail(c) && Tail(d)
    ensures var x := Decode4(a, b, c, d); 0x10000 <= x < 0x110000 && EncodeOne(x) == [a, b, c, d]
  {
    var high := (a - 0xF0) * 64 + (b - 0x80);
    var middle := high * 64 + (c - 0x80);
    assert Decode4(a, b, c, d) == middle * 64 + (d - 0x80);
    SixBits(middle, d - 0x80);
    SixBits(high, c - 0x80);
    SixBits(a - 0xF0, b - 0x80);
    assert Decode4(a, b, c, d) / 4096 == middle / 64 && Decode4(a, b, c, d) / 262144 == high / 64;
  }

  // A character that is decoded is encoded by exactly the bytes it was decoded from: no overlong form, no surrogate.
  lemma CharIsEncoded(bs: seq<Byte>)
    requires DecodeStep(bs).Char?
    ensures EncodeOne(DecodeStep(bs).c) == bs[..DecodeStep(bs).n]
  {
    if bs[0] < 0x80 {
    } else if bs[0] < 0xE0 {
      Encoded2(bs[0], bs[1]);
    } else if bs[0] < 0xF0 {
      Encoded3(bs[0], bs[1], bs[2]);
    } else {
      Encoded4(bs[0], bs[1], bs[2], bs[3]);
    }
  }

  // An undecided rest is the beginning of a character.
  lemma ShortIsPrefix(bs: seq<Byte>)
    requires DecodeStep(bs) == Short
    ensures exists c: Scalar :: bs < EncodeOne(c)
  {
    if bs == [] {
      assert bs < EncodeOne(0);
    } else {
      var least: Byte := if bs[0] == 0xE0 then 0xA0 else if bs[0] == 0xF0 then 0x90 else 0x80;
      var second: Byte := if |bs| > 1 then bs[1] else least;
      var third: Byte := if |bs| > 2 then bs[2] else 0x80;
      if bs[0] < 0xE0 {
        Encoded2(bs[0], second);
        assert bs < EncodeOne(Decode2(bs[0], second));
      } else if bs[0] < 0xF0 {
        Encoded3(bs[0], second, 0x80);
        assert bs < EncodeOne(Decode3(bs[0], second, 0x80));
      } else {
        Encoded4(bs[0], second, third, 0x80);
        assert bs < EncodeOne(Decode4(bs[0], second, third, 0x80));
      }
    }
  }

  // Bytes that belong to no character are given up at the first one that cannot continue what came before it.
  lemma BadIsMaximal(bs: seq<Byte>)
    requires DecodeStep(bs).Bad?
    ensures var n := DecodeStep(bs).n;
            || (n == 1 && (0x80 <= bs[0] < 0xC2 || bs[0] >= 0xF5))
            || (n < |bs| && DecodeStep(bs[..n]) == Short && DecodeStep(bs[..n + 1]) == Bad(n))
  {}

  // Examples from section 7 of RFC 3629
  lemma RfcExamples()
    ensures EncodeOne(0x41) == [0x41] && EncodeOne(0x2262) == [0xE2, 0x89, 0xA2] && EncodeOne(0x391) == [0xCE, 0x91]
    ensures EncodeOne(0xD55C) == [0xED, 0x95, 0x9C] && EncodeOne(0x233B4) == [0xF0, 0xA3, 0x8E, 0xB4]
  {}
}
