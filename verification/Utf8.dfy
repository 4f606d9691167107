/** UTF-8 as Python encodes and decodes it: strict, following section 3 of RFC 3629. */
module Utf8 {
  import opened Wrappers

  type Byte = b: int | 0 <= b < 256

  type Bytes = seq<Byte>

  /** An element of a Python string; surrogates can occur but cannot be encoded. */
  type CodePoint = c: int | 0 <= c < 0x110000

  type Text = seq<CodePoint>

  predicate Scalar(c: CodePoint) {
    !(0xD800 <= c < 0xE000)
  }

  function EncodeChar(c: CodePoint): (b: Bytes)
    ensures 1 <= |b| <= 4
  {
    if c < 0x80 then [c]
    else if c < 0x800 then [0xC0 + c / 64, 0x80 + c % 64]
    else if c < 0x10000 then [0xE0 + c / 4096, 0x80 + c / 64 % 64, 0x80 + c % 64]
    else [0xF0 + c / 262144, 0x80 + c / 4096 % 64, 0x80 + c / 64 % 64, 0x80 + c % 64]
  }

  /** Encoding fails on a surrogate. */
  function Encode(s: Text): Option<Bytes> {
    if s == [] then Some([])
    else if !Scalar(s[0]) then None
    else
      var rest :- Encode(s[1..]);
      Some(EncodeChar(s[0]) + rest)
  }

  predicate Continues(b: Byte) {
    0x80 <= b < 0xC0
  }

  /** Number of bytes announced by a lead byte, 0 for a byte that cannot lead. */
  function Announced(b: Byte): nat {
    if b < 0x80 then 1
    else if b < 0xC0 then 0
    else if b < 0xE0 then 2
    else if b < 0xF0 then 3
    else if b < 0xF8 then 4
    else 0
  }

  /** The bits a byte carries above its mark. */
  function Bits(b: Byte, mark: int): int {
    b as int - mark
  }

  /** The number spelled by the bits of the first n bytes. */
  function Spelled(b: Bytes, n: nat): int
    requires 1 <= n <= 4 && n <= |b|
  {
    if n == 1 then b[0]
    else if n == 2 then Bits(b[0], 0xC0) * 64 + Bits(b[1], 0x80)
    else if n == 3 then Bits(b[0], 0xE0) * 4096 + Bits(b[1], 0x80) * 64 + Bits(b[2], 0x80)
    else Bits(b[0], 0xF0) * 262144 + Bits(b[1], 0x80) * 4096 + Bits(b[2], 0x80) * 64 + Bits(b[3], 0x80)
  }

  /** The least number that needs n bytes. */
  function Least(n: nat): int {
    if n <= 1 then 0 else if n == 2 then 0x80 else if n == 3 then 0x800 else 0x10000
  }

  /** Decodes one character; fails on truncation, stray bytes, overlong forms and surrogates. */
  function DecodeChar(b: Bytes): Option<(CodePoint, nat)>
    requires b != []
  {
    var n := Announced(b[0]);
    if n == 0 || n > |b| || exists k | 1 <= k < n :: !Continues(b[k]) then None
    else
      var c := Spelled(b, n);
      if Least(n) <= c < 0x110000 && Scalar(c) then Some((c, n)) else None
  }

  function Decode(b: Bytes): Option<Text>
    decreases |b|
  {
    if b == [] then Some([])
    else
      var (c, n) :- DecodeChar(b);
      if n == 0 || n > |b| then None
      else
        var rest :- Decode(b[n..]);
        Some([c] + rest)
  }

  lemma DivMod64(c: nat)
    ensures c == c / 64 * 64 + c % 64
    ensures c / 64 == c / 64 / 64 * 64 + c / 64 % 64 && c / 64 / 64 == c / 4096
    ensures c / 4096 == c / 4096 / 64 * 64 + c / 4096 % 64 && c / 4096 / 64 == c / 262144
  {
  }

  lemma SplitDigit(high: int, low: int)
    requires 0 <= high && 0 <= low < 64
    ensures (high * 64 + low) / 64 == high && (high * 64 + low) % 64 == low
  {
  }

  lemma DecodeEncodedChar(c: CodePoint, rest: Bytes)
    requires Scalar(c)
    ensures DecodeChar(EncodeChar(c) + rest) == Some((c, |EncodeChar(c)|))
  {
    DivMod64(c);
    SpelledEncoded(c, rest);
    var b := EncodeChar(c) + rest;
    hide Spelled, EncodeChar;
    assert DecodeChar(b) == Some((c, |EncodeChar(c)|));
  }

  lemma SpelledEncoded(c: CodePoint, rest: Bytes)
    ensures var b, n := EncodeChar(c) + rest, |EncodeChar(c)|;
            Announced(b[0]) == n && Spelled(b, n) == c && Least(n) <= c && forall k :: 1 <= k < n ==> Continues(b[k])
  {
    DivMod64(c);
  }

  lemma EncodedTwo(x: int, y: int)
    requires 2 <= x < 32 && 0 <= y < 64
    ensures EncodeChar(x * 64 + y) == [0xC0 + x, 0x80 + y]
  {
    SplitDigit(x, y);
  }

  lemma EncodedThree(x: int, y: int, z: int)
    requires 0 <= x < 16 && 0 <= y < 64 && 0 <= z < 64 && x * 64 + y >= 32
    ensures EncodeChar(x * 4096 + y * 64 + z) == [0xE0 + x, 0x80 + y, 0x80 + z]
  {
    SplitDigit(x * 64 + y, z);
    SplitDigit(x, y);
    DivMod64(x * 4096 + y * 64 + z);
  }

  lemma EncodedFour(w: int, x: int, y: int, z: int)
    requires 0 <= w < 8 && 0 <= x < 64 && 0 <= y < 64 && 0 <= z < 64
    requires 0x10000 <= w * 262144 + x * 4096 + y * 64 + z < 0x110000
    ensures EncodeChar(w * 262144 + x * 4096 + y * 64 + z) == [0xF0 + w, 0x80 + x, 0x80 + y, 0x80 + z]
  {
    SplitDigit(w * 4096 + x * 64 + y, z);
    SplitDigit(w * 64 + x, y);
    SplitDigit(w, x);
    DivMod64(w * 262144 + x * 4096 + y * 64 + z);
  }

  lemma DecodedCharIsEncoded(b: Bytes)
    requires b != [] && DecodeChar(b).Some?
    ensures var (c, n) := DecodeChar(b).value; 1 <= n <= |b| && Scalar(c) && EncodeChar(c) == b[..n]
  {
    var (c, n) := DecodeChar(b).value;
    assert n == Announced(b[0]) && c == Spelled(b, n) && Least(n) <= c < 0x110000;
    assert forall k :: 1 <= k < n ==> Continues(b[k]);
    hide DecodeChar, EncodeChar;
    if n == 1 {
      EncodedOne(c);
      assert b[..1] == [b[0]];
    } else if n == 2 {
      assert Continues(b[1]);
      EncodedTwo(Bits(b[0], 0xC0), Bits(b[1], 0x80));
      assert b[..2] == [b[0], b[1]];
    } else if n == 3 {
      assert Continues(b[1]) && Continues(b[2]);
      EncodedThree(Bits(b[0], 0xE0), Bits(b[1], 0x80), Bits(b[2], 0x80));
      assert b[..3] == [b[0], b[1], b[2]];
    } else {
      assert Continues(b[1]) && Continues(b[2]) && Continues(b[3]);
      EncodedFour(Bits(b[0], 0xF0), Bits(b[1], 0x80), Bits(b[2], 0x80), Bits(b[3], 0x80));
      assert b[..4] == [b[0], b[1], b[2], b[3]];
    }
  }

  lemma EncodedOne(c: CodePoint)
    requires c < 0x80
    ensures EncodeChar(c) == [c]
  {
  }

  /** Decoding undoes encoding. */
  lemma {:induction false} DecodeEncode(s: Text)
    requires Encode(s).Some?
    ensures Decode(Encode(s).value) == Some(s)
  {
    if s != [] {
      var rest := Encode(s[1..]).value;
      DecodeEncodedChar(s[0], rest);
      DecodeEncode(s[1..]);
      assert [s[0]] + s[1..] == s;
      assert (EncodeChar(s[0]) + rest)[|EncodeChar(s[0])|..] == rest;
    }
  }

  lemma EncodeCons(c: CodePoint, s: Text)
    requires Scalar(c) && Encode(s).Some?
    ensures Encode([c] + s) == Some(EncodeChar(c) + Encode(s).value)
  {
    assert ([c] + s)[1..] == s;
  }

  /** Whatever decodes is the encoding of what it decodes to: there is one encoding per text. */
  lemma {:induction false} EncodeDecode(b: Bytes)
    requires Decode(b).Some?
    ensures Encode(Decode(b).value) == Some(b)
    decreases |b|
  {
    hide EncodeChar, DecodeChar;
    if b != [] {
      DecodedCharIsEncoded(b);
      var (c, n) := DecodeChar(b).value;
      EncodeDecode(b[n..]);
      EncodeCons(c, Decode(b[n..]).value);
      assert b == b[..n] + b[n..];
    }
  }
}
