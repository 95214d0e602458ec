/**
 * UTF-8 as section 3 of RFC 3629 defines it: what `TextEncoder.encode` does to a
 * string of Unicode scalar values, and the strict decoder that inverts it
 * (no overlong forms, no surrogates, nothing above U+10FFFF).
 */
module Utf8 {
  import opened Bytes
  import opened Wrappers

  /** True for a continuation byte `10xxxxxx`. */
  predicate IsContinuation(b: Byte) {
    0x80 <= b < 0xC0
  }

  /** The one to four bytes of the UTF-8 form of `c`. */
  function EncodeChar(c: char): (b: seq<Byte>)
    ensures 1 <= |b| <= 4
    ensures |b| == 1 <==> (c as int) < 0x80
  {
    var cp := c as int;
    var x1 := cp / 64;
    var x2 := x1 / 64;
    var x3 := x2 / 64;
    if cp < 0x80 then [cp]
    else if cp < 0x800 then [0xC0 + x1, 0x80 + cp % 64]
    else if cp < 0x10000 then [0xE0 + x2, 0x80 + x1 % 64, 0x80 + cp % 64]
    else [0xF0 + x3, 0x80 + x2 % 64, 0x80 + x1 % 64, 0x80 + cp % 64]
  }

  /** The UTF-8 bytes of a string: `new TextEncoder().encode(s)`. */
  function Encode(s: string): (b: seq<Byte>)
    ensures |b| >= |s|
    decreases |s|
  {
    if s == [] then [] else EncodeChar(s[0]) + Encode(s[1..])
  }

  /** The value a two-, three- or four-byte sequence carries, before range checks. */
  function Payload2(b0: Byte, b1: Byte): int { (b0 - 0xC0) * 64 + (b1 - 0x80) }
  function Payload3(b0: Byte, b1: Byte, b2: Byte): int { ((b0 - 0xE0) * 64 + (b1 - 0x80)) * 64 + (b2 - 0x80) }
  function Payload4(b0: Byte, b1: Byte, b2: Byte, b3: Byte): int {
    (((b0 - 0xF0) * 64 + (b1 - 0x80)) * 64 + (b2 - 0x80)) * 64 + (b3 - 0x80)
  }

  /**
   * The first character of `b` and the number of bytes it used, or `None` when
   * `b` does not start with a well-formed UTF-8 sequence (the UTF8-char rule of
   * section 4 of RFC 3629).
   */
  function DecodeFirst(b: seq<Byte>): (r: Option<(char, nat)>)
    requires |b| > 0
    ensures r.Some? ==> 1 <= r.value.1 <= |b|
  {
    var b0 := b[0];
    if b0 < 0x80 then Some((b0 as char, 1))
    else if 0xC2 <= b0 < 0xE0 then
      if |b| >= 2 && IsContinuation(b[1]) then Some((Payload2(b0, b[1]) as char, 2)) else None
    else if 0xE0 <= b0 < 0xF0 then
      if |b| >= 3 && IsContinuation(b[1]) && IsContinuation(b[2]) then
        var cp := Payload3(b0, b[1], b[2]);
        if 0x800 <= cp && !(0xD800 <= cp < 0xE000) then Some((cp as char, 3)) else None
      else None
    else if 0xF0 <= b0 < 0xF5 then
      if |b| >= 4 && IsContinuation(b[1]) && IsContinuation(b[2]) && IsContinuation(b[3]) then
        var cp := Payload4(b0, b[1], b[2], b[3]);
        if 0x10000 <= cp < 0x110000 then Some((cp as char, 4)) else None
      else None
    else None
  }

  /** The string whose UTF-8 form is `b`, or `None` when `b` is not well-formed UTF-8. */
  function Decode(b: seq<Byte>): (r: Option<string>)
    decreases |b|
  {
    if b == [] then Some([])
    else
      match DecodeFirst(b)
      case None => None
      case Some((c, n)) =>
        match Decode(b[n..])
        case None => None
        case Some(t) => Some([c] + t)
  }

  lemma Join64(q: int, r: int)
    requires 0 <= r < 64
    ensures (q * 64 + r) / 64 == q && (q * 64 + r) % 64 == r
  {
  }

  /** The first sequence of an encoded character decodes to that character. */
  lemma DecodeFirstEncodeChar(c: char, rest: seq<Byte>)
    ensures var e := EncodeChar(c);
      DecodeFirst(e + rest) == Some((c, |e|))
  {
    var cp := c as int;
    var x1 := cp / 64;
    var x2 := x1 / 64;
    var x3 := x2 / 64;
    var e := EncodeChar(c);
    var b := e + rest;
    if cp < 0x80 {
    } else if cp < 0x800 {
      assert Payload2(b[0], b[1]) == x1 * 64 + cp % 64 == cp;
    } else if cp < 0x10000 {
      assert Payload3(b[0], b[1], b[2]) == (x2 * 64 + x1 % 64) * 64 + cp % 64;
      assert x2 * 64 + x1 % 64 == x1;
    } else {
      assert Payload4(b[0], b[1], b[2], b[3]) == ((x3 * 64 + x2 % 64) * 64 + x1 % 64) * 64 + cp % 64;
      assert x3 * 64 + x2 % 64 == x2;
      assert x2 * 64 + x1 % 64 == x1;
    }
  }

  /** A decoded first sequence is exactly the encoding of the character it yields. */
  lemma EncodeCharDecodeFirst(b: seq<Byte>)
    requires |b| > 0 && DecodeFirst(b).Some?
    ensures EncodeChar(DecodeFirst(b).value.0) == b[..DecodeFirst(b).value.1]
  {
    var n := DecodeFirst(b).value.1;
    if n == 2 {
      EncodeCharDecodeTwo(b);
    } else if n == 3 {
      EncodeCharDecodeThree(b);
    } else if n == 4 {
      EncodeCharDecodeFour(b);
    }
  }

  lemma EncodeCharDecodeTwo(b: seq<Byte>)
    requires |b| > 0 && DecodeFirst(b).Some? && DecodeFirst(b).value.1 == 2
    ensures EncodeChar(DecodeFirst(b).value.0) == b[..2]
  {
    Join64(b[0] - 0xC0, b[1] - 0x80);
    assert b[..2] == [b[0], b[1]];
  }

  lemma EncodeCharDecodeThree(b: seq<Byte>)
    requires |b| > 0 && DecodeFirst(b).Some? && DecodeFirst(b).value.1 == 3
    ensures EncodeChar(DecodeFirst(b).value.0) == b[..3]
  {
    var y1: int := (b[0] as int - 0xE0) * 64 + (b[1] - 0x80);
    Join64(y1, b[2] - 0x80);
    Join64(b[0] - 0xE0, b[1] - 0x80);
    assert b[..3] == [b[0], b[1], b[2]];
  }

  lemma EncodeCharDecodeFour(b: seq<Byte>)
    requires |b| > 0 && DecodeFirst(b).Some? && DecodeFirst(b).value.1 == 4
    ensures EncodeChar(DecodeFirst(b).value.0) == b[..4]
  {
    var y2: int := (b[0] as int - 0xF0) * 64 + (b[1] - 0x80);
    var y1: int := y2 * 64 + (b[2] - 0x80);
    Join64(y1, b[3] - 0x80);
    Join64(y2, b[2] - 0x80);
    Join64(b[0] - 0xF0, b[1] - 0x80);
    assert b[..4] == [b[0], b[1], b[2], b[3]];
  }


  /** Decoding the UTF-8 of any string gives back exactly that string. */
  lemma {:induction false} DecodeEncode(s: string)
    ensures Decode(Encode(s)) == Some(s)
    decreases |s|
  {
    if s != [] {
      var e := EncodeChar(s[0]);
      var b := Encode(s);
      DecodeFirstEncodeChar(s[0], Encode(s[1..]));
      DecodeEncode(s[1..]);
      assert b[|e|..] == Encode(s[1..]);
      assert [s[0]] + s[1..] == s;
    }
  }

  /** Whatever `Decode` accepts is the UTF-8 of the string it returns: the decoder is exact. */
  lemma {:induction false} EncodeDecode(b: seq<Byte>)
    ensures Decode(b).Some? ==> Encode(Decode(b).value) == b
    decreases |b|
  {
    if b != [] && Decode(b).Some? {
      DecodeSplit(b);
      var (c, n) := DecodeFirst(b).value;
      EncodeCharDecodeFirst(b);
      EncodeDecode(b[n..]);
      EncodeCons(c, Decode(b[n..]).value, b, n);
    }
  }

  /** A successful decode is the first character followed by the decode of what comes after it. */
  lemma DecodeSplit(b: seq<Byte>)
    requires b != [] && Decode(b).Some?
    ensures DecodeFirst(b).Some?
    ensures var n := DecodeFirst(b).value.1;
      Decode(b[n..]).Some? && Decode(b).value == [DecodeFirst(b).value.0] + Decode(b[n..]).value
  {
  }

  lemma EncodeCons(c: char, t: string, b: seq<Byte>, n: nat)
    requires n <= |b| && EncodeChar(c) == b[..n] && Encode(t) == b[n..]
    ensures Encode([c] + t) == b
  {
    var s := [c] + t;
    assert s[0] == c && s[1..] == t;
    assert b == b[..n] + b[n..];
  }


  /** ASCII bytes decode one character per byte, as the per-byte (Latin-1) reading does. */
  lemma {:induction false} AsciiDecode(b: seq<Byte>)
    requires AllAscii(b)
    ensures Decode(b) == Some(Latin1Decode(b))
    decreases |b|
  {
    if b != [] {
      AsciiDecode(b[1..]);
      assert Latin1Decode(b) == [b[0] as char] + Latin1Decode(b[1..]);
    }
  }

  /** An ASCII string is its own UTF-8 form, byte for character. */
  lemma {:induction false} EncodeAscii(s: string)
    requires IsAscii(s)
    ensures IsBinary(s) && Encode(s) == Latin1Encode(s)
    decreases |s|
  {
    if s != [] {
      EncodeAscii(s[1..]);
      assert Latin1Encode(s) == [s[0] as int] + Latin1Encode(s[1..]);
    }
  }
}
