/**
 * Base64 with the standard alphabet and `=` padding of section 4 of RFC 4648,
 * as `fromByteArray` (encode) and `toByteArray` (decode) of base64-js apply it.
 * Every three bytes become four characters; a final group of one or two bytes
 * is padded with `==` or `=`.
 */
module Base64 {
  import opened Bytes
  import opened Wrappers

  /** The character of the alphabet that stands for the 6-bit value `v`. */
  function CharOf(v: int): (c: char)
    requires 0 <= v < 64
    ensures c != '=' && (c as int) < 128
  {
    if v < 26 then (65 + v) as char
    else if v < 52 then (71 + v) as char
    else if v < 62 then (v - 4) as char
    else if v == 62 then '+'
    else '/'
  }

  /** The 6-bit value of an alphabet character; `None` for any other character, `=` included. */
  function ValueOf(c: char): (r: Option<int>)
    ensures r.Some? ==> 0 <= r.value < 64 && CharOf(r.value) == c
    ensures c == '=' ==> r.None?
  {
    if 'A' <= c <= 'Z' then Some(c as int - 65)
    else if 'a' <= c <= 'z' then Some(c as int - 71)
    else if '0' <= c <= '9' then Some(c as int + 4)
    else if c == '+' then Some(62)
    else if c == '/' then Some(63)
    else None
  }

  /** Every 6-bit value's character reads back as that value. */
  lemma ValueOfCharOf(v: int)
    requires 0 <= v < 64
    ensures ValueOf(CharOf(v)) == Some(v)
  {
  }

  /** The four characters of a full group of three bytes. */
  function EncodeGroup(b0: Byte, b1: Byte, b2: Byte): string {
    [CharOf(b0 / 4), CharOf(b0 % 4 * 16 + b1 / 16), CharOf(b1 % 16 * 4 + b2 / 64), CharOf(b2 % 64)]
  }

  /** Base64 of `b`: the text `fromByteArray` returns. */
  function Encode(b: seq<Byte>): (s: string)
    ensures |s| == 4 * ((|b| + 2) / 3)
    decreases |b|
  {
    if |b| == 0 then ""
    else if |b| == 1 then [CharOf(b[0] / 4), CharOf(b[0] % 4 * 16), '=', '=']
    else if |b| == 2 then [CharOf(b[0] / 4), CharOf(b[0] % 4 * 16 + b[1] / 16), CharOf(b[1] % 16 * 4), '=']
    else EncodeGroup(b[0], b[1], b[2]) + Encode(b[3..])
  }

  /** A final group `xy==`: one byte. The low four bits of `y` must be zero. */
  function DecodeOne(c0: char, c1: char): Option<seq<Byte>> {
    match (ValueOf(c0), ValueOf(c1))
    case (Some(v0), Some(v1)) =>
      if v1 % 16 == 0 then Some([v0 * 4 + v1 / 16]) else None
    case _ => None
  }

  /** A final group `xyz=`: two bytes. The low two bits of `z` must be zero. */
  function DecodeTwo(c0: char, c1: char, c2: char): Option<seq<Byte>> {
    match (ValueOf(c0), ValueOf(c1), ValueOf(c2))
    case (Some(v0), Some(v1), Some(v2)) =>
      if v2 % 4 == 0 then Some([v0 * 4 + v1 / 16, v1 % 16 * 16 + v2 / 4]) else None
    case _ => None
  }

  /** A full group of four alphabet characters: three bytes. */
  function DecodeGroup(c0: char, c1: char, c2: char, c3: char): Option<seq<Byte>> {
    match (ValueOf(c0), ValueOf(c1), ValueOf(c2), ValueOf(c3))
    case (Some(v0), Some(v1), Some(v2), Some(v3)) =>
      Some([v0 * 4 + v1 / 16, v1 % 16 * 16 + v2 / 4, v2 % 4 * 64 + v3])
    case _ => None
  }

  /**
   * The bytes a base64 text stands for, or `None` when it is not base64: its
   * length is not a multiple of four, a character lies outside the alphabet,
   * padding appears other than at the end, or the padding bits are not zero.
   */
  function Decode(s: string): (r: Option<seq<Byte>>)
    ensures r.Some? ==> |s| % 4 == 0
    decreases |s|
  {
    if |s| == 0 then Some([])
    else if |s| < 4 then None
    else if |s| == 4 && s[2] == '=' && s[3] == '=' then DecodeOne(s[0], s[1])
    else if |s| == 4 && s[3] == '=' then DecodeTwo(s[0], s[1], s[2])
    else
      match DecodeGroup(s[0], s[1], s[2], s[3])
      case None => None
      case Some(g) =>
        match Decode(s[4..])
        case None => None
        case Some(t) => Some(g + t)
  }

  lemma DivMod4(q: int, r: int)
    requires 0 <= r < 4
    ensures (q * 4 + r) / 4 == q && (q * 4 + r) % 4 == r
  {
  }

  lemma DivMod16(q: int, r: int)
    requires 0 <= r < 16
    ensures (q * 16 + r) / 16 == q && (q * 16 + r) % 16 == r
  {
  }

  lemma DivMod64(q: int, r: int)
    requires 0 <= r < 64
    ensures (q * 64 + r) / 64 == q && (q * 64 + r) % 64 == r
  {
  }

  /** Splitting three bytes into four 6-bit values and joining them again is the identity. */
  lemma BytesSextetsBytes(b0: Byte, b1: Byte, b2: Byte)
    ensures var v0, v1, v2, v3 := b0 / 4, b0 % 4 * 16 + b1 / 16, b1 % 16 * 4 + b2 / 64, b2 % 64;
      v0 * 4 + v1 / 16 == b0 && v1 % 16 * 16 + v2 / 4 == b1 && v2 % 4 * 64 + v3 == b2
  {
    DivMod16(b0 % 4, b1 / 16);
    DivMod4(b1 % 16, b2 / 64);
  }

  /** Joining four 6-bit values into three bytes and splitting them again is the identity. */
  lemma SextetsBytesSextets(v0: int, v1: int, v2: int, v3: int)
    requires 0 <= v0 < 64 && 0 <= v1 < 64 && 0 <= v2 < 64 && 0 <= v3 < 64
    ensures var b0, b1, b2 := v0 * 4 + v1 / 16, v1 % 16 * 16 + v2 / 4, v2 % 4 * 64 + v3;
      b0 / 4 == v0 && b0 % 4 * 16 + b1 / 16 == v1 && b1 % 16 * 4 + b2 / 64 == v2 && b2 % 64 == v3
  {
    DivMod4(v0, v1 / 16);
    DivMod16(v1 % 16, v2 / 4);
    DivMod64(v2 % 4, v3);
  }

  /** A full group decodes to the three bytes it was encoded from. */
  lemma DecodeEncodeGroup(b0: Byte, b1: Byte, b2: Byte)
    ensures var e := EncodeGroup(b0, b1, b2);
      DecodeGroup(e[0], e[1], e[2], e[3]) == Some([b0, b1, b2])
  {
    BytesSextetsBytes(b0, b1, b2);
    ValueOfCharOf(b0 / 4);
    ValueOfCharOf(b0 % 4 * 16 + b1 / 16);
    ValueOfCharOf(b1 % 16 * 4 + b2 / 64);
    ValueOfCharOf(b2 % 64);
  }

  /** A single final byte survives its `xy==` group. */
  lemma DecodeEncodeOne(b0: Byte)
    ensures Decode(Encode([b0])) == Some([b0])
  {
    BytesSextetsBytes(b0, 0, 0);
    DivMod16(b0 % 4, 0);
    ValueOfCharOf(b0 / 4);
    ValueOfCharOf(b0 % 4 * 16);
  }

  /** Two final bytes survive their `xyz=` group. */
  lemma DecodeEncodeTwo(b0: Byte, b1: Byte)
    ensures Decode(Encode([b0, b1])) == Some([b0, b1])
  {
    var s := Encode([b0, b1]);
    BytesSextetsBytes(b0, b1, 0);
    DivMod4(b1 % 16, 0);
    ValueOfCharOf(b0 / 4);
    ValueOfCharOf(b0 % 4 * 16 + b1 / 16);
    ValueOfCharOf(b1 % 16 * 4);
    assert DecodeTwo(s[0], s[1], s[2]) == Some([b0, b1]);
  }

  /** Decoding a full group followed by more text: the group's bytes, then the rest's. */
  lemma DecodeGroupThen(g: string, t: string, bs: seq<Byte>, rest: seq<Byte>)
    requires |g| == 4 && DecodeGroup(g[0], g[1], g[2], g[3]) == Some(bs) && Decode(t) == Some(rest)
    ensures Decode(g + t) == Some(bs + rest)
  {
    var v3 := ValueOf(g[3]);
    assert v3.Some?;
    var s := g + t;
    assert s[..4] == g && s[4..] == t;
    assert s[0] == g[0] && s[1] == g[1] && s[2] == g[2] && s[3] == g[3];
  }

  /** Decoding the base64 of any byte sequence gives back exactly that sequence. */
  lemma {:induction false} DecodeEncode(b: seq<Byte>)
    ensures Decode(Encode(b)) == Some(b)
    decreases |b|
  {
    if |b| == 1 {
      assert b == [b[0]];
      DecodeEncodeOne(b[0]);
    } else if |b| == 2 {
      assert b == [b[0], b[1]];
      DecodeEncodeTwo(b[0], b[1]);
    } else if |b| >= 3 {
      var g := EncodeGroup(b[0], b[1], b[2]);
      assert Encode(b) == g + Encode(b[3..]);
      DecodeEncodeGroup(b[0], b[1], b[2]);
      DecodeEncode(b[3..]);
      DecodeGroupThen(g, Encode(b[3..]), [b[0], b[1], b[2]], b[3..]);
      assert [b[0], b[1], b[2]] + b[3..] == b;
    }
  }


  /** A final `xy==` group that decodes is the encoding of its byte. */
  lemma EncodeDecodeOne(c0: char, c1: char)
    requires DecodeOne(c0, c1).Some?
    ensures Encode(DecodeOne(c0, c1).value) == [c0, c1, '=', '=']
  {
    var v0, v1 := ValueOf(c0).value, ValueOf(c1).value;
    SextetsBytesSextets(v0, v1, 0, 0);
  }

  /** A final `xyz=` group that decodes is the encoding of its two bytes. */
  lemma EncodeDecodeTwo(c0: char, c1: char, c2: char)
    requires DecodeTwo(c0, c1, c2).Some?
    ensures Encode(DecodeTwo(c0, c1, c2).value) == [c0, c1, c2, '=']
  {
    var v0, v1, v2 := ValueOf(c0).value, ValueOf(c1).value, ValueOf(c2).value;
    SextetsBytesSextets(v0, v1, v2, 0);
  }

  /** A full group that decodes is the encoding of its three bytes. */
  lemma EncodeDecodeGroup(c0: char, c1: char, c2: char, c3: char)
    requires DecodeGroup(c0, c1, c2, c3).Some?
    ensures var g := DecodeGroup(c0, c1, c2, c3).value;
      |g| == 3 && EncodeGroup(g[0], g[1], g[2]) == [c0, c1, c2, c3]
  {
    var v0, v1, v2, v3 := ValueOf(c0).value, ValueOf(c1).value, ValueOf(c2).value, ValueOf(c3).value;
    var g := DecodeGroup(c0, c1, c2, c3).value;
    assert g == [v0 * 4 + v1 / 16, v1 % 16 * 16 + v2 / 4, v2 % 4 * 64 + v3];
    SextetsBytesSextets(v0, v1, v2, v3);
    assert EncodeGroup(g[0], g[1], g[2]) == [CharOf(v0), CharOf(v1), CharOf(v2), CharOf(v3)];
  }

  /** Whatever `Decode` accepts is the base64 of the bytes it returns: the strict decoder inverts `Encode`. */
  lemma {:induction false} EncodeDecode(s: string)
    ensures Decode(s).Some? ==> Encode(Decode(s).value) == s
    decreases |s|
  {
    if Decode(s).Some? && |s| >= 4 {
      assert s[..4] == [s[0], s[1], s[2], s[3]];
      if |s| == 4 && s[2] == '=' && s[3] == '=' {
        EncodeDecodeOne(s[0], s[1]);
      } else if |s| == 4 && s[3] == '=' {
        EncodeDecodeTwo(s[0], s[1], s[2]);
      } else {
        var g := DecodeGroup(s[0], s[1], s[2], s[3]).value;
        var t := Decode(s[4..]).value;
        EncodeDecodeGroup(s[0], s[1], s[2], s[3]);
        EncodeDecode(s[4..]);
        var b := g + t;
        assert b[3..] == t;
        assert Encode(b) == EncodeGroup(g[0], g[1], g[2]) + Encode(t);
        assert s == s[..4] + s[4..];
      }
    }
  }

  /** The two round trips together: `Decode` and `Encode` are inverse on exactly the canonical texts. */
  lemma DecodeIff(b: seq<Byte>, s: string)
    ensures Decode(s) == Some(b) <==> Encode(b) == s
  {
    DecodeEncode(b);
    EncodeDecode(s);
  }

  /** A character that base64 text may contain: one of the 64 of the alphabet, or the padding `=`. */
  predicate InAlphabet(c: char) {
    c == '=' || ValueOf(c).Some?
  }

  lemma GroupInAlphabet(v: int)
    requires 0 <= v < 64
    ensures InAlphabet(CharOf(v)) && (CharOf(v) as int) < 128
  {
    ValueOfCharOf(v);
  }

  /** Base64 text uses only the alphabet and `=`: no quote, backslash, control or non-ASCII character. */
  lemma {:induction false} EncodeInAlphabet(b: seq<Byte>)
    ensures forall i :: 0 <= i < |Encode(b)| ==> InAlphabet(Encode(b)[i]) && (Encode(b)[i] as int) < 128
    decreases |b|
  {
    var s := Encode(b);
    if |b| == 1 {
      GroupInAlphabet(b[0] / 4);
      GroupInAlphabet(b[0] % 4 * 16);
    } else if |b| == 2 {
      GroupInAlphabet(b[0] / 4);
      GroupInAlphabet(b[0] % 4 * 16 + b[1] / 16);
      GroupInAlphabet(b[1] % 16 * 4);
    } else if |b| >= 3 {
      GroupInAlphabet(b[0] / 4);
      GroupInAlphabet(b[0] % 4 * 16 + b[1] / 16);
      GroupInAlphabet(b[1] % 16 * 4 + b[2] / 64);
      GroupInAlphabet(b[2] % 64);
      EncodeInAlphabet(b[3..]);
      assert s == EncodeGroup(b[0], b[1], b[2]) + Encode(b[3..]);
    }
  }
}
