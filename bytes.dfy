/**
 * Bytes and the one-character-per-byte ("binary string") view of them that
 * the browser code uses: `String.fromCharCode(byte)` turns a byte into the
 * character with that code, and `btoa` reads such a string back as bytes.
 */
module Bytes {

  /** An octet, an element of a `Uint8Array`. */
  type Byte = b: int | 0 <= b < 256

  /** True when every character of `s` has a code below 256, so that it is a byte. */
  predicate IsBinary(s: string) {
    forall i :: 0 <= i < |s| ==> s[i] as int < 256
  }

  /** True when every character of `s` is 7-bit ASCII. */
  predicate IsAscii(s: string) {
    forall i :: 0 <= i < |s| ==> s[i] as int < 128
  }

  /** True when every byte of `b` is below 128. */
  predicate AllAscii(b: seq<Byte>) {
    forall i :: 0 <= i < |b| ==> b[i] < 128
  }

  /** `String.fromCharCode` applied to each byte in turn: one character per byte. */
  function Latin1Decode(b: seq<Byte>): (s: string)
    ensures |s| == |b|
    ensures forall i :: 0 <= i < |b| ==> s[i] as int == b[i]
  {
    seq(|b|, i requires 0 <= i < |b| => b[i] as char)
  }

  /** The byte view of a binary string, as `btoa` reads it. */
  function Latin1Encode(s: string): (b: seq<Byte>)
    requires IsBinary(s)
    ensures |b| == |s|
    ensures forall i :: 0 <= i < |s| ==> b[i] == s[i] as int
  {
    seq(|s|, i requires 0 <= i < |s| => s[i] as int)
  }

  /** Reading a binary string back as bytes gives the bytes it was built from, and the reverse. */
  lemma Latin1RoundTrip(b: seq<Byte>, s: string)
    ensures IsBinary(Latin1Decode(b)) && Latin1Encode(Latin1Decode(b)) == b
    ensures IsBinary(s) ==> Latin1Decode(Latin1Encode(s)) == s
  {
  }

  /** Decoding one byte more appends one character: the step of a loop that builds the string. */
  lemma Latin1DecodeSnoc(b: seq<Byte>, x: Byte)
    ensures Latin1Decode(b + [x]) == Latin1Decode(b) + [x as char]
  {
  }
}
