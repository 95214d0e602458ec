/**
 * JSON text as RFC 8259 defines it: a value datatype, the serializer that
 * `JSON.stringify` amounts to for these values (no whitespace, keys in order,
 * the ECMAScript string escapes), and a parser for the whole RFC 8259 grammar
 * the way `JSON.parse` reads it. The main theorem is that parsing undoes
 * serializing.
 */
module Json {
  import opened Wrappers

  datatype Json =
    | JNull
    | JBool(b: bool)
    | JNumber(n: Number)
    | JString(s: string)
    | JArray(elements: seq<Json>)
    | JObject(members: seq<Member>)

  /** One `"key": value` pair of an object, in source order. */
  datatype Member = Member(key: string, value: Json)

  /**
   * A number as it is written: `-`, integer digits, optional fraction digits,
   * optional exponent. The model never computes with numbers, so it keeps
   * their digits and not a floating-point value.
   */
  datatype Number = Number(negative: bool, integral: string, fraction: Option<string>, exponent: Option<Exponent>)

  /** `e` or `E`, an optional sign (`""`, `"+"` or `"-"`) and the exponent digits. */
  datatype Exponent = Exponent(marker: char, sign: string, digits: string)

  predicate IsDigit(c: char) { '0' <= c <= '9' }

  predicate AllDigits(s: string)
    decreases |s|
  {
    s == [] || (IsDigit(s[0]) && AllDigits(s[1..]))
  }

  /** The number grammar of section 6 of RFC 8259: no leading zeros, at least one digit in each part. */
  predicate WellFormedNumber(n: Number) {
    && (n.integral == "0" || (|n.integral| >= 1 && '1' <= n.integral[0] <= '9' && AllDigits(n.integral)))
    && (n.fraction.Some? ==> |n.fraction.value| >= 1 && AllDigits(n.fraction.value))
    && (n.exponent.Some? ==>
          var e := n.exponent.value;
          (e.marker == 'e' || e.marker == 'E') && (e.sign == "" || e.sign == "+" || e.sign == "-")
          && |e.digits| >= 1 && AllDigits(e.digits))
  }

  /** A value all of whose numbers follow the number grammar. */
  predicate WellFormed(j: Json)
    decreases j, 1
  {
    match j
    case JNumber(n) => WellFormedNumber(n)
    case JArray(es) => WellFormedElements(es)
    case JObject(ms) => WellFormedMembers(ms)
    case _ => true
  }

  predicate WellFormedElements(es: seq<Json>)
    decreases es, 0
  {
    es == [] || (WellFormed(es[0]) && WellFormedElements(es[1..]))
  }

  predicate WellFormedMembers(ms: seq<Member>)
    decreases ms, 0
  {
    ms == [] || (WellFormed(ms[0].value) && WellFormedMembers(ms[1..]))
  }

  /** `obj.key` on a parsed object: the value of the last member named `key` (a later duplicate wins). */
  function Get(ms: seq<Member>, key: string): (r: Option<Json>)
    ensures r.Some? <==> exists i :: 0 <= i < |ms| && ms[i].key == key
    decreases |ms|
  {
    if ms == [] then None
    else
      match Get(ms[1..], key)
      case Some(v) => Some(v)
      case None => if ms[0].key == key then Some(ms[0].value) else None
  }

  /** The value `Get` finds is that of a member named `key` after which no member has that name. */
  lemma {:induction false} GetLastWins(ms: seq<Member>, key: string)
    requires Get(ms, key).Some?
    ensures exists i :: 0 <= i < |ms| && ms[i].key == key && Get(ms, key).value == ms[i].value
                        && forall k :: i < k < |ms| ==> ms[k].key != key
    decreases |ms|
  {
    if Get(ms[1..], key).Some? {
      GetLastWins(ms[1..], key);
      var i :| 0 <= i < |ms[1..]| && ms[1..][i].key == key && Get(ms[1..], key).value == ms[1..][i].value
               && forall k :: i < k < |ms[1..]| ==> ms[1..][k].key != key;
      assert ms[i + 1] == ms[1..][i];
      assert forall k :: i + 1 < k < |ms| ==> ms[k] == ms[1..][k - 1];
    } else {
      assert forall k :: 0 < k < |ms| ==> ms[k] == ms[1..][k - 1];
      assert ms[0].key == key;
    }
  }

  // ---------------------------------------------------------------- serializing

  /** A lowercase hexadecimal digit. */
  function HexDigit(v: int): char
    requires 0 <= v < 16
  {
    if v < 10 then (48 + v) as char else (87 + v) as char
  }

  /** How `JSON.stringify` writes one character inside a string literal. */
  function EscapeChar(c: char): string {
    if c == '"' then "\\\""
    else if c == '\\' then "\\\\"
    else if c as int == 8 then "\\b"
    else if c as int == 12 then "\\f"
    else if c == '\n' then "\\n"
    else if c == '\r' then "\\r"
    else if c == '\t' then "\\t"
    else if (c as int) < 0x20 then "\\u00" + [HexDigit(c as int / 16), HexDigit(c as int % 16)]
    else [c]
  }

  function EscapeString(s: string): string
    decreases |s|
  {
    if s == [] then "" else EscapeChar(s[0]) + EscapeString(s[1..])
  }

  function Quote(s: string): string {
    "\"" + EscapeString(s) + "\""
  }

  /** The fraction part of a number as written: `.` and its digits, or nothing. */
  function FractionText(f: Option<string>): string {
    if f.Some? then "." + f.value else ""
  }

  /** The exponent part of a number as written: the marker, the sign and the digits, or nothing. */
  function ExponentText(e: Option<Exponent>): string {
    if e.Some? then [e.value.marker] + e.value.sign + e.value.digits else ""
  }

  function SerializeNumber(n: Number): string {
    (if n.negative then "-" else "") + n.integral + FractionText(n.fraction) + ExponentText(n.exponent)
  }

  /** The JSON text of `j` with no whitespace: `JSON.stringify(j)`. */
  function Serialize(j: Json): string
    decreases j, 1
  {
    match j
    case JNull => "null"
    case JBool(b) => if b then "true" else "false"
    case JNumber(n) => SerializeNumber(n)
    case JString(s) => Quote(s)
    case JArray(es) => "[" + SerializeElements(es) + "]"
    case JObject(ms) => "{" + SerializeMembers(ms) + "}"
  }

  /** The elements of an array, separated by commas. */
  function SerializeElements(es: seq<Json>): string
    decreases es, 0
  {
    if es == [] then ""
    else if |es| == 1 then Serialize(es[0])
    else Serialize(es[0]) + "," + SerializeElements(es[1..])
  }

  /** The members of an object, `"key":value`, separated by commas. */
  function SerializeMembers(ms: seq<Member>): string
    decreases ms, 0
  {
    if ms == [] then ""
    else if |ms| == 1 then Quote(ms[0].key) + ":" + Serialize(ms[0].value)
    else Quote(ms[0].key) + ":" + Serialize(ms[0].value) + "," + SerializeMembers(ms[1..])
  }

  // ---------------------------------------------------------------- parsing

  /** The four whitespace characters of section 2 of RFC 8259. */
  predicate IsWhitespace(c: char) {
    c == ' ' || c == '\t' || c == '\n' || c == '\r'
  }

  function SkipWhitespace(s: string): (r: string)
    ensures |r| <= |s|
    ensures r == [] || !IsWhitespace(r[0])
    decreases |s|
  {
    if s != [] && IsWhitespace(s[0]) then SkipWhitespace(s[1..]) else s
  }

  /** The number of leading digits of `s`. */
  function DigitRun(s: string): (k: nat)
    ensures k <= |s|
    decreases |s|
  {
    if s != [] && IsDigit(s[0]) then 1 + DigitRun(s[1..]) else 0
  }

  function HexValue(c: char): (r: Option<int>)
    ensures r.Some? ==> 0 <= r.value < 16
  {
    if '0' <= c <= '9' then Some(c as int - 48)
    else if 'a' <= c <= 'f' then Some(c as int - 87)
    else if 'A' <= c <= 'F' then Some(c as int - 55)
    else None
  }

  /** The code unit of four hexadecimal digits at the start of `s`. */
  function Hex4(s: string): (r: Option<int>)
    ensures r.Some? ==> |s| >= 4 && 0 <= r.value < 0x10000
  {
    if |s| < 4 then None
    else
      match (HexValue(s[0]), HexValue(s[1]), HexValue(s[2]), HexValue(s[3]))
      case (Some(h0), Some(h1), Some(h2), Some(h3)) => Some(((h0 * 16 + h1) * 16 + h2) * 16 + h3)
      case _ => None
  }

  /** U+FFFD, which stands for a surrogate code unit that is not half of a pair. */
  const Replacement: char := 0xFFFD as char

  /**
   * The character a `\u` escape of code unit `u` stands for, when `after`
   * is the text after its four digits, with the number of characters it
   * takes after the backslash. A high surrogate followed by a `\u` escape
   * of a low surrogate makes one character from the pair; a surrogate
   * without its partner is accepted, as the grammar allows, and stands for
   * U+FFFD.
   */
  function UnitEscape(u: int, after: string): (r: (char, nat))
    requires 0 <= u < 0x10000
    ensures r.1 == 5 || (r.1 == 11 && |after| >= 6)
  {
    if 0xD800 <= u < 0xDC00 then
      if |after| >= 6 && after[0] == '\\' && after[1] == 'u' then
        match Hex4(after[2..])
        case Some(l) =>
          if 0xDC00 <= l < 0xE000 then ((0x10000 + (u - 0xD800) * 0x400 + (l - 0xDC00)) as char, 11)
          else (Replacement, 5)
        case None => (Replacement, 5)
      else (Replacement, 5)
    else if 0xDC00 <= u < 0xE000 then (Replacement, 5)
    else (u as char, 5)
  }

  /** The character an escape stands for, with the number of characters it takes after the backslash. */
  function ParseEscape(s: string): (r: Option<(char, nat)>)
    ensures r.Some? ==> 1 <= r.value.1 <= |s|
  {
    if s == [] then None
    else if s[0] == '"' || s[0] == '\\' || s[0] == '/' then Some((s[0], 1))
    else if s[0] == 'b' then Some((8 as char, 1))
    else if s[0] == 'f' then Some((12 as char, 1))
    else if s[0] == 'n' then Some(('\n', 1))
    else if s[0] == 'r' then Some(('\r', 1))
    else if s[0] == 't' then Some(('\t', 1))
    else if s[0] == 'u' then
      match Hex4(s[1..])
      case None => None
      case Some(u) => Some(UnitEscape(u, s[5..]))
    else None
  }

  /** The contents of a string literal whose opening quote is already read, and what follows its closing quote. */
  function ParseString(s: string): (r: Option<(string, string)>)
    ensures r.Some? ==> |r.value.1| < |s|
    decreases |s|
  {
    if s == [] then None
    else if s[0] == '"' then Some(("", s[1..]))
    else if s[0] == '\\' then
      match ParseEscape(s[1..])
      case None => None
      case Some((c, n)) =>
        match ParseString(s[1 + n..])
        case None => None
        case Some((t, rest)) => Some(([c] + t, rest))
    else if (s[0] as int) < 0x20 then None
    else
      match ParseString(s[1..])
      case None => None
      case Some((t, rest)) => Some(([s[0]] + t, rest))
  }

  function ParseExponent(negative: bool, integral: string, fraction: Option<string>, s: string): (r: Option<(Number, string)>)
    ensures r.Some? ==> |r.value.1| <= |s|
  {
    if |s| > 0 && (s[0] == 'e' || s[0] == 'E') then
      var sign := if |s| > 1 && (s[1] == '+' || s[1] == '-') then s[1..2] else "";
      var t := s[1 + |sign|..];
      var k := DigitRun(t);
      if k == 0 then None
      else Some((Number(negative, integral, fraction, Some(Exponent(s[0], sign, t[..k]))), t[k..]))
    else Some((Number(negative, integral, fraction, None), s))
  }

  function ParseFraction(negative: bool, integral: string, s: string): (r: Option<(Number, string)>)
    ensures r.Some? ==> |r.value.1| <= |s|
  {
    var dot := |s| > 0 && s[0] == '.';
    var k := if dot then DigitRun(s[1..]) else 0;
    if dot && k == 0 then None
    else ParseExponent(negative, integral, if dot then Some(s[1..1 + k]) else None, s[(if dot then 1 + k else 0)..])
  }

  /** The longest number at the start of `s`, as `JSON.parse` scans it. */
  function ParseNumber(s: string): (r: Option<(Number, string)>)
    ensures r.Some? ==> |r.value.1| < |s|
  {
    var negative := |s| > 0 && s[0] == '-';
    var s1 := if negative then s[1..] else s;
    var k :=
      if s1 == [] then 0
      else if s1[0] == '0' then 1
      else if '1' <= s1[0] <= '9' then 1 + DigitRun(s1[1..])
      else 0;
    if k == 0 then None else ParseFraction(negative, s1[..k], s1[k..])
  }

  /** A number as a value. */
  function NumberValue(s: string): (r: Option<(Json, string)>)
    ensures r.Some? ==> |r.value.1| < |s|
  {
    match ParseNumber(s)
    case None => None
    case Some((n, rest)) => Some((JNumber(n), rest))
  }

  /** One value after optional whitespace, and the text after it. */
  function ParseValue(s: string): (r: Option<(Json, string)>)
    ensures r.Some? ==> |r.value.1| < |s|
    decreases |s|, 1
  {
    var t := SkipWhitespace(s);
    if t == [] then None
    else if t[0] == 'n' then
      if |t| >= 4 && t[..4] == "null" then Some((JNull, t[4..])) else None
    else if t[0] == 't' then
      if |t| >= 4 && t[..4] == "true" then Some((JBool(true), t[4..])) else None
    else if t[0] == 'f' then
      if |t| >= 5 && t[..5] == "false" then Some((JBool(false), t[5..])) else None
    else if t[0] == '"' then
      match ParseString(t[1..])
      case None => None
      case Some((str, rest)) => Some((JString(str), rest))
    else if t[0] == '[' then ParseArray(t[1..])
    else if t[0] == '{' then ParseObject(t[1..])
    else if t[0] == '-' || IsDigit(t[0]) then NumberValue(t)
    else None
  }

  /** An array whose `[` is already read. */
  function ParseArray(s: string): (r: Option<(Json, string)>)
    ensures r.Some? ==> |r.value.1| < |s|
    decreases |s|, 3
  {
    var t := SkipWhitespace(s);
    if |t| > 0 && t[0] == ']' then Some((JArray([]), t[1..]))
    else
      match ParseElements(t)
      case None => None
      case Some((es, rest)) => Some((JArray(es), rest))
  }

  /** One or more comma-separated values and the closing `]`. */
  function ParseElements(s: string): (r: Option<(seq<Json>, string)>)
    ensures r.Some? ==> |r.value.1| < |s|
    decreases |s|, 2
  {
    match ParseValue(s)
    case None => None
    case Some((v, r1)) =>
      var r2 := SkipWhitespace(r1);
      if |r2| > 0 && r2[0] == ',' then
        match ParseElements(r2[1..])
        case None => None
        case Some((vs, rest)) => Some(([v] + vs, rest))
      else if |r2| > 0 && r2[0] == ']' then Some(([v], r2[1..]))
      else None
  }

  /** An object whose `{` is already read. */
  function ParseObject(s: string): (r: Option<(Json, string)>)
    ensures r.Some? ==> |r.value.1| < |s|
    decreases |s|, 3
  {
    var t := SkipWhitespace(s);
    if |t| > 0 && t[0] == '}' then Some((JObject([]), t[1..]))
    else
      match ParseMembers(t)
      case None => None
      case Some((ms, rest)) => Some((JObject(ms), rest))
  }

  /** One or more comma-separated members and the closing `}`. */
  function ParseMembers(s: string): (r: Option<(seq<Member>, string)>)
    ensures r.Some? ==> |r.value.1| < |s|
    decreases |s|, 2
  {
    if s == [] || s[0] != '"' then None
    else
      match ParseString(s[1..])
      case None => None
      case Some((key, r1)) =>
        var r2 := SkipWhitespace(r1);
        if r2 == [] || r2[0] != ':' then None
        else
          match ParseValue(r2[1..])
          case None => None
          case Some((v, r3)) =>
            var r4 := SkipWhitespace(r3);
            if |r4| > 0 && r4[0] == ',' then
              match ParseMembers(SkipWhitespace(r4[1..]))
              case None => None
              case Some((ms, rest)) => Some(([Member(key, v)] + ms, rest))
            else if |r4| > 0 && r4[0] == '}' then Some(([Member(key, v)], r4[1..]))
            else None
  }

  /** `JSON.parse(s)`: one value, whitespace around it, nothing else; `None` where it would throw. */
  function Parse(s: string): Option<Json> {
    match ParseValue(s)
    case None => None
    case Some((v, rest)) => if SkipWhitespace(rest) == [] then Some(v) else None
  }

  /** A string literal that `ParseString` reads to its end is a whole JSON text. */
  lemma StringText(body: string, str: string)
    requires ParseString(body) == Some((str, ""))
    ensures Parse("\"" + body) == Some(JString(str))
  {
    var s := "\"" + body;
    assert SkipWhitespace(s) == s;
    assert s[1..] == body;
  }

  /** One escape, then the rest of the literal. */
  lemma ParseStringEscape(esc: string, rest: string, c: char, t: string, after: string)
    requires ParseEscape(esc + rest) == Some((c, |esc|)) && ParseString(rest) == Some((t, after))
    ensures ParseString("\\" + esc + rest) == Some(([c] + t, after))
  {
    var s := "\\" + esc + rest;
    assert s[1..] == esc + rest;
    assert s[1 + |esc|..] == rest;
  }

  /** `s` starts with a `\u` escape of a low surrogate. */
  predicate StartsLowSurrogate(s: string) {
    && |s| >= 6 && s[0] == '\\' && s[1] == 'u'
    && match Hex4(s[2..])
       case Some(l) => 0xDC00 <= l < 0xE000
       case None => false
  }

  /**
   * A `\u` escape of a surrogate that is not the high half of a pair (a low
   * surrogate, or a high one not followed by a low-surrogate escape) is
   * read as U+FFFD, and the literal goes on after its six characters.
   */
  lemma {:induction false} LoneSurrogateRead(hex: string, rest: string, t: string, after: string)
    requires |hex| == 4 && Hex4(hex).Some? && 0xD800 <= Hex4(hex).value < 0xE000
    requires Hex4(hex).value < 0xDC00 ==> !StartsLowSurrogate(rest)
    requires ParseString(rest) == Some((t, after))
    ensures ParseString("\\u" + hex + rest) == Some(([Replacement] + t, after))
  {
    var s := "\\u" + hex + rest;
    var e := s[1..];
    assert e == "u" + hex + rest;
    assert e[1..][..4] == hex;
    assert Hex4(e[1..]) == Hex4(hex);
    assert e[5..] == rest;
    assert s[1 + 5..] == rest;
  }

  /** The reply text `"\uD800"`, a lone high surrogate, parses, to U+FFFD. */
  lemma LoneHighSurrogate()
    ensures Parse("\"\\uD800\"") == Some(JString([Replacement]))
  {
    assert ParseString("\"") == Some(("", ""));
    assert Hex4("D800") == Some(0xD800);
    LoneSurrogateRead("D800", "\"", "", "");
    assert "\\u" + "D800" + "\"" == "\\uD800\"";
    assert [Replacement] + "" == [Replacement];
    StringText("\\uD800\"", [Replacement]);
  }
}
