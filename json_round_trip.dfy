/**
 * Parsing undoes serializing: `Parse(Serialize(j)) == Some(j)` for every
 * well-formed value, proved piece by piece (whitespace, strings, numbers,
 * then values, arrays and objects by mutual induction).
 */
module JsonRoundTrip {
  import opened Wrappers
  import opened Json

  /** What may follow a value inside serialized text: nothing, or the next separator or closing bracket. */
  predicate Ends(rest: string) {
    rest == [] || rest[0] == ',' || rest[0] == ']' || rest[0] == '}'
  }

  lemma DropFirst(a: string, b: string)
    requires a != []
    ensures (a + b)[1..] == a[1..] + b
  {
  }

  lemma SkipNothing(s: string)
    requires s == [] || !IsWhitespace(s[0])
    ensures SkipWhitespace(s) == s
  {
  }

  lemma HexValueHexDigit(v: int)
    requires 0 <= v < 16
    ensures HexValue(HexDigit(v)) == Some(v)
  {
  }

  /** A `\u00XY` escape of a control character reads back as that character, six characters later. */
  lemma ParseControlEscape(c: char, t: string)
    requires (c as int) < 0x20
    ensures var e := "u00" + [HexDigit(c as int / 16), HexDigit(c as int % 16)] + t;
      ParseEscape(e) == Some((c, 5))
  {
    var e := "u00" + [HexDigit(c as int / 16), HexDigit(c as int % 16)] + t;
    HexValueHexDigit(c as int / 16);
    HexValueHexDigit(c as int % 16);
    assert e[1..][0] == '0' && e[1..][1] == '0';
    assert Hex4(e[1..]) == Some(c as int);
  }

  lemma ParseShortEscape(c: char, t: string)
    requires c == '"' || c == '\\' || c as int == 8 || c as int == 12 || c == '\n' || c == '\r' || c == '\t'
    ensures ParseString(EscapeChar(c) + t) ==
      match ParseString(t)
      case None => None
      case Some((u, rest)) => Some(([c] + u, rest))
  {
    var s := EscapeChar(c) + t;
    assert s[1..] == [s[1]] + t;
    assert s[2..] == t;
  }

  lemma ParseUnicodeEscape(c: char, t: string)
    requires (c as int) < 0x20 && c as int != 8 && c as int != 12 && c != '\n' && c != '\r' && c != '\t'
    ensures ParseString(EscapeChar(c) + t) ==
      match ParseString(t)
      case None => None
      case Some((u, rest)) => Some(([c] + u, rest))
  {
    var s := EscapeChar(c) + t;
    var h := [HexDigit(c as int / 16), HexDigit(c as int % 16)];
    assert s == "\\" + ("u00" + h + t);
    ParseControlEscape(c, t);
    assert s[6..] == t;
  }

  lemma ParsePlainChar(c: char, t: string)
    requires c != '"' && c != '\\' && (c as int) >= 0x20
    ensures ParseString(EscapeChar(c) + t) ==
      match ParseString(t)
      case None => None
      case Some((u, rest)) => Some(([c] + u, rest))
  {
    var s := EscapeChar(c) + t;
    assert s == [c] + t;
    assert s[1..] == t;
  }

  /** The escaped form of one character reads back as that character, whatever follows it. */
  lemma ParseEscapeChar(c: char, t: string)
    ensures ParseString(EscapeChar(c) + t) ==
      match ParseString(t)
      case None => None
      case Some((u, rest)) => Some(([c] + u, rest))
  {
    if c == '"' || c == '\\' || c as int == 8 || c as int == 12 || c == '\n' || c == '\r' || c == '\t' {
      ParseShortEscape(c, t);
    } else if (c as int) < 0x20 {
      ParseUnicodeEscape(c, t);
    } else {
      ParsePlainChar(c, t);
    }
  }

  /** A quoted string reads back as its contents, and the text after the closing quote is left. */
  lemma {:induction false} ParseEscapeString(s: string, rest: string)
    ensures ParseString(EscapeString(s) + "\"" + rest) == Some((s, rest))
    decreases |s|
  {
    if s == [] {
      assert EscapeString(s) + "\"" + rest == "\"" + rest;
    } else {
      var tail := EscapeString(s[1..]) + "\"" + rest;
      assert EscapeString(s) + "\"" + rest == EscapeChar(s[0]) + tail;
      ParseEscapeChar(s[0], tail);
      ParseEscapeString(s[1..], rest);
      assert [s[0]] + s[1..] == s;
    }
  }

  lemma ParseQuote(s: string, rest: string)
    ensures Quote(s) + rest == "\"" + (EscapeString(s) + "\"" + rest)
    ensures ParseString(EscapeString(s) + "\"" + rest) == Some((s, rest))
  {
    ParseEscapeString(s, rest);
  }

  lemma {:induction false} DigitRunDigits(d: string, rest: string)
    requires AllDigits(d)
    requires rest == [] || !IsDigit(rest[0])
    ensures DigitRun(d + rest) == |d|
    decreases |d|
  {
    if d != [] {
      assert (d + rest)[1..] == d[1..] + rest;
      DigitRunDigits(d[1..], rest);
    }
  }

  predicate WellFormedExponent(e: Exponent) {
    (e.marker == 'e' || e.marker == 'E') && (e.sign == "" || e.sign == "+" || e.sign == "-")
    && |e.digits| >= 1 && AllDigits(e.digits)
  }


  /** The sign of an exponent is read as written. */
  lemma ExponentSign(x: Exponent, s: string)
    requires WellFormedExponent(x)
    requires s == [x.marker] + (x.sign + x.digits)
    ensures (if |s| > 1 && (s[1] == '+' || s[1] == '-') then s[1..2] else "") == x.sign
    ensures s[1 + |x.sign|..] == x.digits
  {
    if x.sign == "" {
      assert s[1..] == x.digits;
      assert s[1] == x.digits[0];
    } else {
      assert s[1..2] == x.sign;
    }
  }

  lemma ParseSomeExponent(negative: bool, integral: string, fraction: Option<string>, x: Exponent, rest: string)
    requires WellFormedExponent(x)
    requires Ends(rest)
    ensures ParseExponent(negative, integral, fraction, ExponentText(Some(x)) + rest)
         == Some((Number(negative, integral, fraction, Some(x)), rest))
  {
    var s := ExponentText(Some(x)) + rest;
    var t := x.digits + rest;
    assert |s| > 1 && s[0] == x.marker;
    assert (if |s| > 1 && (s[1] == '+' || s[1] == '-') then s[1..2] else "") == x.sign && s[1 + |x.sign|..] == t by {
      assert s == [x.marker] + (x.sign + t);
      ExponentSign(x, [x.marker] + (x.sign + x.digits));
      assert s[..1 + |x.sign| + 1] == ([x.marker] + (x.sign + x.digits))[..1 + |x.sign| + 1];
    }
    assert DigitRun(t) == |x.digits| && t[..|x.digits|] == x.digits && t[|x.digits|..] == rest by {
      DigitRunDigits(x.digits, rest);
    }
  }

  lemma ParseExponentSerialized(negative: bool, integral: string, fraction: Option<string>, e: Option<Exponent>, rest: string)
    requires e.Some? ==> WellFormedExponent(e.value)
    requires Ends(rest)
    ensures ParseExponent(negative, integral, fraction, ExponentText(e) + rest) == Some((Number(negative, integral, fraction, e), rest))
  {
    if e.Some? {
      ParseSomeExponent(negative, integral, fraction, e.value, rest);
    } else {
      assert ExponentText(e) + rest == rest;
    }
  }


  /** What follows the integer digits of a serialized number starts with neither a digit nor, without a fraction, a `.`. */
  lemma TailStart(n: Number, rest: string)
    requires WellFormedNumber(n)
    requires Ends(rest)
    ensures var u := FractionText(n.fraction) + ExponentText(n.exponent) + rest;
      (u == [] || !IsDigit(u[0])) && (n.fraction.None? ==> u == [] || u[0] != '.')
  {
  }

  lemma ParseFractionDot(negative: bool, integral: string, s: string, f: string, etext: string)
    requires |s| > 0 && s[0] == '.'
    requires DigitRun(s[1..]) == |f| && |f| > 0 && s[1..1 + |f|] == f && s[1 + |f|..] == etext
    ensures ParseFraction(negative, integral, s) == ParseExponent(negative, integral, Some(f), etext)
  {
  }

  lemma ParseFractionNoDot(negative: bool, integral: string, s: string)
    requires s == [] || s[0] != '.'
    ensures ParseFraction(negative, integral, s) == ParseExponent(negative, integral, None, s)
  {
  }

  /** `.` and a digit run are read as the fraction when no digit follows them. */
  lemma ParseSomeFraction(negative: bool, integral: string, f: string, etext: string)
    requires |f| >= 1 && AllDigits(f)
    requires etext == [] || !IsDigit(etext[0])
    ensures ParseFraction(negative, integral, "." + f + etext) == ParseExponent(negative, integral, Some(f), etext)
  {
    var s := "." + f + etext;
    assert s[1..] == f + etext;
    DigitRunDigits(f, etext);
    assert s[1..1 + |f|] == (f + etext)[..|f|];
    assert s[1 + |f|..] == (f + etext)[|f|..];
    ParseFractionDot(negative, integral, s, f, etext);
  }

  lemma ParseFractionSome(n: Number, rest: string)
    requires WellFormedNumber(n) && n.fraction.Some?
    requires Ends(rest)
    ensures ParseFraction(n.negative, n.integral, FractionText(n.fraction) + ExponentText(n.exponent) + rest)
         == ParseExponent(n.negative, n.integral, n.fraction, ExponentText(n.exponent) + rest)
  {
    var etext := ExponentText(n.exponent) + rest;
    assert FractionText(n.fraction) + ExponentText(n.exponent) + rest == "." + n.fraction.value + etext;
    assert etext == [] || !IsDigit(etext[0]) by {
      TailStart(Number(n.negative, n.integral, None, n.exponent), rest);
    }
    ParseSomeFraction(n.negative, n.integral, n.fraction.value, etext);
  }

  lemma ParseFractionNone(n: Number, rest: string)
    requires WellFormedNumber(n) && n.fraction.None?
    requires Ends(rest)
    ensures ParseFraction(n.negative, n.integral, FractionText(n.fraction) + ExponentText(n.exponent) + rest)
         == ParseExponent(n.negative, n.integral, n.fraction, ExponentText(n.exponent) + rest)
  {
    var etext := ExponentText(n.exponent) + rest;
    assert FractionText(n.fraction) + ExponentText(n.exponent) + rest == etext;
    TailStart(n, rest);
    ParseFractionNoDot(n.negative, n.integral, etext);
  }

  lemma ParseFractionSerialized(n: Number, rest: string)
    requires WellFormedNumber(n)
    requires Ends(rest)
    ensures ParseFraction(n.negative, n.integral, FractionText(n.fraction) + ExponentText(n.exponent) + rest)
         == Some((n, rest))
  {
    if n.fraction.Some? {
      ParseFractionSome(n, rest);
    } else {
      ParseFractionNone(n, rest);
    }
    ParseExponentSerialized(n.negative, n.integral, n.fraction, n.exponent, rest);
  }

  lemma ParseNumberStep(s: string, negative: bool, integral: string, tail: string)
    requires (|s| > 0 && s[0] == '-') == negative
    requires (if negative then s[1..] else s) == integral + tail
    requires integral == "0" || (|integral| >= 1 && '1' <= integral[0] <= '9' && 1 + DigitRun((integral + tail)[1..]) == |integral|)
    ensures ParseNumber(s) == ParseFraction(negative, integral, tail)
  {
    var s1 := integral + tail;
    assert s1[..|integral|] == integral && s1[|integral|..] == tail;
  }

  /** The integer digits of a number are read up to the first character that is not a digit. */
  lemma IntegralRun(integral: string, tail: string)
    requires |integral| >= 1 && AllDigits(integral)
    requires tail == [] || !IsDigit(tail[0])
    ensures 1 + DigitRun((integral + tail)[1..]) == |integral|
  {
    DropFirst(integral, tail);
    DigitRunDigits(integral[1..], tail);
  }

  lemma SerializeNumberSplit(n: Number, rest: string)
    ensures SerializeNumber(n) + rest
         == (if n.negative then "-" else "") + (n.integral + (FractionText(n.fraction) + ExponentText(n.exponent) + rest))
  {
  }

  /** A leading `-` is read as the sign, and the rest is the integer digits and what follows them. */
  lemma NumberSign(negative: bool, integral: string, tail: string)
    requires integral != [] && integral[0] != '-'
    ensures var s := (if negative then "-" else "") + (integral + tail);
      (|s| > 0 && s[0] == '-') == negative && (if negative then s[1..] else s) == integral + tail
  {
  }

  /** A well-formed number reads back as itself when a separator, a closing bracket or nothing follows. */
  lemma ParseNumberSerialized(n: Number, rest: string)
    requires WellFormedNumber(n)
    requires Ends(rest)
    ensures ParseNumber(SerializeNumber(n) + rest) == Some((n, rest))
  {
    var tail := FractionText(n.fraction) + ExponentText(n.exponent) + rest;
    var s := SerializeNumber(n) + rest;
    SerializeNumberSplit(n, rest);
    NumberSign(n.negative, n.integral, tail);
    if n.integral != "0" {
      TailStart(n, rest);
      IntegralRun(n.integral, tail);
    }
    ParseNumberStep(s, n.negative, n.integral, tail);
    ParseFractionSerialized(n, rest);
  }

  /** Serialized text never starts with whitespace. */
  lemma SerializeStart(j: Json)
    requires WellFormed(j)
    ensures Serialize(j) != [] && !IsWhitespace(Serialize(j)[0])
  {
    if j.JNumber? {
      var n := j.n;
      if !n.negative {
        assert Serialize(j)[0] == n.integral[0];
      }
    }
  }

  // Each of the next lemmas states which branch of `ParseValue` a first character selects.

  lemma ParseValueString(s: string)
    requires s != [] && s[0] == '"'
    ensures ParseValue(s) ==
      match ParseString(s[1..])
      case None => None
      case Some((str, rest)) => Some((JString(str), rest))
  {
    SkipNothing(s);
  }

  lemma ParseValueNumber(s: string)
    requires s != [] && (s[0] == '-' || IsDigit(s[0]))
    ensures ParseValue(s) == NumberValue(s)
  {
    SkipNothing(s);
    assert s[0] != 'n' && s[0] != 't' && s[0] != 'f' && s[0] != '"' && s[0] != '[' && s[0] != '{';
  }


  lemma ParseValueArray(s: string)
    requires s != [] && s[0] == '['
    ensures ParseValue(s) == ParseArray(s[1..])
  {
    SkipNothing(s);
  }

  lemma ParseValueObject(s: string)
    requires s != [] && s[0] == '{'
    ensures ParseValue(s) == ParseObject(s[1..])
  {
    SkipNothing(s);
  }

  lemma ParseLiteralSerialized(j: Json, rest: string)
    requires j.JNull? || j.JBool?
    ensures ParseValue(Serialize(j) + rest) == Some((j, rest))
  {
    var s := Serialize(j) + rest;
    SkipNothing(s);
    if j.JNull? {
      assert s[..4] == "null" && s[4..] == rest;
    } else if j.b {
      assert s[..4] == "true" && s[4..] == rest;
    } else {
      assert s[..5] == "false" && s[5..] == rest;
    }
  }

  lemma ParseStringSerialized(str: string, rest: string)
    ensures ParseValue(Quote(str) + rest) == Some((JString(str), rest))
  {
    var s := Quote(str) + rest;
    ParseQuote(str, rest);
    assert s[1..] == EscapeString(str) + "\"" + rest;
    ParseValueString(s);
  }

  lemma ParseNumberValue(n: Number, rest: string)
    requires WellFormedNumber(n)
    requires Ends(rest)
    ensures ParseValue(SerializeNumber(n) + rest) == Some((JNumber(n), rest))
  {
    var s := SerializeNumber(n) + rest;
    assert s[0] == '-' || IsDigit(s[0]) by {
      if !n.negative {
        assert s[0] == n.integral[0];
      }
    }
    ParseNumberSerialized(n, rest);
    ParseValueNumber(s);
  }

  /** Any well-formed value reads back as itself when a separator, a closing bracket or nothing follows. */
  lemma {:induction false} ParseValueSerialized(j: Json, rest: string)
    requires WellFormed(j)
    requires Ends(rest)
    ensures ParseValue(Serialize(j) + rest) == Some((j, rest))
    decreases j, 4
  {
    match j
    case JNull => ParseLiteralSerialized(j, rest);
    case JBool(_) => ParseLiteralSerialized(j, rest);
    case JNumber(n) => ParseNumberValue(n, rest);
    case JString(str) => ParseStringSerialized(str, rest);
    case JArray(es) => ParseArraySerialized(es, rest);
    case JObject(ms) => ParseObjectSerialized(ms, rest);
  }

  lemma ParseArrayEmpty(rest: string)
    ensures ParseArray("]" + rest) == Some((JArray([]), rest))
  {
    SkipNothing("]" + rest);
    assert ("]" + rest)[1..] == rest;
  }

  lemma ParseArrayElements(s: string)
    requires s != [] && s[0] != ']' && !IsWhitespace(s[0])
    ensures ParseArray(s) ==
      match ParseElements(s)
      case None => None
      case Some((es, rest)) => Some((JArray(es), rest))
  {
    SkipNothing(s);
  }

  lemma {:induction false} ParseArraySerialized(es: seq<Json>, rest: string)
    requires WellFormedElements(es)
    ensures ParseValue("[" + SerializeElements(es) + "]" + rest) == Some((JArray(es), rest))
    decreases es, 3
  {
    var s := "[" + SerializeElements(es) + "]" + rest;
    assert s[1..] == SerializeElements(es) + "]" + rest;
    ParseValueArray(s);
    ParseArrayBody(es, rest);
  }

  lemma {:induction false} ParseArrayBody(es: seq<Json>, rest: string)
    requires WellFormedElements(es)
    ensures ParseArray(SerializeElements(es) + "]" + rest) == Some((JArray(es), rest))
    decreases es, 2
  {
    var t := SerializeElements(es) + "]" + rest;
    if es == [] {
      assert t == "]" + rest;
      ParseArrayEmpty(rest);
    } else {
      SerializeStart(es[0]);
      assert t[0] == Serialize(es[0])[0];
      ParseArrayElements(t);
      ParseElementsSerialized(es, rest);
    }
  }

  lemma ParseObjectEmpty(rest: string)
    ensures ParseObject("}" + rest) == Some((JObject([]), rest))
  {
    SkipNothing("}" + rest);
    assert ("}" + rest)[1..] == rest;
  }

  lemma ParseObjectMembers(s: string)
    requires s != [] && s[0] == '"'
    ensures ParseObject(s) ==
      match ParseMembers(s)
      case None => None
      case Some((ms, rest)) => Some((JObject(ms), rest))
  {
    SkipNothing(s);
  }

  lemma {:induction false} ParseObjectSerialized(ms: seq<Member>, rest: string)
    requires WellFormedMembers(ms)
    ensures ParseValue("{" + SerializeMembers(ms) + "}" + rest) == Some((JObject(ms), rest))
    decreases ms, 3
  {
    var body := SerializeMembers(ms) + "}" + rest;
    OpenBrace(SerializeMembers(ms), rest);
    ParseValueObject("{" + body);
    ParseObjectBody(ms, rest);
  }

  lemma OpenBrace(x: string, rest: string)
    ensures "{" + x + "}" + rest == "{" + (x + "}" + rest)
    ensures ("{" + (x + "}" + rest))[1..] == x + "}" + rest
  {
  }


  lemma {:induction false} ParseObjectBody(ms: seq<Member>, rest: string)
    requires WellFormedMembers(ms)
    ensures ParseObject(SerializeMembers(ms) + "}" + rest) == Some((JObject(ms), rest))
    decreases ms, 2
  {
    var t := SerializeMembers(ms) + "}" + rest;
    if ms == [] {
      assert t == "}" + rest;
      ParseObjectEmpty(rest);
    } else {
      assert t[0] == '"';
      ParseObjectMembers(t);
      ParseMembersSerialized(ms, rest);
    }
  }

  /** After a value, `]` ends the elements. */
  lemma ParseElementsLast(s: string, v: Json, rest: string)
    requires ParseValue(s) == Some((v, "]" + rest))
    ensures ParseElements(s) == Some(([v], rest))
  {
    SkipNothing("]" + rest);
    assert ("]" + rest)[1..] == rest;
  }

  /** After a value, `,` starts the next elements. */
  lemma ParseElementsMore(s: string, v: Json, more: string)
    requires ParseValue(s) == Some((v, "," + more))
    ensures ParseElements(s) ==
      match ParseElements(more)
      case None => None
      case Some((vs, rest)) => Some(([v] + vs, rest))
  {
    SkipNothing("," + more);
    assert ("," + more)[1..] == more;
  }

  lemma {:induction false} ParseElementsSerialized(es: seq<Json>, rest: string)
    requires es != [] && WellFormedElements(es)
    ensures ParseElements(SerializeElements(es) + "]" + rest) == Some((es, rest))
    decreases es, 0
  {
    var s := SerializeElements(es) + "]" + rest;
    if |es| == 1 {
      assert s == Serialize(es[0]) + ("]" + rest);
      ParseValueSerialized(es[0], "]" + rest);
      ParseElementsLast(s, es[0], rest);
      assert [es[0]] == es;
    } else {
      var more := SerializeElements(es[1..]) + "]" + rest;
      assert s == Serialize(es[0]) + ("," + more);
      ParseValueSerialized(es[0], "," + more);
      ParseElementsMore(s, es[0], more);
      ParseElementsSerialized(es[1..], rest);
      assert [es[0]] + es[1..] == es;
    }
  }

  /** A quoted key and `:` are read as the key of a member, and the value is read next. */
  lemma ParseMemberKey(key: string, t: string)
    ensures ParseMembers(Quote(key) + ":" + t) ==
      match ParseValue(t)
      case None => None
      case Some((v, r3)) =>
        var r4 := SkipWhitespace(r3);
        if |r4| > 0 && r4[0] == ',' then
          match ParseMembers(SkipWhitespace(r4[1..]))
          case None => None
          case Some((ms, rest)) => Some(([Member(key, v)] + ms, rest))
        else if |r4| > 0 && r4[0] == '}' then Some(([Member(key, v)], r4[1..]))
        else None
  {
    var s := Quote(key) + ":" + t;
    ParseQuote(key, ":" + t);
    assert s[1..] == EscapeString(key) + "\"" + (":" + t);
    SkipNothing(":" + t);
    assert (":" + t)[1..] == t;
  }

  lemma ParseMemberLast(key: string, t: string, v: Json, rest: string)
    requires ParseValue(t) == Some((v, "}" + rest))
    ensures ParseMembers(Quote(key) + ":" + t) == Some(([Member(key, v)], rest))
  {
    ParseMemberKey(key, t);
    SkipNothing("}" + rest);
    assert ("}" + rest)[1..] == rest;
  }

  lemma ParseMemberMore(key: string, t: string, v: Json, more: string)
    requires ParseValue(t) == Some((v, "," + more))
    requires more != [] && more[0] == '"'
    ensures ParseMembers(Quote(key) + ":" + t) ==
      match ParseMembers(more)
      case None => None
      case Some((ms, rest)) => Some(([Member(key, v)] + ms, rest))
  {
    ParseMemberKey(key, t);
    SkipNothing("," + more);
    assert ("," + more)[1..] == more;
    SkipNothing(more);
  }

  lemma {:induction false} ParseMembersSerialized(ms: seq<Member>, rest: string)
    requires ms != [] && WellFormedMembers(ms)
    ensures ParseMembers(SerializeMembers(ms) + "}" + rest) == Some((ms, rest))
    decreases ms, 1
  {
    if |ms| == 1 {
      ParseLastMember(ms, rest);
    } else {
      ParseNextMembers(ms, rest);
    }
  }

  lemma {:induction false} ParseLastMember(ms: seq<Member>, rest: string)
    requires |ms| == 1 && WellFormedMembers(ms)
    ensures ParseMembers(SerializeMembers(ms) + "}" + rest) == Some((ms, rest))
    decreases ms, 0
  {
    var m := ms[0];
    var t := Serialize(m.value) + ("}" + rest);
    assert SerializeMembers(ms) + "}" + rest == Quote(m.key) + ":" + t;
    ParseValueSerialized(m.value, "}" + rest);
    ParseMemberLast(m.key, t, m.value, rest);
    assert [m] == ms;
  }

  lemma {:induction false} ParseNextMembers(ms: seq<Member>, rest: string)
    requires |ms| > 1 && WellFormedMembers(ms)
    ensures ParseMembers(SerializeMembers(ms) + "}" + rest) == Some((ms, rest))
    decreases ms, 0
  {
    var m := ms[0];
    var more := SerializeMembers(ms[1..]) + "}" + rest;
    var t := Serialize(m.value) + ("," + more);
    SerializeMembersMore(ms, rest);
    assert WellFormed(m.value) && WellFormedMembers(ms[1..]);
    ParseValueSerialized(m.value, "," + more);
    ParseMemberMore(m.key, t, m.value, more);
    ParseMembersSerialized(ms[1..], rest);
    assert [m] + ms[1..] == ms;
  }

  /** The text of two or more members: the first key, its value, a comma, and the others, which start with a quote. */
  lemma SerializeMembersMore(ms: seq<Member>, rest: string)
    requires |ms| > 1
    ensures SerializeMembers(ms) + "}" + rest
         == Quote(ms[0].key) + ":" + (Serialize(ms[0].value) + ("," + (SerializeMembers(ms[1..]) + "}" + rest)))
    ensures var more := SerializeMembers(ms[1..]) + "}" + rest; more != [] && more[0] == '"'
  {
    var a := Quote(ms[0].key);
    var v := Serialize(ms[0].value);
    var x := SerializeMembers(ms[1..]);
    assert SerializeMembers(ms) == a + ":" + v + "," + x;
    RegroupMember(a, v, x, rest);
    MembersStart(ms[1..]);
  }

  lemma RegroupMember(a: string, v: string, x: string, rest: string)
    ensures a + ":" + v + "," + x + "}" + rest == a + ":" + (v + ("," + (x + "}" + rest)))
  {
  }

  /** A non-empty member list is written starting with the quote of its first key. */
  lemma MembersStart(ms: seq<Member>)
    requires ms != []
    ensures SerializeMembers(ms) != [] && SerializeMembers(ms)[0] == '"'
  {
    if |ms| == 1 {
      OneMemberStart(Quote(ms[0].key), Serialize(ms[0].value));
    } else {
      MoreMembersStart(Quote(ms[0].key), Serialize(ms[0].value), SerializeMembers(ms[1..]));
    }
  }

  lemma OneMemberStart(q: string, v: string)
    requires q != [] && q[0] == '"'
    ensures (q + ":" + v)[0] == '"'
  {
  }

  lemma MoreMembersStart(q: string, v: string, x: string)
    requires q != [] && q[0] == '"'
    ensures (q + ":" + v + "," + x)[0] == '"'
  {
  }




  /** `JSON.parse(JSON.stringify(j))` gives back `j` for every well-formed value. */
  lemma ParseSerialize(j: Json)
    requires WellFormed(j)
    ensures Parse(Serialize(j)) == Some(j)
  {
    ParseValueSerialized(j, "");
    assert Serialize(j) + "" == Serialize(j);
  }
}
