/**
 * The `page` query parameter of the listing handler. The handler first asks
 * whether the text contains a decimal digit anywhere; if not, the page is 0.
 * Otherwise the text goes through the JavaScript integer parser with radix
 * 10, which skips leading white space, takes an optional sign and reads the
 * longest run of decimal digits that follows; with no such run the result is
 * NaN.
 */
module PageQuery {
  import opened Basics

  /** A JavaScript number as far as integer parsing can produce one. */
  datatype JsNumber = Num(n: int) | NaN

  predicate IsDigit(c: char) { '0' <= c <= '9' }

  /** The regular-expression test for one or more decimal digits. */
  predicate ContainsDigit(s: string) {
    exists i :: 0 <= i < |s| && IsDigit(s[i])
  }

  /**
   * The characters the integer parser skips at the front of its input: the
   * ECMAScript white-space and line-terminator characters.
   */
  predicate IsJsSpace(c: char) {
    c in {'\U{9}', '\U{A}', '\U{B}', '\U{C}', '\U{D}', '\U{20}', '\U{A0}', '\U{1680}',
          '\U{2028}', '\U{2029}', '\U{202F}', '\U{205F}', '\U{3000}', '\U{FEFF}'}
    || ('\U{2000}' <= c <= '\U{200A}')
  }

  /** The input with its leading white space removed. */
  function TrimStart(s: string): (t: string)
    ensures |t| <= |s| && t == s[|s| - |t|..]
    ensures t == [] || !IsJsSpace(t[0])
    ensures forall i :: 0 <= i < |s| - |t| ==> IsJsSpace(s[i])
  {
    if s != [] && IsJsSpace(s[0]) then TrimStart(s[1..]) else s
  }

  /** The length of the run of decimal digits at the front of `s`. */
  function DigitRun(s: string): (k: nat)
    ensures k <= |s|
    ensures forall i :: 0 <= i < k ==> IsDigit(s[i])
    ensures k == |s| || !IsDigit(s[k])
  {
    if s != [] && IsDigit(s[0]) then 1 + DigitRun(s[1..]) else 0
  }

  /** The number a string of decimal digits denotes. */
  function DecimalValue(s: string): nat
    requires forall i :: 0 <= i < |s| ==> IsDigit(s[i])
  {
    if s == [] then 0
    else
      assert IsDigit(s[|s| - 1]);
      DecimalValue(s[..|s| - 1]) * 10 + (s[|s| - 1] as int - '0' as int)
  }

  /** A text with one leading sign character, if it has one, removed. */
  function Unsigned(t: string): string {
    if t != [] && (t[0] == '-' || t[0] == '+') then t[1..] else t
  }

  /** The longest run of decimal digits at the front of `u`, read as a number; NaN when it is empty. */
  function ParseDigits(u: string): (r: JsNumber)
    ensures r == NaN <==> u == [] || !IsDigit(u[0])
    ensures r.Num? ==> r.n >= 0
  {
    var k := DigitRun(u);
    if k == 0 then NaN else Num(DecimalValue(u[..k]))
  }

  /**
   * The parser after the white space is skipped: an optional sign, then the
   * longest run of decimal digits; NaN when that run is empty.
   */
  function ParseTrimmed(t: string): (r: JsNumber)
    ensures r == NaN <==> (var u := Unsigned(t); u == [] || !IsDigit(u[0]))
    ensures r.Num? ==> ContainsDigit(t)
    ensures r.Num? && r.n < 0 ==> t != [] && t[0] == '-'
  {
    if t != [] && (t[0] == '-' || t[0] == '+') then
      match ParseDigits(t[1..])
      case NaN => NaN
      case Num(v) =>
        assert IsDigit(t[1]);
        Num(if t[0] == '-' then -v else v)
    else
      var r := ParseDigits(t);
      assert r.Num? ==> IsDigit(t[0]);
      r
  }

  /**
   * `Number.parseInt(s, 10)`. The result is NaN exactly when no digit follows
   * the leading white space and the optional sign.
   */
  function ParseInt(s: string): (r: JsNumber)
    ensures r == NaN <==> (var u := Unsigned(TrimStart(s)); u == [] || !IsDigit(u[0]))
    ensures r.Num? ==> ContainsDigit(s)
    ensures r.Num? && r.n < 0 ==> TrimStart(s) != [] && TrimStart(s)[0] == '-'
  {
    var t := TrimStart(s);
    var r := ParseTrimmed(t);
    assert r.Num? ==> ContainsDigit(s) by {
      if r.Num? {
        var i :| 0 <= i < |t| && IsDigit(t[i]);
        assert s[|s| - |t| + i] == t[i];
      }
    }
    r
  }

  /** The page number the listing handler computes from its `page` query value. */
  function ParsePage(q: Option<string>): (r: JsNumber)
    ensures !ContainsDigit(q.GetOr("")) ==> r == Num(0)
  {
    var s := q.GetOr("");
    if ContainsDigit(s) then ParseInt(s) else Num(0)
  }

  /** A text made only of decimal digits parses to the number it denotes. */
  lemma ParsePageOfDigits(s: string)
    requires s != [] && forall i :: 0 <= i < |s| ==> IsDigit(s[i])
    ensures ParsePage(Some(s)) == Num(DecimalValue(s))
  {
    assert ContainsDigit(s) by {
      assert IsDigit(s[0]);
    }
    EmptyAround(s);
    ParseIntOfParts("", "", s, "");
  }

  /** Empty white space, sign and rest around a text leave the text. */
  lemma EmptyAround(s: string)
    ensures "" + "" + s + "" == s
  {
  }

  /** White space in front of a text that does not start with white space is what is trimmed. */
  lemma {:induction false} TrimStartOfSpaces(w: string, x: string)
    requires forall i :: 0 <= i < |w| ==> IsJsSpace(w[i])
    requires x == [] || !IsJsSpace(x[0])
    ensures TrimStart(w + x) == x
  {
    if w != [] {
      assert (w + x)[1..] == w[1..] + x;
      TrimStartOfSpaces(w[1..], x);
    }
  }

  /** The digit run of a run of digits followed by a non-digit is that run. */
  lemma {:induction false} DigitRunOfParts(d: string, rest: string)
    requires forall i :: 0 <= i < |d| ==> IsDigit(d[i])
    requires rest == [] || !IsDigit(rest[0])
    ensures DigitRun(d + rest) == |d|
  {
    if d != [] {
      assert (d + rest)[1..] == d[1..] + rest;
      DigitRunOfParts(d[1..], rest);
    }
  }

  /** A run of digits followed by a non-digit reads as the number the run denotes. */
  lemma ParseDigitsOfParts(d: string, rest: string)
    requires d != [] && forall i :: 0 <= i < |d| ==> IsDigit(d[i])
    requires rest == [] || !IsDigit(rest[0])
    ensures ParseDigits(d + rest) == Num(DecimalValue(d))
  {
    assert IsDigit(d[0]);
    DigitRunOfParts(d, rest);
    assert (d + rest)[..|d|] == d;
  }

  /** Splitting off a one-character sign. */
  lemma AfterSign(sg: string, d: string, rest: string)
    requires |sg| == 1
    ensures (sg + d + rest)[0] == sg[0] && (sg + d + rest)[1..] == d + rest
  {
  }

  /** A leading sign is dropped, and a minus negates what the digits give. */
  lemma ParseSigned(t: string)
    requires t != [] && (t[0] == '-' || t[0] == '+')
    ensures ParseTrimmed(t) ==
              match ParseDigits(t[1..])
              case NaN => NaN
              case Num(v) => Num(if t[0] == '-' then -v else v)
  {
  }

  /** A run of digits after a minus sign reads as its negated value. */
  lemma MinusParts(sg: string, d: string, rest: string)
    requires |sg| == 1 && sg[0] == '-'
    requires d != [] && forall i :: 0 <= i < |d| ==> IsDigit(d[i])
    requires rest == [] || !IsDigit(rest[0])
    ensures ParseTrimmed(sg + d + rest) == Num(-(DecimalValue(d) as int))
  {
    AfterSign(sg, d, rest);
    ParseSigned(sg + d + rest);
    ParseDigitsOfParts(d, rest);
  }

  /** A run of digits after a plus sign reads as its value. */
  lemma PlusParts(sg: string, d: string, rest: string)
    requires |sg| == 1 && sg[0] == '+'
    requires d != [] && forall i :: 0 <= i < |d| ==> IsDigit(d[i])
    requires rest == [] || !IsDigit(rest[0])
    ensures ParseTrimmed(sg + d + rest) == Num(DecimalValue(d))
  {
    AfterSign(sg, d, rest);
    ParseSigned(sg + d + rest);
    ParseDigitsOfParts(d, rest);
  }

  /** The trimmed case of `ParseIntOfParts`. */
  lemma ParseTrimmedOfParts(sg: string, d: string, rest: string)
    requires |sg| <= 1 && (sg != [] ==> sg[0] == '+' || sg[0] == '-')
    requires d != [] && forall i :: 0 <= i < |d| ==> IsDigit(d[i])
    requires rest == [] || !IsDigit(rest[0])
    ensures ParseTrimmed(sg + d + rest) == Num(if sg != [] && sg[0] == '-' then -(DecimalValue(d) as int) else DecimalValue(d))
  {
    if sg == [] {
      assert sg + d + rest == d + rest;
      assert IsDigit((d + rest)[0]);
      ParseDigitsOfParts(d, rest);
    } else if sg[0] == '-' {
      MinusParts(sg, d, rest);
    } else {
      PlusParts(sg, d, rest);
    }
  }

  /**
   * White space, an optional sign, a run of digits and then anything that
   * does not continue the run: the parser reads the signed value of the run
   * and ignores the rest (so " 12abc" is 12 and "-3" is -3).
   */
  lemma ParseIntOfParts(w: string, sg: string, d: string, rest: string)
    requires forall i :: 0 <= i < |w| ==> IsJsSpace(w[i])
    requires |sg| <= 1 && (sg != [] ==> sg[0] == '+' || sg[0] == '-')
    requires d != [] && forall i :: 0 <= i < |d| ==> IsDigit(d[i])
    requires rest == [] || !IsDigit(rest[0])
    ensures ParseInt(w + sg + d + rest) == Num(if sg != [] && sg[0] == '-' then -(DecimalValue(d) as int) else DecimalValue(d))
  {
    var x := sg + d + rest;
    Regroup(w, sg, d, rest);
    assert !IsJsSpace(x[0]) by {
      assert IsDigit(d[0]);
      if sg == [] { assert x[0] == d[0]; } else { AfterSign(sg, d, rest); }
    }
    ParseIntAfterSpaces(w, x);
    ParseTrimmedOfParts(sg, d, rest);
  }

  /** The parts of a text regrouped as white space and what follows it. */
  lemma Regroup(w: string, sg: string, d: string, rest: string)
    ensures w + sg + d + rest == w + (sg + d + rest)
  {
  }

  /** Leading white space does not change what the parser reads. */
  lemma ParseIntAfterSpaces(w: string, x: string)
    requires forall i :: 0 <= i < |w| ==> IsJsSpace(w[i])
    requires x == [] || !IsJsSpace(x[0])
    ensures ParseInt(w + x) == ParseTrimmed(x)
  {
    TrimStartOfSpaces(w, x);
  }
}
