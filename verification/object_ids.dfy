/**
 * Document identifiers. Documents are keyed by ids whose textual form is
 * 24 hexadecimal characters; a request id of any other shape is replaced by
 * the all-zero id before the lookup, so that the lookup fails closed
 * ("not found") instead of raising a format error.
 *
 * Ids are modelled as natural numbers handed out by a counter; `HexId`
 * renders one as its 24-character lower-case form and `Key` reads a request
 * id back, with every malformed id read as the all-zero id.
 */
module ObjectIds {

  /** The length of the textual form of an id. */
  const IdLength: nat := 24

  /** The three character-code ranges an id character may fall in: 0-9, a-f, A-F. */
  const CharRanges: seq<(int, int)> := [(48, 57), (97, 102), (65, 70)]

  predicate IsHexDigit(c: char) {
    ('0' <= c <= '9') || ('a' <= c <= 'f') || ('A' <= c <= 'F')
  }

  predicate AllHex(s: string) {
    forall i :: 0 <= i < |s| ==> IsHexDigit(s[i])
  }

  /** The shape every id must have before it is used as a lookup key. */
  predicate IsValidId(s: string) {
    |s| == IdLength && AllHex(s)
  }

  /** Whether a character code lies in one of `CharRanges`. */
  predicate InCharRanges(code: int) {
    exists k :: 0 <= k < |CharRanges| && CharRanges[k].0 <= code <= CharRanges[k].1
  }

  lemma CharRangesAreHexDigits(c: char)
    ensures InCharRanges(c as int) <==> IsHexDigit(c)
  {
    if IsHexDigit(c) {
      if '0' <= c <= '9' {
        assert CharRanges[0].0 <= c as int <= CharRanges[0].1;
      } else if 'a' <= c <= 'f' {
        assert CharRanges[1].0 <= c as int <= CharRanges[1].1;
      } else {
        assert CharRanges[2].0 <= c as int <= CharRanges[2].1;
      }
    }
  }

  /**
   * The id shape check: the length must be 24, then each character is
   * checked in turn and the first one outside the three ranges rejects.
   */
  method CheckId(id: string) returns (ok: bool)
    ensures ok <==> IsValidId(id)
  {
    if |id| != IdLength {
      return false;
    }
    var i := 0;
    while i < IdLength
      invariant 0 <= i <= IdLength
      invariant forall j :: 0 <= j < i ==> IsHexDigit(id[j])
    {
      var code := id[i] as int;
      CharRangesAreHexDigits(id[i]);
      if !InCharRanges(code) {
        return false;
      }
      i := i + 1;
    }
    return true;
  }

  function Pow16(k: nat): (p: nat)
    ensures p >= 1
  {
    if k == 0 then 1 else 16 * Pow16(k - 1)
  }

  /** How many distinct ids the 24-character form can express. */
  function IdSpace(): nat { Pow16(IdLength) }

  function DigitValue(c: char): (d: nat)
    requires IsHexDigit(c)
    ensures d < 16
  {
    if '0' <= c <= '9' then c as int - '0' as int
    else if 'a' <= c <= 'f' then c as int - 'a' as int + 10
    else c as int - 'A' as int + 10
  }

  /** The lower-case hexadecimal digit for `d`. */
  function HexChar(d: nat): (c: char)
    requires d < 16
    ensures IsHexDigit(c) && DigitValue(c) == d
    ensures !('A' <= c <= 'F')
  {
    if d < 10 then ('0' as int + d) as char else ('a' as int + d - 10) as char
  }

  /** The number a string of hex digits denotes, most significant digit first. */
  function HexValue(s: string): (v: nat)
    requires AllHex(s)
    ensures v < Pow16(|s|)
  {
    if s == [] then 0
    else
      var v' := HexValue(s[..|s| - 1]);
      assert v' * 16 <= (Pow16(|s| - 1) - 1) * 16;
      v' * 16 + DigitValue(s[|s| - 1])
  }

  /** The last `k` hex digits of `n`, most significant first. */
  function Digits(n: nat, k: nat): (s: string)
    ensures |s| == k && AllHex(s)
  {
    if k == 0 then [] else Digits(n / 16, k - 1) + [HexChar(n % 16)]
  }

  /** The textual form of an id. */
  function HexId(n: nat): (s: string)
    ensures IsValidId(s)
    ensures forall i :: 0 <= i < |s| ==> !('A' <= s[i] <= 'F')
  {
    LowerDigits(n, IdLength);
    Digits(n, IdLength)
  }

  lemma {:induction false} LowerDigits(n: nat, k: nat)
    ensures forall i :: 0 <= i < k ==> !('A' <= Digits(n, k)[i] <= 'F')
  {
    if k > 0 {
      LowerDigits(n / 16, k - 1);
      assert Digits(n, k) == Digits(n / 16, k - 1) + [HexChar(n % 16)];
    }
  }

  /** The id that a malformed request id is replaced by. */
  const NullId: string := "000000000000000000000000"

  lemma {:induction false} ZerosValue(s: string)
    requires forall i :: 0 <= i < |s| ==> s[i] == '0'
    ensures AllHex(s) && HexValue(s) == 0
  {
    if s != [] {
      ZerosValue(s[..|s| - 1]);
    }
  }

  lemma NullIdIsZero()
    ensures IsValidId(NullId) && HexValue(NullId) == 0
  {
    ZerosValue(NullId);
  }

  /**
   * The lookup key of a request id: its value when it has the id shape,
   * otherwise the value of the all-zero id.
   */
  function Key(id: string): (k: nat)
    ensures k < IdSpace()
    ensures !IsValidId(id) ==> k == 0
  {
    NullIdIsZero();
    HexValue(if IsValidId(id) then id else NullId)
  }

  lemma MulAtLeast(d: int, t: int)
    requires d > 0 && t >= 1
    ensures d * t >= d
  {
    assert d * t == d * (t - 1) + d;
  }

  lemma ModUnique(n: int, d: int, a: int, m: int)
    requires d > 0 && 0 <= m < d && n == d * a + m
    ensures n % d == m && n / d == a
  {
    var a', m' := n / d, n % d;
    assert d * (a - a') == m' - m;
    if a - a' >= 1 {
      MulAtLeast(d, a - a');
    } else if a' - a >= 1 {
      MulAtLeast(d, a' - a);
    }
  }

  lemma ModSplit(n: nat, p: nat)
    requires p > 0
    ensures (n / 16) % p * 16 + n % 16 == n % (16 * p)
  {
    var q, r := n / 16, n % 16;
    var a, b := q / p, q % p;
    assert n == 16 * q + r;
    assert q == p * a + b;
    assert n == (16 * p) * a + (16 * b + r) by {
      assert 16 * q == 16 * (p * a) + 16 * b;
    }
    assert 16 * b + r < 16 * p by {
      assert b <= p - 1;
      assert 16 * b <= 16 * p - 16;
    }
    ModUnique(n, 16 * p, a, 16 * b + r);
  }

  /** Reading back the last `k` digits of `n` gives `n` modulo 16^k. */
  lemma {:induction false} DigitsValue(n: nat, k: nat)
    ensures HexValue(Digits(n, k)) == n % Pow16(k)
  {
    if k > 0 {
      var s := Digits(n, k);
      assert s[..k - 1] == Digits(n / 16, k - 1);
      assert s[k - 1] == HexChar(n % 16);
      DigitsValue(n / 16, k - 1);
      ModSplit(n, Pow16(k - 1));
    }
  }

  /** Rendering an id and reading it back gives the same id. */
  lemma KeyOfHexId(n: nat)
    requires n < IdSpace()
    ensures Key(HexId(n)) == n
  {
    var s := HexId(n);
    assert IsValidId(s);
    DigitsValue(n, IdLength);
    ModUnique(n, Pow16(IdLength), 0, n);
  }

  /** Distinct ids have distinct textual forms. */
  lemma HexIdInjective(m: nat, n: nat)
    requires m < IdSpace() && n < IdSpace() && m != n
    ensures HexId(m) != HexId(n)
  {
    KeyOfHexId(m);
    KeyOfHexId(n);
  }
}
