/** Byte-string helpers the extractors use: `bytes.split()`, `startswith`, `int()` and
    `float()` on a field.  A line is a string holding one character per byte. */
module Text {
  import opened Outcomes

  /** The bytes `bytes.split()` and `bytes.strip()` treat as whitespace. */
  predicate IsByteSpace(c: char) {
    c == ' ' || c == '\t' || c == '\n' || c == '\r' || c as int == 0x0b || c as int == 0x0c
  }

  /** A field of a split: non-empty and free of the separator characters. */
  predicate IsWord(w: string, space: char -> bool) {
    |w| > 0 && forall i :: 0 <= i < |w| ==> !space(w[i])
  }

  predicate AllSpace(s: string, space: char -> bool) {
    forall i :: 0 <= i < |s| ==> space(s[i])
  }

  /** The index of the first separator at or after `i`, or `|s|` if there is none. */
  function WordEnd(s: string, i: nat, space: char -> bool): (j: nat)
    requires i <= |s|
    ensures i <= j <= |s|
    ensures forall t :: i <= t < j ==> !space(s[t])
    ensures j < |s| ==> space(s[j])
    decreases |s| - i
  {
    if i == |s| || space(s[i]) then i else WordEnd(s, i + 1, space)
  }

  /** The maximal runs of non-separator characters of `s`, in order: `s.split()` when
      `space` is `IsByteSpace`.  Leading and trailing whitespace yields no field, so
      `s.strip().split()` is the same list. */
  function Words(s: string, space: char -> bool): (ws: seq<string>)
    ensures forall k :: 0 <= k < |ws| ==> IsWord(ws[k], space)
    decreases |s|
  {
    if s == [] then []
    else if space(s[0]) then Words(s[1..], space)
    else
      var k := WordEnd(s, 0, space);
      [s[..k]] + Words(s[k..], space)
  }

  /** Splitting after a separator splits the two halves independently. */
  lemma {:induction false} WordsAppend(a: string, b: string, space: char -> bool)
    requires a == [] || space(a[|a| - 1])
    ensures Words(a + b, space) == Words(a, space) + Words(b, space)
    decreases |a|
  {
    if a == [] {
      assert a + b == b;
    } else if space(a[0]) {
      assert (a + b)[1..] == a[1..] + b;
      WordsAppend(a[1..], b, space);
    } else {
      var k := WordEnd(a, 0, space);
      var k' := WordEnd(a + b, 0, space);
      assert k < |a|;
      assert (a + b)[k] == a[k];
      assert k' == k;
      assert (a + b)[..k] == a[..k];
      assert (a + b)[k..] == a[k..] + b;
      WordsAppend(a[k..], b, space);
    }
  }

  lemma {:induction false} WordsOfSpace(g: string, space: char -> bool)
    requires AllSpace(g, space)
    ensures Words(g, space) == []
    decreases |g|
  {
    if g != [] {
      WordsOfSpace(g[1..], space);
    }
  }

  /** A word followed by a run of separators is one field. */
  lemma WordsOfWord(w: string, g: string, space: char -> bool)
    requires IsWord(w, space) && AllSpace(g, space) && |g| > 0
    ensures Words(w + g, space) == [w]
  {
    var s := w + g;
    assert s[|w|] == g[0];
    var k := WordEnd(s, 0, space);
    assert k == |w|;
    assert s[..k] == w;
    assert s[k..] == g;
    WordsOfSpace(g, space);
  }

  /** A word, a run of separators, then anything: the word is the first field. */
  lemma WordsCons(w: string, g: string, s: string, space: char -> bool)
    requires IsWord(w, space) && AllSpace(g, space) && |g| > 0
    ensures Words(w + g + s, space) == [w] + Words(s, space)
  {
    assert (w + g + s) == (w + g) + s;
    assert (w + g)[|w + g| - 1] == g[|g| - 1];
    WordsAppend(w + g, s, space);
    WordsOfWord(w, g, space);
  }

  lemma WordsConsRight(w: string, g: string, s: string, space: char -> bool)
    requires IsWord(w, space) && AllSpace(g, space) && |g| > 0
    ensures Words(w + (g + s), space) == [w] + Words(s, space)
  {
    assert w + (g + s) == w + g + s;
    WordsCons(w, g, s, space);
  }

  /** Leading separators yield no field. */
  lemma WordsAfterSpace(lead: string, s: string, space: char -> bool)
    requires AllSpace(lead, space)
    ensures Words(lead + s, space) == Words(s, space)
  {
    if lead == [] {
      assert lead + s == s;
    } else {
      WordsAppend(lead, s, space);
      WordsOfSpace(lead, space);
    }
  }

  /** A non-empty run of the whitespace `bytes.split()` skips. */
  predicate IsGap(g: string) {
    |g| > 0 && AllSpace(g, IsByteSpace)
  }

  /** `s.startswith(p)` */
  predicate StartsWith(s: string, p: string) {
    |p| <= |s| && s[..|p|] == p
  }

  predicate IsDigit(c: char) {
    '0' <= c <= '9'
  }

  predicate AllDigits(s: string) {
    forall i :: 0 <= i < |s| ==> IsDigit(s[i])
  }

  function DigitValue(c: char): (n: nat)
    requires IsDigit(c)
    ensures n < 10
  {
    (c as int) - ('0' as int)
  }

  function DigitChar(n: nat): (c: char)
    requires n < 10
    ensures IsDigit(c) && DigitValue(c) == n
  {
    (('0' as int) + n) as char
  }

  /** The value of a string of decimal digits, most significant first. */
  function DigitsValue(s: string): nat
    requires AllDigits(s)
    decreases |s|
  {
    if s == [] then 0 else DigitsValue(s[..|s| - 1]) * 10 + DigitValue(s[|s| - 1])
  }

  /** The shortest decimal spelling of `n`. */
  function NatDigits(n: nat): (s: string)
    ensures |s| > 0 && AllDigits(s)
    decreases n
  {
    if n < 10 then [DigitChar(n)] else NatDigits(n / 10) + [DigitChar(n % 10)]
  }

  lemma {:induction false} NatDigitsValue(n: nat)
    ensures DigitsValue(NatDigits(n)) == n
    decreases n
  {
    if n >= 10 {
      var s := NatDigits(n);
      assert s[..|s| - 1] == NatDigits(n / 10);
      NatDigitsValue(n / 10);
    }
  }

  /** `str(n)` for an integer. */
  function IntText(n: int): string {
    if n < 0 then "-" + NatDigits(-n) else NatDigits(n)
  }

  /** `int(field)` for a whitespace-free field: an optional sign and at least one
      ASCII digit, otherwise ValueError. */
  function ParseInt(s: string): (r: Result<int>)
    ensures r.Err? ==> r.error == ValueError
    ensures r.Ok? ==> |s| > 0 && (IsDigit(s[0]) || s[0] == '-' || s[0] == '+')
  {
    if |s| > 1 && (s[0] == '-' || s[0] == '+') && AllDigits(s[1..]) then
      var v: int := DigitsValue(s[1..]);
      Ok(if s[0] == '-' then -v else v)
    else if |s| > 0 && AllDigits(s) then
      Ok(DigitsValue(s))
    else
      Err(ValueError)
  }

  /** `str(n)` is a single field: a sign and digits, none of them whitespace. */
  lemma IntTextIsWord(n: int)
    ensures IsWord(IntText(n), IsByteSpace)
  {
    var s, ds := IntText(n), NatDigits(if n < 0 then -n else n);
    forall i | 0 <= i < |s|
      ensures !IsByteSpace(s[i])
    {
      if n < 0 && i > 0 {
        assert s[i] == ds[i - 1];
      }
    }
  }

  /** `int(str(n)) == n` */
  lemma ParseIntText(n: int)
    ensures IsWord(IntText(n), IsByteSpace)
    ensures ParseInt(IntText(n)) == Ok(n)
  {
    IntTextIsWord(n);
    var s := IntText(n);
    if n < 0 {
      assert s[0] == '-' && s[1..] == NatDigits(-n);
      NatDigitsValue(-n);
    } else {
      assert IsDigit(s[0]);
      NatDigitsValue(n);
    }
  }

  /** An exact decimal number `mantissa / 10^scale`. */
  datatype Decimal = Decimal(mantissa: int, scale: nat)

  function Pow10(k: nat): (p: nat)
    ensures p >= 1
  {
    if k == 0 then 1 else 10 * Pow10(k - 1)
  }

  /** The index of the first '.' in `s`, or `|s|`. */
  function PointIndex(s: string): (i: nat)
    ensures i <= |s|
    ensures i < |s| ==> s[i] == '.'
    ensures forall t :: 0 <= t < i ==> s[t] != '.'
  {
    if s == [] then 0
    else if s[0] == '.' then 0
    else 1 + PointIndex(s[1..])
  }

  /** The unsigned part of a decimal literal: digits, optionally with one point, at
      least one digit in all. */
  function ParseUnsignedDecimal(s: string): Result<Decimal> {
    var i := PointIndex(s);
    if i == |s| then
      if |s| > 0 && AllDigits(s) then Ok(Decimal(DigitsValue(s), 0)) else Err(ValueError)
    else
      var whole, frac := s[..i], s[i + 1..];
      if AllDigits(whole) && AllDigits(frac) && |whole| + |frac| > 0 then
        Ok(Decimal(DigitsValue(whole + frac), |frac|))
      else
        Err(ValueError)
  }

  /** `float(field)` for a whitespace-free field, kept exact: an optional sign, then
      digits with at most one decimal point. */
  function ParseDecimal(s: string): (r: Result<Decimal>)
    ensures r.Err? ==> r.error == ValueError
  {
    if |s| > 0 && (s[0] == '-' || s[0] == '+') then
      var u :- ParseUnsignedDecimal(s[1..]);
      Ok(if s[0] == '-' then Decimal(-u.mantissa, u.scale) else u)
    else
      ParseUnsignedDecimal(s)
  }

  function Zeros(n: nat): (s: string)
    ensures |s| == n && AllDigits(s)
  {
    if n == 0 then [] else "0" + Zeros(n - 1)
  }

  /** The digits of `m`, zero-padded on the left to more than `scale` of them. */
  function PaddedDigits(m: nat, scale: nat): (s: string)
    ensures |s| > scale && AllDigits(s)
  {
    var ds := NatDigits(m);
    if |ds| <= scale then Zeros(scale + 1 - |ds|) + ds else ds
  }

  /** The text of a non-negative decimal with exactly `scale` digits after the point
      and at least one before it, as `'%.*f' % (scale, value)` prints it. */
  function DecimalText(m: nat, scale: nat): string {
    var padded := PaddedDigits(m, scale);
    var k := |padded| - scale;
    padded[..k] + "." + padded[k..]
  }

  lemma PaddedDigitsValue(m: nat, scale: nat)
    ensures DigitsValue(PaddedDigits(m, scale)) == m
  {
    var ds := NatDigits(m);
    NatDigitsValue(m);
    if |ds| <= scale {
      var z := Zeros(scale + 1 - |ds|);
      assert PaddedDigits(m, scale) == z + ds;
      LeadingZerosValue(scale + 1 - |ds|, ds);
    } else {
      assert PaddedDigits(m, scale) == ds;
    }
  }

  lemma {:induction false} LeadingZerosValue(n: nat, s: string)
    requires AllDigits(s)
    ensures DigitsValue(Zeros(n) + s) == DigitsValue(s)
    decreases |s|
  {
    if s == [] {
      assert Zeros(n) + s == Zeros(n);
      ZerosValue(n);
    } else {
      var t := Zeros(n) + s;
      assert t[..|t| - 1] == Zeros(n) + s[..|s| - 1];
      LeadingZerosValue(n, s[..|s| - 1]);
    }
  }

  lemma {:induction false} ZerosValue(n: nat)
    ensures DigitsValue(Zeros(n)) == 0
    decreases n
  {
    if n > 0 {
      var z := Zeros(n);
      assert z[..|z| - 1] == Zeros(n - 1) by {
        assert z == "0" + Zeros(n - 1);
        if n > 1 {
          ZerosSnoc(n - 1);
        }
      }
      ZerosValue(n - 1);
    }
  }

  lemma {:induction false} ZerosSnoc(n: nat)
    requires n > 0
    ensures Zeros(n) == Zeros(n - 1) + "0"
    decreases n
  {
    if n > 1 {
      ZerosSnoc(n - 1);
    }
  }

  /** A digit string with one point in it parses to the value of its digits, scaled by
      the number after the point. */
  lemma ParsePointed(whole: string, frac: string)
    requires AllDigits(whole) && AllDigits(frac) && |whole| > 0
    ensures ParseDecimal(whole + "." + frac) == Ok(Decimal(DigitsValue(whole + frac), |frac|))
  {
    var s := whole + "." + frac;
    var k := |whole|;
    assert s[k] == '.';
    forall t | 0 <= t < k ensures s[t] != '.' {
      assert s[t] == whole[t];
    }
    PointIndexIs(s, k);
    assert s[..k] == whole;
    assert s[k + 1..] == frac;
  }

  /** Digits around one point contain no whitespace. */
  lemma PointedIsWord(whole: string, frac: string)
    requires AllDigits(whole) && AllDigits(frac) && |whole| > 0
    ensures IsWord(whole + "." + frac, IsByteSpace)
  {
    var s, k := whole + "." + frac, |whole|;
    forall i | 0 <= i < |s| ensures !IsByteSpace(s[i]) {
      if i < k {
        assert s[i] == whole[i];
      } else if i > k {
        assert s[i] == frac[i - k - 1];
      }
    }
  }

  /** `float(text)` recovers the decimal that `DecimalText` printed. */
  lemma DecimalTextRoundTrip(m: nat, scale: nat)
    ensures IsWord(DecimalText(m, scale), IsByteSpace)
    ensures ParseDecimal(DecimalText(m, scale)) == Ok(Decimal(m, scale))
  {
    var padded := PaddedDigits(m, scale);
    var k := |padded| - scale;
    DigitsSplit(padded, k);
    ParsePointed(padded[..k], padded[k..]);
    PointedIsWord(padded[..k], padded[k..]);
    PaddedDigitsValue(m, scale);
  }

  lemma DigitsSplit(s: string, k: nat)
    requires AllDigits(s) && 0 < k <= |s|
    ensures AllDigits(s[..k]) && AllDigits(s[k..]) && |s[..k]| > 0
    ensures s[..k] + s[k..] == s
  {
    assert forall i :: 0 <= i < |s| - k ==> s[k..][i] == s[k + i];
  }

  lemma {:induction false} PointIndexIs(s: string, k: nat)
    requires k < |s| && s[k] == '.'
    requires forall t :: 0 <= t < k ==> s[t] != '.'
    ensures PointIndex(s) == k
    decreases k
  {
    if k > 0 {
      PointIndexIs(s[1..], k - 1);
    }
  }

  /** `int(x)` on a decimal: truncation toward zero. */
  function Trunc(x: Decimal): int {
    var p := Pow10(x.scale);
    if x.mantissa >= 0 then x.mantissa / p else -((-x.mantissa) / p)
  }

  /** `x * 12` */
  function Times12(x: Decimal): Decimal {
    Decimal(12 * x.mantissa, x.scale)
  }

  /** ASCII lower-casing of one character. */
  function LowerChar(c: char): char {
    if 'A' <= c <= 'Z' then ((c as int) + 32) as char else c
  }

  /** Equality up to ASCII letter case, as a case-insensitive regular expression
      compares literal text. */
  predicate SameIgnoringCase(a: string, b: string) {
    |a| == |b| && forall i :: 0 <= i < |a| ==> LowerChar(a[i]) == LowerChar(b[i])
  }
}
