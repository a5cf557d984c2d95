/** `datetime.strptime(text, '... %d %B %Y\n')` in the C locale, for the part of the
    leap-second marker line that follows its literal prefix.  Python turns every run of
    whitespace in the format into `\s+`, matches case-insensitively and requires the
    match to cover the whole text; the fields are then checked by `date(y, m, d)`. */
module Strptime {
  import opened Outcomes
  import opened Text
  import opened Calendar

  /** Python's `\s` on an ASCII `str`: tab, newline, vertical tab, form feed, carriage
      return, the four separators 0x1c..0x1f and the space. */
  predicate IsRegexSpace(c: char) {
    (9 <= c as int <= 13) || (28 <= c as int <= 32)
  }

  const MonthNames: seq<string> := ["January", "February", "March", "April", "May", "June",
    "July", "August", "September", "October", "November", "December"]

  function MonthName(m: int): string
    requires 1 <= m <= 12
  {
    MonthNames[m - 1]
  }

  /** `%d`, whose pattern is `3[01]|[12]\d|0[1-9]|[1-9]| [1-9]`: one or two digits, a
      leading zero allowed, a value in 1..31.  (The alternative with a leading space adds
      nothing once the preceding `\s+` has taken all the whitespace.) */
  function ParseDay(t: string): (r: Option<int>)
    ensures r.Some? ==> 1 <= r.value <= 31
  {
    if |t| == 1 && '1' <= t[0] <= '9' then
      Some(DigitValue(t[0]))
    else if |t| == 2 && IsDigit(t[1]) &&
            ((t[0] == '3' && t[1] <= '1') || t[0] == '1' || t[0] == '2' || (t[0] == '0' && t[1] != '0')) then
      Some(10 * DigitValue(t[0]) + DigitValue(t[1]))
    else
      None
  }

  function FindMonth(t: string, m: int): (r: Option<int>)
    requires 1 <= m <= 13
    ensures r.Some? ==> m <= r.value <= 12 && SameIgnoringCase(t, MonthName(r.value))
    ensures r.None? ==> forall j :: m <= j <= 12 ==> !SameIgnoringCase(t, MonthName(j))
    decreases 13 - m
  {
    if m == 13 then None
    else if SameIgnoringCase(t, MonthName(m)) then Some(m)
    else FindMonth(t, m + 1)
  }

  /** `%B`: a full English month name in any letter case. */
  function ParseMonth(t: string): (r: Option<int>)
    ensures r.Some? ==> 1 <= r.value <= 12 && SameIgnoringCase(t, MonthName(r.value))
    ensures r.None? ==> forall j :: 1 <= j <= 12 ==> !SameIgnoringCase(t, MonthName(j))
  {
    FindMonth(t, 1)
  }

  /** `%Y`: exactly four digits. */
  function ParseYear(t: string): (r: Option<int>)
    ensures r.Some? ==> 0 <= r.value <= 9999
  {
    if |t| == 4 && AllDigits(t) then
      Some(DigitValue(t[0]) * 1000 + DigitValue(t[1]) * 100 + DigitValue(t[2]) * 10 + DigitValue(t[3]))
    else
      None
  }

  /** The match of `\s+%d\s+%B\s+%Y\s+` against the whole of `rest`, then `date(y, m, d)`. */
  function ParseDayMonthYear(rest: string): (r: Result<Date>)
    ensures r.Ok? ==> Valid(r.value)
    ensures r.Err? ==> r.error == ValueError
    ensures |rest| == 0 || !IsRegexSpace(rest[|rest| - 1]) ==> r == Err(ValueError)
  {
    var ws := Words(rest, IsRegexSpace);
    if |rest| == 0 || !IsRegexSpace(rest[0]) || !IsRegexSpace(rest[|rest| - 1]) || |ws| != 3 then
      Err(ValueError)
    else
      match (ParseDay(ws[0]), ParseMonth(ws[1]), ParseYear(ws[2]))
      case (Some(d), Some(m), Some(y)) => MakeDate(y, m, d)
      case _ => Err(ValueError)
  }

  /** The day as the file prints it, without a leading zero. */
  function DayText(d: int): string
    requires 1 <= d <= 31
  {
    NatDigits(d)
  }

  /** The year as `%04d` prints it. */
  function YearText(y: int): string
    requires 0 <= y <= 9999
  {
    [DigitChar(y / 1000), DigitChar(y / 100 % 10), DigitChar(y / 10 % 10), DigitChar(y % 10)]
  }

  /** The text after the marker prefix for date `d`: ` 1 July 2020\n`. */
  function DateText(d: Date): string
    requires Valid(d)
  {
    " " + (DayText(d.day) + (" " + (MonthName(d.month) + (" " + (YearText(d.year) + "\n")))))
  }

  lemma ParseDayText(d: int)
    requires 1 <= d <= 31
    ensures ParseDay(DayText(d)) == Some(d)
  {
    if d >= 10 {
      assert NatDigits(d / 10) == [DigitChar(d / 10)];
    }
  }

  /** The first three letters of a month name, lower-cased, as one number. */
  function MonthKey(m: int): int
    requires 1 <= m <= 12
  {
    var n := MonthName(m);
    (LowerChar(n[0]) as int) * 65536 + (LowerChar(n[1]) as int) * 256 + LowerChar(n[2]) as int
  }

  const MonthKeyTable: seq<int> := [6971758, 6710626, 7168370, 6385778, 7168377, 6976878,
    6976876, 6387047, 7562608, 7299956, 7237494, 6579555]

  lemma MonthKeyValue(m: int)
    requires 1 <= m <= 12
    ensures MonthKey(m) == MonthKeyTable[m - 1]
  {
    var n := MonthName(m);
    assert n == MonthNames[m - 1];
  }

  lemma MonthKeys()
    ensures forall j, m :: 1 <= j < m <= 12 ==> MonthKey(j) != MonthKey(m)
  {
    forall j, m | 1 <= j < m <= 12 ensures MonthKey(j) != MonthKey(m) {
      MonthKeyValue(j);
      MonthKeyValue(m);
    }
  }

  lemma SameNameSameKey(j: int, m: int)
    requires 1 <= j <= 12 && 1 <= m <= 12
    requires SameIgnoringCase(MonthName(j), MonthName(m))
    ensures MonthKey(j) == MonthKey(m)
  {
    var a, b := MonthName(j), MonthName(m);
    assert LowerChar(a[0]) == LowerChar(b[0]);
    assert LowerChar(a[1]) == LowerChar(b[1]);
    assert LowerChar(a[2]) == LowerChar(b[2]);
  }

  lemma ParseMonthName(m: int)
    requires 1 <= m <= 12
    ensures ParseMonth(MonthName(m)) == Some(m)
  {
    assert SameIgnoringCase(MonthName(m), MonthName(m));
    var j := ParseMonth(MonthName(m)).value;
    SameNameSameKey(m, j);
    MonthKeys();
  }

  /** The four decimal digits of a year recombine to the year. */
  lemma FourDigits(y: int)
    requires 0 <= y <= 9999
    ensures y / 1000 * 1000 + y / 100 % 10 * 100 + y / 10 % 10 * 10 + y % 10 == y
  {
    var a, b, c := y / 10, y / 100, y / 1000;
    assert y == 10 * a + y % 10;
    assert a == 10 * (a / 10) + a % 10;
    assert a / 10 == b;
    assert b == 10 * (b / 10) + b % 10;
    assert b / 10 == c;
  }

  lemma ParseYearText(y: int)
    requires 0 <= y <= 9999
    ensures ParseYear(YearText(y)) == Some(y)
  {
    var t := YearText(y);
    assert DigitValue(t[0]) == y / 1000 && DigitValue(t[1]) == y / 100 % 10;
    assert DigitValue(t[2]) == y / 10 % 10 && DigitValue(t[3]) == y % 10;
    FourDigits(y);
  }

  /** The three printed fields contain no whitespace. */
  lemma DateFieldsAreWords(d: Date)
    requires Valid(d)
    ensures IsWord(DayText(d.day), IsRegexSpace)
    ensures IsWord(MonthName(d.month), IsRegexSpace)
    ensures IsWord(YearText(d.year), IsRegexSpace)
  {
    var n := MonthName(d.month);
    assert n == MonthNames[d.month - 1];
  }

  /** Three words, each preceded by whitespace and the last followed by it. */
  lemma WordsOfThreeWords(a: string, b: string, c: string, s0: string, s1: string, s2: string, s3: string)
    requires IsWord(a, IsRegexSpace) && IsWord(b, IsRegexSpace) && IsWord(c, IsRegexSpace)
    requires AllSpace(s0, IsRegexSpace) && AllSpace(s1, IsRegexSpace) && |s1| > 0
    requires AllSpace(s2, IsRegexSpace) && |s2| > 0 && AllSpace(s3, IsRegexSpace) && |s3| > 0
    ensures Words(s0 + (a + (s1 + (b + (s2 + (c + s3))))), IsRegexSpace) == [a, b, c]
  {
    WordsOfWord(c, s3, IsRegexSpace);
    WordsConsRight(b, s2, c + s3, IsRegexSpace);
    WordsConsRight(a, s1, b + (s2 + (c + s3)), IsRegexSpace);
    WordsAppend(s0, a + (s1 + (b + (s2 + (c + s3)))), IsRegexSpace);
    WordsOfSpace(s0, IsRegexSpace);
  }

  lemma WordsOfDateText(d: Date)
    requires Valid(d)
    ensures Words(DateText(d), IsRegexSpace) == [DayText(d.day), MonthName(d.month), YearText(d.year)]
  {
    var dt, mt, yt := DayText(d.day), MonthName(d.month), YearText(d.year);
    DateFieldsAreWords(d);
    WordsOfThreeWords(dt, mt, yt, " ", " ", " ", "\n");
  }

  /** `strptime` reads back exactly the date the marker line printed. */
  lemma DateTextRoundTrip(d: Date)
    requires Valid(d)
    ensures ParseDayMonthYear(DateText(d)) == Ok(d)
  {
    WordsOfDateText(d);
    ParseDayText(d.day);
    ParseMonthName(d.month);
    ParseYearText(d.year);
    var s := DateText(d);
    assert s[0] == ' ' && s[|s| - 1] == '\n';
  }
}
