/** download.py: the three expiration extractors, the per-file refresh decision of
    `check_should_i_download`, and the loop of `main` over the tracked files.  A file's
    content is given as the lines `readlines()` yields; the file system, the clock and
    the network are parameters. */
module Download {
  import opened Outcomes
  import opened Calendar
  import opened Text
  import opened Strptime

  // ---------------------------------------------------------------------------
  // deltat.data

  /** The expiration one row of `deltat.data` encodes: its first three fields read as
      year, month and day, one year later.  Too few fields, a field `int()` rejects and
      an impossible date all raise ValueError; a number beyond a C int raises
      OverflowError in `date()`. */
  function RowExpiration(line: string): (r: Result<Date>)
    ensures r.Ok? ==> Valid(r.value)
    ensures r.Err? ==> r.error == ValueError || r.error == OverflowError
  {
    var fields := Words(line, IsByteSpace);
    if |fields| < 3 then
      Err(ValueError)
    else
      var year :- ParseInt(fields[0]);
      var month :- ParseInt(fields[1]);
      var day :- ParseInt(fields[2]);
      MakeDate(year + 1, month, day)
  }

  /** `deltat_data_expiration`: only the last line counts; no line (or an empty one)
      gives `None`. */
  function DeltatDataExpiration(lines: seq<string>): (r: Result<Option<Date>>)
    ensures lines == [] ==> r == Ok(None)
    ensures r.Ok? && r.value.Some? ==> Valid(r.value.value)
    ensures r.Err? ==> r.error == ValueError || r.error == OverflowError
  {
    if lines == [] || lines[|lines| - 1] == [] then
      Ok(None)
    else
      var d :- RowExpiration(lines[|lines| - 1]);
      Ok(Some(d))
  }

  /** The loop of `deltat_data_expiration`, which overwrites `line` on every iteration
      so that the last line is left in it. */
  method DeltatDataExpirationScan(lines: seq<string>) returns (r: Result<Option<Date>>)
    ensures r == DeltatDataExpiration(lines)
  {
    var line: Option<string> := None;
    for i := 0 to |lines|
      invariant line == if i == 0 then None else Some(lines[i - 1])
    {
      line := Some(lines[i]);
    }
    if line.None? || line.value == [] {
      return Ok(None);
    }
    var d := RowExpiration(line.value);
    if d.Err? {
      return Err(d.error);
    }
    r := Ok(Some(d.value));
  }

  /** A `deltat.data` row: optional leading whitespace `lead`, then year, month and
      day, each followed by its own gap of whitespace, then anything (the Delta T
      value). */
  function DataRow(lead: string, y: int, m: int, d: int, g1: string, g2: string, g3: string, rest: string): string {
    lead + (IntText(y) + (g1 + (IntText(m) + (g2 + (IntText(d) + (g3 + rest))))))
  }

  lemma WordsOfDataRow(lead: string, y: int, m: int, d: int, g1: string, g2: string, g3: string, rest: string)
    requires AllSpace(lead, IsByteSpace) && IsGap(g1) && IsGap(g2) && IsGap(g3)
    ensures Words(DataRow(lead, y, m, d, g1, g2, g3, rest), IsByteSpace) ==
            [IntText(y), IntText(m), IntText(d)] + Words(rest, IsByteSpace)
  {
    IntTextIsWord(y);
    IntTextIsWord(m);
    IntTextIsWord(d);
    WordsOfThreeFields(lead, IntText(y), IntText(m), IntText(d), g1, g2, g3, rest, IsByteSpace);
  }

  lemma WordsOfThreeFields(lead: string, a: string, b: string, c: string, g1: string, g2: string, g3: string,
                           rest: string, space: char -> bool)
    requires IsWord(a, space) && IsWord(b, space) && IsWord(c, space)
    requires AllSpace(lead, space)
    requires AllSpace(g1, space) && |g1| > 0 && AllSpace(g2, space) && |g2| > 0 && AllSpace(g3, space) && |g3| > 0
    ensures Words(lead + (a + (g1 + (b + (g2 + (c + (g3 + rest)))))), space) == [a, b, c] + Words(rest, space)
  {
    WordsConsRight(c, g3, rest, space);
    WordsConsRight(b, g2, c + (g3 + rest), space);
    WordsConsRight(a, g1, b + (g2 + (c + (g3 + rest))), space);
    WordsAfterSpace(lead, a + (g1 + (b + (g2 + (c + (g3 + rest))))), space);
  }

  /** A data row's expiration is its date one year later, whatever follows the day. */
  lemma RowExpirationOfDataRow(lead: string, y: int, m: int, d: int, g1: string, g2: string, g3: string, rest: string)
    requires AllSpace(lead, IsByteSpace) && IsGap(g1) && IsGap(g2) && IsGap(g3)
    ensures RowExpiration(DataRow(lead, y, m, d, g1, g2, g3, rest)) == MakeDate(y + 1, m, d)
  {
    WordsOfDataRow(lead, y, m, d, g1, g2, g3, rest);
    ParseIntText(y);
    ParseIntText(m);
    ParseIntText(d);
  }

  /** Whatever precedes the last row, however its fields are spaced and whatever
      follows its third field, the result is (Y+1, M, D), or ValueError when that is
      not a date, or OverflowError when Y+1, M or D does not fit a C int. */
  lemma DeltatDataLastRow(earlier: seq<string>, lead: string, y: int, m: int, d: int,
                          g1: string, g2: string, g3: string, rest: string)
    requires AllSpace(lead, IsByteSpace) && IsGap(g1) && IsGap(g2) && IsGap(g3)
    ensures DeltatDataExpiration(earlier + [DataRow(lead, y, m, d, g1, g2, g3, rest)]) ==
            if Valid(Date(y + 1, m, d)) then Ok(Some(Date(y + 1, m, d)))
            else if FitsCInt(y + 1) && FitsCInt(m) && FitsCInt(d) then Err(ValueError)
            else Err(OverflowError)
  {
    var row := DataRow(lead, y, m, d, g1, g2, g3, rest);
    RowExpirationOfDataRow(lead, y, m, d, g1, g2, g3, rest);
    var lines := earlier + [row];
    assert lines[|lines| - 1] == row;
    assert |row| >= |g1| > 0;
  }

  /** A last row dated February 29 of a year before a common year raises ValueError,
      or OverflowError when that year does not fit a C int. */
  lemma DeltatDataLeapDayRow(earlier: seq<string>, lead: string, y: int, g1: string, g2: string, g3: string, rest: string)
    requires AllSpace(lead, IsByteSpace) && IsGap(g1) && IsGap(g2) && IsGap(g3)
    requires !IsLeapYear(y + 1)
    ensures DeltatDataExpiration(earlier + [DataRow(lead, y, 2, 29, g1, g2, g3, rest)])
            == Err(if FitsCInt(y + 1) then ValueError else OverflowError)
  {
    DeltatDataLastRow(earlier, lead, y, 2, 29, g1, g2, g3, rest);
  }

  /** A last row whose year is the largest C int: `date(2147483648, 1, 1)` raises
      OverflowError, not ValueError. */
  lemma DeltatDataOverflowRow(earlier: seq<string>, lead: string, g1: string, g2: string, g3: string, rest: string)
    requires AllSpace(lead, IsByteSpace) && IsGap(g1) && IsGap(g2) && IsGap(g3)
    ensures DeltatDataExpiration(earlier + [DataRow(lead, IntMax, 1, 1, g1, g2, g3, rest)]) == Err(OverflowError)
  {
    DeltatDataLastRow(earlier, lead, IntMax, 1, 1, g1, g2, g3, rest);
  }

  // ---------------------------------------------------------------------------
  // deltat.preds

  /** The expiration for a fractional year `yf`: `date(int(yf) + 2, 1 + int(yf * 12) % 12, 1)`,
      with `int()` truncating toward zero and `%` Python's floor modulo. */
  function PredsDate(yf: Decimal): (r: Result<Date>)
    ensures r.Ok? <==> MinYear <= Trunc(yf) + 2 <= MaxYear
    ensures r.Ok? ==> Valid(r.value) && r.value.day == 1 && r.value.year == Trunc(yf) + 2
    ensures r.Err? ==> r.error == if FitsCInt(Trunc(yf) + 2) then ValueError else OverflowError
  {
    var year := Trunc(yf);
    var month := 1 + Trunc(Times12(yf)) % 12;
    MakeDate(year + 2, month, 1)
  }

  lemma MulLess(p: int, a: int, b: int)
    requires p > 0 && p * a < p * b
    ensures a < b
  {
    assert p * b - p * a == p * (b - a);
  }

  lemma MulMono(p: int, a: int, b: int)
    requires p >= 0 && a <= b
    ensures p * a <= p * b
  {
    assert p * b - p * a == p * (b - a);
  }

  lemma DivBounds(x: int, p: int)
    requires p > 0
    ensures p * (x / p) <= x < p * (x / p) + p
  {
  }

  lemma Distribute(p: int, a: int)
    ensures p * (12 * a) == 12 * (p * a)
    ensures p * (12 * a + 12) == 12 * (p * a) + 12 * p
    ensures p * (a + 1) == p * a + p
  {
  }

  /** If `y` is the quotient of `m` by `p`, `t` that of `12 * m`, and `q` that of `t`
      by twelve, then `q` is `y`. */
  lemma QuotientOfQuotient(m: int, p: int, y: int, t: int, q: int)
    requires p > 0
    requires p * y <= m < p * y + p
    requires p * t <= 12 * m < p * t + p
    requires 12 * q <= t < 12 * q + 12
    ensures q == y
  {
    MulMono(p, 12 * q, t);
    Distribute(p, q);
    Distribute(p, y);
    MulLess(p, q, y + 1);
    MulMono(p, t, 12 * q + 11);
    MulLess(p, y, q + 1);
  }

  /** With `y` the quotient of `m` by `p` and `t` that of `12 * m`, the twelfth
      `t % 12` of year `y` contains `m / p`. */
  lemma TwelfthContains(m: nat, p: int, y: int, t: int)
    requires p > 0 && y == m / p && t == (12 * m) / p
    ensures p * (12 * y + t % 12) <= 12 * m < p * (12 * y + t % 12 + 1)
  {
    DivBounds(m, p);
    DivBounds(12 * m, p);
    DivBounds(t, 12);
    QuotientOfQuotient(m, p, y, t, t / 12);
    assert 12 * y + t % 12 == t;
  }

  /** For a non-negative fractional year, the month `PredsDate` picks is the twelfth of
      the year that contains it: `Y + (month-1)/12 <= yf < Y + month/12`, where `Y` is
      the expiration year less two. */
  lemma PredsDateMonth(m: nat, scale: nat)
    requires PredsDate(Decimal(m, scale)).Ok?
    ensures var r, p := PredsDate(Decimal(m, scale)).value, Pow10(scale);
            p * (12 * (r.year - 2) + r.month - 1) <= 12 * m < p * (12 * (r.year - 2) + r.month)
  {
    var p := Pow10(scale);
    var y, t := m / p, (12 * m) / p;
    assert Trunc(Decimal(m, scale)) == y;
    assert Trunc(Times12(Decimal(m, scale))) == t;
    var r := PredsDate(Decimal(m, scale)).value;
    assert r.year - 2 == y && r.month - 1 == t % 12;
    TwelfthContains(m, p, y, t);
  }

  /** `header` of `deltat.preds` starts the layout in use until February 2019. */
  predicate OldPredsLayout(header: string): (b: bool)
    ensures b <==> |header| >= 4 && header[0] == 'Y' && header[1] == 'E' && header[2] == 'A' && header[3] == 'R'
  {
    StartsWith(header, "YEAR")
  }

  /** `deltat_preds_expiration` as the code reads the fractional year: in the old
      layout the last field of the third line (`split().pop()`), in the new one the
      second field of the second line.  Each `next()` past the end raises
      StopIteration; a missing field raises IndexError. */
  function DeltatPredsExpirationAsWritten(lines: seq<string>): (r: Result<Date>)
    ensures r.Ok? ==> Valid(r.value) && r.value.day == 1
    ensures |lines| == 0 ==> r == Err(StopIteration)
    ensures |lines| > 0 && OldPredsLayout(lines[0]) && |lines| < 3 ==> r == Err(StopIteration)
    ensures |lines| > 0 && !OldPredsLayout(lines[0]) && |lines| < 2 ==> r == Err(StopIteration)
  {
    if |lines| == 0 then
      Err(StopIteration)
    else if OldPredsLayout(lines[0]) then
      if |lines| < 3 then
        Err(StopIteration)
      else
        var fields := Words(lines[2], IsByteSpace);
        if fields == [] then
          Err(IndexError)
        else
          var yf :- ParseDecimal(fields[|fields| - 1]);
          PredsDate(yf)
    else
      if |lines| < 2 then
        Err(StopIteration)
      else
        var fields := Words(lines[1], IsByteSpace);
        if |fields| < 2 then
          Err(IndexError)
        else
          var yf :- ParseDecimal(fields[1]);
          PredsDate(yf)
  }

  /** `deltat_preds_expiration` reading the fractional year where the old layout keeps
      it, in the FIRST field of the third line (see the finding in README.md); otherwise
      as written. */
  function DeltatPredsExpiration(lines: seq<string>): (r: Result<Date>)
    ensures r.Ok? ==> Valid(r.value) && r.value.day == 1
    ensures |lines| == 0 ==> r == Err(StopIteration)
    ensures |lines| > 0 && OldPredsLayout(lines[0]) && |lines| < 3 ==> r == Err(StopIteration)
    ensures |lines| > 0 && !OldPredsLayout(lines[0]) ==> r == DeltatPredsExpirationAsWritten(lines)
  {
    if |lines| == 0 then
      Err(StopIteration)
    else if OldPredsLayout(lines[0]) then
      if |lines| < 3 then
        Err(StopIteration)
      else
        var fields := Words(lines[2], IsByteSpace);
        if fields == [] then
          Err(IndexError)
        else
          var yf :- ParseDecimal(fields[0]);
          PredsDate(yf)
    else
      DeltatPredsExpirationAsWritten(lines)
  }

  /** New layout: a header, then a row whose second field is the fractional year; the
      row may start with whitespace `lead`, and `g1`, `g2` are any runs of whitespace.
      The code and the corrected reading agree on it. */
  lemma PredsNewLayout(header: string, lead: string, mjd: string, m: nat, scale: nat, g1: string, g2: string,
                       rest: string, later: seq<string>)
    requires !OldPredsLayout(header) && IsWord(mjd, IsByteSpace)
    requires AllSpace(lead, IsByteSpace) && IsGap(g1) && IsGap(g2)
    ensures var lines := [header, lead + (mjd + (g1 + (DecimalText(m, scale) + (g2 + rest))))] + later;
            DeltatPredsExpirationAsWritten(lines) == PredsDate(Decimal(m, scale)) &&
            DeltatPredsExpiration(lines) == PredsDate(Decimal(m, scale))
  {
    var yt := DecimalText(m, scale);
    DecimalTextRoundTrip(m, scale);
    var row := lead + (mjd + (g1 + (yt + (g2 + rest))));
    WordsOfTwoFields(lead, mjd, yt, g1, g2, rest, IsByteSpace);
    var lines := [header, row] + later;
    assert lines[0] == header && lines[1] == row;
  }

  lemma WordsOfTwoFields(lead: string, a: string, b: string, g1: string, g2: string, rest: string, space: char -> bool)
    requires IsWord(a, space) && IsWord(b, space) && AllSpace(lead, space)
    requires AllSpace(g1, space) && |g1| > 0 && AllSpace(g2, space) && |g2| > 0
    ensures Words(lead + (a + (g1 + (b + (g2 + rest)))), space) == [a, b] + Words(rest, space)
  {
    WordsConsRight(b, g2, rest, space);
    WordsConsRight(a, g1, b + (g2 + rest), space);
    WordsAfterSpace(lead, a + (g1 + (b + (g2 + rest))), space);
  }

  /** Old layout, corrected: a `YEAR` header, a blank line, then a row whose first
      field, after any leading whitespace `lead`, is the fractional year. */
  lemma PredsOldLayout(header: string, blank: string, lead: string, m: nat, scale: nat, sep: string, rest: string,
                       later: seq<string>)
    requires OldPredsLayout(header)
    requires AllSpace(lead, IsByteSpace) && IsGap(sep)
    ensures DeltatPredsExpiration([header, blank, lead + (DecimalText(m, scale) + (sep + rest))] + later)
            == PredsDate(Decimal(m, scale))
  {
    var yt := DecimalText(m, scale);
    DecimalTextRoundTrip(m, scale);
    WordsConsRight(yt, sep, rest, IsByteSpace);
    WordsAfterSpace(lead, yt + (sep + rest), IsByteSpace);
    var lines := [header, blank, lead + (yt + (sep + rest))] + later;
    assert lines[0] == header && lines[2] == lead + (yt + (sep + rest));
  }

  /** The fractional years of the docstring examples: the new layout's 2019.00 gives
      2021-01-01; in the old layout's row, 2015.75 gives 2017-10-01 and the error
      column 0.02 gives 0002-01-01. */
  lemma PredsExampleDates()
    ensures PredsDate(Decimal(201900, 2)) == Ok(Date(2021, 1, 1))
    ensures PredsDate(Decimal(201575, 2)) == Ok(Date(2017, 10, 1))
    ensures PredsDate(Decimal(2, 2)) == Ok(Date(2, 1, 1))
  {
    assert Pow10(2) == 100;
  }

  /** `int()` truncates toward zero: -0.5 gives year 0 + 2 and month 1 + (-6 % 12),
      so 0002-07-01, where flooring the year would give 0001-07-01. */
  lemma NegativeYearExample()
    ensures Trunc(Decimal(-5, 1)) == 0
    ensures PredsDate(Decimal(-5, 1)) == Ok(Date(2, 7, 1))
  {
    assert Pow10(1) == 10;
  }

  /** The docstring's new-layout row `58484.000  2019.00 ...` gives 2021-01-01. */
  lemma NewPredsExample(header: string, mjd: string, sep: string, rest: string, later: seq<string>)
    requires !OldPredsLayout(header) && IsWord(mjd, IsByteSpace) && IsGap(sep)
    ensures DeltatPredsExpirationAsWritten([header, mjd + (sep + (DecimalText(201900, 2) + (sep + rest)))] + later)
            == Ok(Date(2021, 1, 1))
  {
    PredsNewLayout(header, [], mjd, 201900, 2, sep, sep, rest, later);
    assert [] + (mjd + (sep + (DecimalText(201900, 2) + (sep + rest)))) == mjd + (sep + (DecimalText(201900, 2) + (sep + rest)));
    PredsExampleDates();
  }

  /** An old-layout row: optional leading whitespace, the fractional year, further
      columns, and last the error column followed by the line end `eol`. */
  lemma WordsOfOldRow(lead: string, yt: string, sep: string, middle: string, et: string, eol: string)
    requires IsWord(yt, IsByteSpace) && IsWord(et, IsByteSpace)
    requires AllSpace(lead, IsByteSpace) && IsGap(sep) && IsGap(eol)
    requires middle == [] || IsByteSpace(middle[|middle| - 1])
    ensures Words(lead + (yt + (sep + (middle + (et + eol)))), IsByteSpace) == [yt] + (Words(middle, IsByteSpace) + [et])
  {
    WordsConsRight(yt, sep, middle + (et + eol), IsByteSpace);
    WordsAppend(middle, et + eol, IsByteSpace);
    WordsOfWord(et, eol, IsByteSpace);
    WordsAfterSpace(lead, yt + (sep + (middle + (et + eol))), IsByteSpace);
  }

  /** The row of the old layout with fractional year `ym`/10^`ys` and error column
      `em`/10^`es`. */
  function OldRow(lead: string, ym: nat, ys: nat, sep: string, middle: string, em: nat, es: nat, eol: string): string {
    lead + (DecimalText(ym, ys) + (sep + (middle + (DecimalText(em, es) + eol))))
  }

  /** In the old layout the code dates the file by the LAST column of the third line,
      the error estimate, where the fractional year is the FIRST column. */
  lemma OldLayoutLastColumn(header: string, blank: string, lead: string, ym: nat, ys: nat, sep: string, middle: string,
                            em: nat, es: nat, eol: string, later: seq<string>)
    requires OldPredsLayout(header)
    requires AllSpace(lead, IsByteSpace) && IsGap(sep) && IsGap(eol)
    requires middle == [] || IsByteSpace(middle[|middle| - 1])
    ensures var lines := [header, blank, OldRow(lead, ym, ys, sep, middle, em, es, eol)] + later;
            DeltatPredsExpirationAsWritten(lines) == PredsDate(Decimal(em, es)) &&
            DeltatPredsExpiration(lines) == PredsDate(Decimal(ym, ys))
  {
    var yt, et := DecimalText(ym, ys), DecimalText(em, es);
    DecimalTextRoundTrip(ym, ys);
    DecimalTextRoundTrip(em, es);
    var row := OldRow(lead, ym, ys, sep, middle, em, es, eol);
    WordsOfOldRow(lead, yt, sep, middle, et, eol);
    var lines := [header, blank, row] + later;
    assert lines[0] == header && lines[2] == row;
    var fields := Words(row, IsByteSpace);
    assert fields[0] == yt && fields[|fields| - 1] == et;
  }

  /** The docstring's old-layout row `2015.75 67.97 0.210 0.02`, with any columns
      between the first and the last: as written the file expires on 0002-01-01, read
      from the error column; the corrected reading gives 2017-10-01. */
  lemma OldPredsExampleDiscrepancy(header: string, blank: string, lead: string, sep: string, middle: string, eol: string)
    requires OldPredsLayout(header)
    requires AllSpace(lead, IsByteSpace) && IsGap(sep) && IsGap(eol)
    requires middle == [] || IsByteSpace(middle[|middle| - 1])
    ensures var row := OldRow(lead, 201575, 2, sep, middle, 2, 2, eol);
            DeltatPredsExpirationAsWritten([header, blank, row]) == Ok(Date(2, 1, 1)) &&
            DeltatPredsExpiration([header, blank, row]) == Ok(Date(2017, 10, 1))
  {
    OldLayoutLastColumn(header, blank, lead, 201575, 2, sep, middle, 2, 2, eol, []);
    PredsExampleDates();
    var row := OldRow(lead, 201575, 2, sep, middle, 2, 2, eol);
    assert [header, blank, row] + [] == [header, blank, row];
  }

  // ---------------------------------------------------------------------------
  // Leap_Second.dat

  /** The prefix of the line that carries the printed expiry date. */
  const ExpiryMarker: string := "#  File expires on"

  /** Days added to the printed date before the file counts as expired. */
  const GracePeriodDays: int := 30

  /** `line.startswith(b'#  File expires on')` */
  predicate IsExpiryLine(line: string): (b: bool)
    ensures b <==> |line| >= |ExpiryMarker| && forall i :: 0 <= i < |ExpiryMarker| ==> line[i] == ExpiryMarker[i]
  {
    StartsWith(line, ExpiryMarker)
  }

  /** The index of the first marker line: the `for ... break` of the scan. */
  function FirstExpiryLine(lines: seq<string>): (r: Option<nat>)
    ensures r.Some? ==> r.value < |lines| && IsExpiryLine(lines[r.value]) &&
                        forall j :: 0 <= j < r.value ==> !IsExpiryLine(lines[j])
    ensures r.None? ==> forall j :: 0 <= j < |lines| ==> !IsExpiryLine(lines[j])
  {
    if lines == [] then None
    else if IsExpiryLine(lines[0]) then Some(0)
    else match FirstExpiryLine(lines[1..])
      case None => None
      case Some(k) => Some(k + 1)
  }

  /** `bytes.decode('ascii')` succeeds. */
  predicate IsAscii(s: string) {
    forall i :: 0 <= i < |s| ==> s[i] as int < 128
  }

  /** The date printed on the marker line `line`: decoding, then the strptime match of
      the text that follows the marker. */
  function PrintedExpiry(line: string): (r: Result<Date>)
    requires IsExpiryLine(line)
    ensures r.Ok? ==> Valid(r.value)
    ensures !IsAscii(line) <==> r == Err(UnicodeDecodeError)
    ensures r.Err? ==> r.error == ValueError || r.error == UnicodeDecodeError
  {
    if !IsAscii(line) then Err(UnicodeDecodeError)
    else ParseDayMonthYear(line[|ExpiryMarker|..])
  }

  /** `leap_seconds_expiration`: the date on the first marker line plus the grace period.
      No marker line raises ValueError; the addition raises OverflowError past year 9999. */
  function LeapSecondsExpiration(lines: seq<string>): (r: Result<Date>)
    ensures (forall j :: 0 <= j < |lines| ==> !IsExpiryLine(lines[j])) ==> r == Err(ValueError)
    ensures r.Ok? ==> Valid(r.value)
    ensures r.Err? ==> r.error in {ValueError, UnicodeDecodeError, OverflowError}
  {
    match FirstExpiryLine(lines)
    case None => Err(ValueError)
    case Some(i) =>
      var printed :- PrintedExpiry(lines[i]);
      AddDays(printed, GracePeriodDays)
  }

  /** The scan of `leap_seconds_expiration`, a loop that stops at the first marker line. */
  method LeapSecondsExpirationScan(lines: seq<string>) returns (r: Result<Date>)
    ensures r == LeapSecondsExpiration(lines)
  {
    var i := 0;
    while i < |lines| && !IsExpiryLine(lines[i])
      invariant 0 <= i <= |lines|
      invariant forall j :: 0 <= j < i ==> !IsExpiryLine(lines[j])
    {
      i := i + 1;
    }
    if i == |lines| {
      return Err(ValueError);
    }
    FirstExpiryLineIs(lines, i);
    var printed := PrintedExpiry(lines[i]);
    if printed.Err? {
      return Err(printed.error);
    }
    r := AddDays(printed.value, GracePeriodDays);
  }

  lemma {:induction false} FirstExpiryLineIs(lines: seq<string>, i: nat)
    requires i < |lines| && IsExpiryLine(lines[i])
    requires forall j :: 0 <= j < i ==> !IsExpiryLine(lines[j])
    ensures FirstExpiryLine(lines) == Some(i)
    decreases i
  {
    if i > 0 {
      FirstExpiryLineIs(lines[1..], i - 1);
    }
  }

  /** The result depends on nothing after the first marker line. */
  lemma LeapSecondsIgnoresLaterLines(before: seq<string>, line: string, after: seq<string>)
    requires forall j :: 0 <= j < |before| ==> !IsExpiryLine(before[j])
    requires IsExpiryLine(line)
    ensures LeapSecondsExpiration(before + [line] + after) ==
            (match PrintedExpiry(line)
             case Err(e) => Err(e)
             case Ok(d) => AddDays(d, GracePeriodDays))
  {
    var lines := before + [line] + after;
    assert lines[|before|] == line;
    forall j | 0 <= j < |before| ensures !IsExpiryLine(lines[j]) {
      assert lines[j] == before[j];
    }
    FirstExpiryLineIs(lines, |before|);
  }

  lemma AsciiAppend(a: string, b: string)
    requires IsAscii(a) && IsAscii(b)
    ensures IsAscii(a + b)
  {
    forall i | 0 <= i < |a + b| ensures (a + b)[i] as int < 128 {
      if i >= |a| {
        assert (a + b)[i] == b[i - |a|];
      }
    }
  }

  lemma MonthNameAscii(m: int)
    requires 1 <= m <= 12
    ensures IsAscii(MonthName(m))
  {
    assert MonthName(m) == MonthNames[m - 1];
  }

  lemma DateTextAscii(d: Date)
    requires Valid(d)
    ensures IsAscii(DateText(d))
  {
    var dt, mt, yt := DayText(d.day), MonthName(d.month), YearText(d.year);
    MonthNameAscii(d.month);
    assert IsAscii(dt) && IsAscii(yt) && IsAscii(" ") && IsAscii("\n");
    AsciiAppend(yt, "\n");
    AsciiAppend(" ", yt + "\n");
    AsciiAppend(mt, " " + (yt + "\n"));
    AsciiAppend(" ", mt + (" " + (yt + "\n")));
    AsciiAppend(dt, " " + (mt + (" " + (yt + "\n"))));
    AsciiAppend(" ", dt + (" " + (mt + (" " + (yt + "\n")))));
  }

  lemma MarkerLineAscii(d: Date)
    requires Valid(d)
    ensures IsAscii(ExpiryMarker + DateText(d))
  {
    DateTextAscii(d);
    assert IsAscii(ExpiryMarker);
    AsciiAppend(ExpiryMarker, DateText(d));
  }

  /** The marker line for date `d` is read back as `d`. */
  lemma PrintedExpiryRoundTrip(d: Date)
    requires Valid(d)
    ensures IsExpiryLine(ExpiryMarker + DateText(d))
    ensures PrintedExpiry(ExpiryMarker + DateText(d)) == Ok(d)
  {
    var line := ExpiryMarker + DateText(d);
    assert line[..|ExpiryMarker|] == ExpiryMarker;
    assert line[|ExpiryMarker|..] == DateText(d);
    MarkerLineAscii(d);
    DateTextRoundTrip(d);
  }

  /** A marker line as the file prints it is read back as its date plus the grace period;
      that is, the file expires thirty days after the printed date. */
  lemma LeapSecondsRoundTrip(before: seq<string>, d: Date, after: seq<string>)
    requires Valid(d)
    requires forall j :: 0 <= j < |before| ==> !IsExpiryLine(before[j])
    ensures var r := LeapSecondsExpiration(before + [ExpiryMarker + DateText(d)] + after);
            r == AddDays(d, GracePeriodDays) &&
            (r.Ok? <==> ToOrdinal(d) + GracePeriodDays <= MaxOrdinal) &&
            (r.Ok? ==> ToOrdinal(r.value) == ToOrdinal(d) + GracePeriodDays)
  {
    PrintedExpiryRoundTrip(d);
    LeapSecondsIgnoresLaterLines(before, ExpiryMarker + DateText(d), after);
    OrdinalRange(d);
  }

  lemma GracePeriodExample()
    ensures AddDays(Date(2020, 7, 1), GracePeriodDays) == Ok(Date(2020, 7, 31))
  {
  }

  /** A file marked `#  File expires on 1 July 2020` expires on 31 July 2020. */
  lemma LeapSecondsExample(before: seq<string>, after: seq<string>)
    requires forall j :: 0 <= j < |before| ==> !IsExpiryLine(before[j])
    ensures LeapSecondsExpiration(before + [ExpiryMarker + DateText(Date(2020, 7, 1))] + after)
            == Ok(Date(2020, 7, 31))
  {
    LeapSecondsRoundTrip(before, Date(2020, 7, 1), after);
    GracePeriodExample();
  }

  // ---------------------------------------------------------------------------
  // check_should_i_download

  /** The `expiration_func` a tracked file may carry. */
  datatype Format = DeltatData | DeltatPreds | LeapSeconds

  /** The expiration the extractor for `f` reads from `lines`, with each extractor as
      the code defines it (`deltat.preds` read through `.pop()` in the old layout);
      only `deltat.data` can give `None`. */
  function ReadExpiration(f: Format, lines: seq<string>): (r: Result<Option<Date>>)
    ensures r.Ok? && r.value.Some? ==> Valid(r.value.value)
    ensures f != DeltatData && r.Ok? ==> r.value.Some?
    ensures f == DeltatPreds && |lines| > 0 && !OldPredsLayout(lines[0]) ==>
              r == match DeltatPredsExpiration(lines) case Ok(d) => Ok(Some(d)) case Err(e) => Err(e)
  {
    match f
    case DeltatData => DeltatDataExpiration(lines)
    case DeltatPreds =>
      var d :- DeltatPredsExpirationAsWritten(lines);
      Ok(Some(d))
    case LeapSeconds =>
      var d :- LeapSecondsExpiration(lines);
      Ok(Some(d))
  }

  /** Why a file is or is not fetched; each stands for one of the reason strings. */
  datatype Reason =
    | FileNotHere
    | NoExpirationFunction
    | WillExpireAt(expiration: Date)
    | ExpiredOn(expiration: Date)
    | Forced

  datatype Decision = Decision(download: bool, reason: Reason)

  /** `check_should_i_download`: `file` is the target's content, `None` when it does not
      exist; `today` is `date.today()`.  An extractor's exception propagates, and a `None`
      expiration compared with today raises TypeError. */
  function CheckShouldIDownload(file: Option<seq<string>>, extractor: Option<Format>, today: Date): (r: Result<Decision>)
    ensures file.None? ==> r == Ok(Decision(true, FileNotHere))
    ensures file.Some? && extractor.None? ==> r == Ok(Decision(false, NoExpirationFunction))
    ensures file.Some? && extractor.Some? ==>
              match ReadExpiration(extractor.value, file.value)
              case Err(e) => r == Err(e)
              case Ok(None) => r == Err(TypeError)
              case Ok(Some(e)) =>
                r == Ok(if LessEq(today, e) then Decision(false, WillExpireAt(e)) else Decision(true, ExpiredOn(e)))
  {
    if file.None? then
      Ok(Decision(true, FileNotHere))
    else if extractor.None? then
      Ok(Decision(false, NoExpirationFunction))
    else
      var expiration :- ReadExpiration(extractor.value, file.value);
      if expiration.None? then
        Err(TypeError)
      else if LessEq(today, expiration.value) then
        Ok(Decision(false, WillExpireAt(expiration.value)))
      else
        Ok(Decision(true, ExpiredOn(expiration.value)))
  }

  /** What `main` decides on 2016-01-01 for a `deltat.preds` in the old layout whose
      third line is the docstring's row: the error column dates it 0002-01-01, so the
      file is fetched although its fractional year, 2015.75, puts the expiration on
      2017-10-01, after today. */
  lemma OldPredsExampleDownload(header: string, blank: string, lead: string, sep: string, middle: string, eol: string)
    requires OldPredsLayout(header)
    requires AllSpace(lead, IsByteSpace) && IsGap(sep) && IsGap(eol)
    requires middle == [] || IsByteSpace(middle[|middle| - 1])
    ensures var file := [header, blank, OldRow(lead, 201575, 2, sep, middle, 2, 2, eol)];
            CheckShouldIDownload(Some(file), Some(DeltatPreds), Date(2016, 1, 1)) == Ok(Decision(true, ExpiredOn(Date(2, 1, 1)))) &&
            DeltatPredsExpiration(file) == Ok(Date(2017, 10, 1)) && LessEq(Date(2016, 1, 1), Date(2017, 10, 1))
  {
    OldPredsExampleDiscrepancy(header, blank, lead, sep, middle, eol);
  }

  /** An existing file with an extractor is fetched exactly when today's ordinal is past
      the expiration's: the expiration day itself still counts as fresh. */
  lemma DownloadIffPastExpiration(lines: seq<string>, f: Format, today: Date, e: Date)
    requires Valid(today) && ReadExpiration(f, lines) == Ok(Some(e))
    ensures CheckShouldIDownload(Some(lines), Some(f), today).Ok?
    ensures CheckShouldIDownload(Some(lines), Some(f), today).value.download <==> ToOrdinal(e) < ToOrdinal(today)
  {
    OrdinalOrder(today, e);
  }

  /** Moving today forward never turns a download back into a skip. */
  lemma DownloadMonotone(lines: seq<string>, f: Format, today: Date, later: Date)
    requires Valid(today) && Valid(later) && LessEq(today, later)
    requires CheckShouldIDownload(Some(lines), Some(f), today).Ok?
    requires CheckShouldIDownload(Some(lines), Some(f), today).value.download
    ensures CheckShouldIDownload(Some(lines), Some(f), later) == Ok(Decision(true, CheckShouldIDownload(Some(lines), Some(f), today).value.reason))
  {
    var e := ReadExpiration(f, lines).value.value;
    OrdinalOrder(today, later);
    OrdinalOrder(today, e);
    OrdinalOrder(later, e);
  }

  /** A present file is never fetched for being absent, and an absent one always is. */
  lemma FileNotHereIffAbsent(file: Option<seq<string>>, extractor: Option<Format>, today: Date)
    requires Valid(today) && CheckShouldIDownload(file, extractor, today).Ok?
    ensures CheckShouldIDownload(file, extractor, today).value.reason == FileNotHere <==> file.None?
  {
  }

  // ---------------------------------------------------------------------------
  // main

  const JPL: string := "ftp://ssd.jpl.nasa.gov/pub/eph/planets/bsp"
  const USNO: string := "http://maia.usno.navy.mil/ser7"
  const IERS: string := "https://hpiers.obspm.fr/iers/bul/bulc"

  /** One entry of the `items` table: file name, server and extractor. */
  datatype TrackedFile = TrackedFile(name: string, server: string, extractor: Option<Format>)

  /** The `items` table, in its insertion order, which is the order of the loop. */
  const Items: seq<TrackedFile> := [
    TrackedFile("de421.bsp", JPL, None),
    TrackedFile("deltat.data", USNO, Some(DeltatData)),
    TrackedFile("deltat.preds", USNO, Some(DeltatPreds)),
    TrackedFile("Leap_Second.dat", IERS, Some(LeapSeconds))]

  /** `"{}/{}".format(server, filename)`: the server, a slash, then the file name. */
  function Url(t: TrackedFile): (u: string)
    ensures |u| == |t.server| + 1 + |t.name|
    ensures u[..|t.server|] == t.server && u[|t.server|] == '/' && u[|t.server| + 1..] == t.name
  {
    t.server + "/" + t.name
  }

  /** The `items` dictionary: four distinct file names, and only `de421.bsp` has no
      `expiration_func`. */
  lemma ItemsTable()
    ensures |Items| == 4
    ensures forall i, j :: 0 <= i < j < |Items| ==> Items[i].name != Items[j].name
    ensures forall i :: 0 <= i < |Items| ==> (Items[i].extractor.None? <==> Items[i].name == "de421.bsp")
  {
  }

  /** What the loop does with one file: fetch it from its URL, or skip it. */
  datatype Action = Fetch(name: string, url: string, reason: Reason) | Skip(name: string, reason: Reason)

  /** One iteration of the loop of `main`; `disk` maps each file present in the data
      directory to its lines. */
  function Step(force: bool, t: TrackedFile, disk: map<string, seq<string>>, today: Date): (r: Result<Action>)
    ensures force ==> r == Ok(Fetch(t.name, Url(t), Forced))
    ensures r.Ok? ==> r.value.name == t.name
    ensures r.Ok? && r.value.Fetch? ==> r.value.url == Url(t)
  {
    if force then
      Ok(Fetch(t.name, Url(t), Forced))
    else
      var decision :- CheckShouldIDownload(if t.name in disk then Some(disk[t.name]) else None, t.extractor, today);
      Ok(if decision.download then Fetch(t.name, Url(t), decision.reason) else Skip(t.name, decision.reason))
  }

  /** The body of the loop of `main` for one flag, data directory and day. */
  function StepOf(force: bool, disk: map<string, seq<string>>, today: Date): TrackedFile -> Result<Action> {
    t => Step(force, t, disk, today)
  }

  /** The actions of a loop over `items` whose body is `step`, and the exception that
      ended it early if any. */
  function RunWith(step: TrackedFile -> Result<Action>, items: seq<TrackedFile>): (r: (seq<Action>, Option<Error>))
    ensures |r.0| <= |items|
    decreases |items|
  {
    if items == [] then
      ([], None)
    else
      match step(items[0])
      case Err(e) => ([], Some(e))
      case Ok(a) =>
        var rest := RunWith(step, items[1..]);
        ([a] + rest.0, rest.1)
  }

  /** The loop of `main` over `items`. */
  function Run(force: bool, items: seq<TrackedFile>, disk: map<string, seq<string>>, today: Date): (r: (seq<Action>, Option<Error>))
    ensures |r.0| <= |items|
  {
    RunWith(StepOf(force, disk, today), items)
  }

  /** The loop of `main`, with its body `step`: it returns the actions taken (the
      "Downloading"/"Skipping" lines) and the exception that stopped it, if any. */
  method ProcessItems(step: TrackedFile -> Result<Action>, items: seq<TrackedFile>)
    returns (actions: seq<Action>, failure: Option<Error>)
    ensures (actions, failure) == RunWith(step, items)
  {
    actions := [];
    var i := 0;
    assert items[0..] == items;
    while i < |items|
      invariant 0 <= i <= |items|
      invariant RunWith(step, items).0 == actions + RunWith(step, items[i..]).0
      invariant RunWith(step, items).1 == RunWith(step, items[i..]).1
    {
      var outcome := step(items[i]);
      RunFirst(step, items[i..]);
      if outcome.Err? {
        assert actions + [] == actions;
        return actions, Some(outcome.error);
      }
      assert items[i..][1..] == items[i + 1..];
      actions := actions + [outcome.value];
      i := i + 1;
    }
    assert items[i..] == [] && actions + [] == actions;
    failure := None;
  }

  /** One unfolding of `RunWith`. */
  lemma RunFirst(step: TrackedFile -> Result<Action>, items: seq<TrackedFile>)
    requires items != []
    ensures var s, r := step(items[0]), RunWith(step, items);
            (s.Err? ==> r.0 == [] && r.1 == Some(s.error)) &&
            (s.Ok? ==> r.0 == [s.value] + RunWith(step, items[1..]).0 && r.1 == RunWith(step, items[1..]).1)
  {
  }

  /** The loop takes one action per file, in order, each the one `step` decides; it
      runs to the end of `items` unless a step raises, and then it stops at that file. */
  lemma {:induction false} RunSpec(step: TrackedFile -> Result<Action>, items: seq<TrackedFile>)
    ensures var r := RunWith(step, items);
            (forall k :: 0 <= k < |r.0| ==> step(items[k]) == Ok(r.0[k])) &&
            (r.1.None? <==> |r.0| == |items|) &&
            (r.1.Some? ==> step(items[|r.0|]) == Err(r.1.value))
    decreases |items|
  {
    if items != [] {
      RunFirst(step, items);
      RunSpec(step, items[1..]);
    }
  }

  /** `main`, over the `items` table. */
  method DownloadAll(force: bool, disk: map<string, seq<string>>, today: Date) returns (actions: seq<Action>, failure: Option<Error>)
    ensures (actions, failure) == Run(force, Items, disk, today)
  {
    actions, failure := ProcessItems(StepOf(force, disk, today), Items);
  }

  /** With `--force`, every tracked file is fetched, in order, and nothing is read. */
  lemma RunForced(items: seq<TrackedFile>, disk: map<string, seq<string>>, today: Date)
    ensures var r := Run(true, items, disk, today);
            r.1.None? && |r.0| == |items| &&
            forall k :: 0 <= k < |items| ==> r.0[k] == Fetch(items[k].name, Url(items[k]), Forced)
  {
    RunSpec(StepOf(true, disk, today), items);
  }

  /** On an empty data directory every tracked file is fetched as absent. */
  lemma EmptyDiskFetchesAll(items: seq<TrackedFile>, today: Date)
    ensures var r := Run(false, items, map[], today);
            r.1.None? && |r.0| == |items| &&
            forall k :: 0 <= k < |items| ==> r.0[k] == Fetch(items[k].name, Url(items[k]), FileNotHere)
  {
    RunSpec(StepOf(false, map[], today), items);
  }

  /** `de421.bsp` has no extractor: once present it is skipped unless forced. */
  lemma EphemerisKeptOncePresent(disk: map<string, seq<string>>, today: Date)
    requires "de421.bsp" in disk
    ensures Step(false, Items[0], disk, today) == Ok(Skip("de421.bsp", NoExpirationFunction))
  {
  }
}
