# skyfield-data: expiration dates and the refresh decision

This project models the part of skyfield-data that decides when its bundled
astronomical data files are out of date:

- `download.py` reads an expiration date out of each data file — the USNO Delta T
  table `deltat.data`, the USNO Delta T predictions `deltat.preds` (two layouts)
  and the IERS leap-second table `Leap_Second.dat` — and then decides, file by
  file, whether to fetch the file again (`check_should_i_download`, and the loop of
  `main` with its `--force` flag);
- `skyfield_data/expirations.py` checks, when the package is loaded, which files of
  the data directory have reached the expiration date recorded for them
  (`get_all`, `check_expirations`).

The date arithmetic the code borrows from Python's `datetime` is modelled too:
`date(y, m, d)` with its range checks, comparison, `toordinal()`,
`date + timedelta(days=n)`, and the `strptime` match of the leap-second marker
line. A file's content is the sequence of lines `readlines()` yields, one
character per byte. `date.today()`, the directory listing, the presence of a file
and the `--force` flag are parameters. A raised exception is an `Err` value naming
the exception class.

Modules: `Outcomes` (exceptions, `Option`, `Result`), `Calendar` (`datetime.date`),
`Text` (`bytes.split()`, `int()`, `float()` on a field), `Strptime` (the
`'%d %B %Y\n'` match), `Download` (download.py), `Expirations`
(skyfield_data/expirations.py) and `Boundaries` (how the two files treat the
expiration day).

Facts about the code that the model keeps:

- `check_expirations` has no warning margin. It warns from the expiration day on
  (`>=`), and it goes over the directory listing, not over the registry.
- `--force` is handled in `main`, not in `check_should_i_download`.
- An extractor's exception propagates out of `check_should_i_download` and ends
  `main`.
- An empty `deltat.data` gives `None`. Comparing `None` with today then raises
  TypeError.
- `int(year_float)` truncates toward zero. For every negative fractional year
  above -2 that is not an integer this differs from flooring, and `date()` accepts
  the truncated year: -0.5 gives 0002-07-01 (`Download.NegativeYearExample`).
- `main` runs `deltat_preds_expiration` as written, `.pop()` included (see
  "## Findings"): `Download.ReadExpiration` uses `DeltatPredsExpirationAsWritten`, and
  `DeltatPredsExpiration` is the corrected reading, kept beside it.

## Model

| member | source | states |
|---|---|---|
| Calendar.MakeDate | download.py:35 | `date(y, m, d)` succeeds exactly for a valid date and keeps its fields; an argument beyond a C int raises OverflowError, any other invalid date ValueError |
| Calendar.OrdinalOrder | download.py:115 | Python's comparison of dates agrees with the order of their ordinals |
| Calendar.OrdinalInjective | download.py:115 | two valid dates with the same ordinal are equal |
| Calendar.OrdinalRange | download.py:89-90 | every valid date has an ordinal between 1 and that of 9999-12-31 |
| Calendar.AddDays | download.py:89-90 | `d + timedelta(days=n)` succeeds exactly when the ordinal sum stays in 1..3652059, and then lands on that ordinal; otherwise OverflowError |
| Calendar.AddDaysLater | download.py:86-90 | adding a positive number of days gives a strictly later date |
| Calendar.AddDaysNotLater | tests/test_expiration_date.py:28 | adding zero or fewer days never gives a later date |
| Text.Words | download.py:29 | `split()` yields non-empty fields free of whitespace |
| Text.WordsAppend | download.py:29 | splitting after a whitespace byte splits the two halves independently |
| Text.WordsCons | download.py:29 | a field followed by whitespace is the first field of the split |
| Text.ParseInt | download.py:32-33 | `int(field)` raises only ValueError, and succeeds only on a sign or digit first |
| Text.ParseIntText | download.py:32-33 | `int(str(n)) == n` for every integer, and `str(n)` is a single field |
| Text.ParseDecimal | download.py:59 | `float(field)` raises only ValueError |
| Text.DecimalTextRoundTrip | download.py:59 | `float` reads back exactly the decimal a fixed-point text prints, and that text is a single field |
| Strptime.ParseDay | download.py:84 | `%d` accepts only days 1..31 |
| Strptime.ParseMonth | download.py:84 | `%B` finds month `m` exactly when the text equals its English name up to letter case |
| Strptime.ParseYear | download.py:84 | `%Y` accepts four digits, a year in 0..9999 |
| Strptime.ParseDayMonthYear | download.py:84 | the match gives a valid date or ValueError; text that does not end in whitespace, such as a line with no final newline, is rejected |
| Strptime.ParseDayText | download.py:84 | `%d` reads back every day 1..31 printed without a leading zero |
| Strptime.ParseMonthName | download.py:84 | `%B` reads back month `m` from its English name |
| Strptime.ParseYearText | download.py:84 | `%Y` reads back every year 0..9999 printed as four digits |
| Strptime.DateTextRoundTrip | download.py:84 | the date printed as ` D Month YYYY\n` is read back unchanged |
| Download.RowExpiration | download.py:29-35 | a row yields a valid date, ValueError, or OverflowError from `date()` |
| Download.DeltatDataExpiration | download.py:16-35 | no line gives `None`; otherwise a valid date, ValueError or OverflowError |
| Download.DeltatDataExpirationScan | download.py:23-35 | the loop that keeps the last line computes `DeltatDataExpiration` |
| Download.DeltatDataLastRow | download.py:23-35 | only the last row counts: its first three fields Y, M, D give (Y+1, M, D), whatever lines precede it, whatever whitespace leads the row or separates its fields, and whatever follows the day; an impossible date raises ValueError, and Y+1, M or D beyond a C int OverflowError |
| Download.DeltatDataLeapDayRow | download.py:35 | a last row of February 29 before a common year raises ValueError (OverflowError if that year is beyond a C int), however the row is spaced |
| Download.DeltatDataOverflowRow | download.py:35 | a last row whose year is 2147483647 raises OverflowError, as `date(2147483648, 1, 1)` does |
| Download.PredsDate | download.py:66-68 | the result is day 1 of a valid date whose year is the truncated fractional year plus two, or, when that year is out of range, ValueError, or OverflowError if it is beyond a C int |
| Download.OldPredsLayout | download.py:55 | `header.startswith(b'YEAR')`: the header's first four characters are `YEAR` |
| Download.PredsDateMonth | download.py:66-68 | for a non-negative fractional year the month is the twelfth of the year that contains it |
| Download.DeltatPredsExpirationAsWritten | download.py:52-69 | the code as written: day-1 dates only; too few lines raise StopIteration in either layout |
| Download.DeltatPredsExpiration | download.py:52-69 | the corrected reading: day-1 dates only; StopIteration on too few lines; the new layout is read as written |
| Download.PredsNewLayout | download.py:60-68 | new layout: the second field of the second line is the fractional year, whatever whitespace leads the row or separates its fields; the code and the corrected reading agree |
| Download.PredsOldLayout | download.py:55-59 | old layout, corrected: the first field of the third line is the fractional year, whatever whitespace leads the row |
| Download.NewPredsExample | download.py:49 | the new-layout row with 2019.00 gives 2021-01-01 |
| Download.OldLayoutLastColumn | download.py:55-59 | as written, the old layout is dated by the last column of the third line; the corrected reading uses the first; leading whitespace does not matter |
| Download.PredsExampleDates | download.py:66-68 | 2019.00 gives 2021-01-01, 2015.75 gives 2017-10-01 and 0.02 gives 0002-01-01 |
| Download.NegativeYearExample | download.py:66-68 | `int()` truncates toward zero: -0.5 gives year 0 and the date 0002-07-01 |
| Download.OldPredsExampleDiscrepancy | download.py:45 | the docstring's old-layout row expires 0002-01-01 as written and 2017-10-01 when corrected |
| Download.IsExpiryLine | download.py:78 | a marker line is one whose first characters are exactly `#  File expires on` |
| Download.FirstExpiryLine | download.py:76-81 | the index of the first marker line, every earlier line not a marker; or none at all |
| Download.PrintedExpiry | download.py:82-84 | a non-ASCII marker line raises UnicodeDecodeError and nothing else does; otherwise a valid date or ValueError |
| Download.LeapSecondsExpiration | download.py:72-91 | no marker line raises ValueError; the result is a valid date; errors are ValueError, UnicodeDecodeError or OverflowError |
| Download.LeapSecondsExpirationScan | download.py:76-91 | the scan that stops at the first marker computes `LeapSecondsExpiration` |
| Download.LeapSecondsIgnoresLaterLines | download.py:77-79 | lines after the first marker line do not matter |
| Download.PrintedExpiryRoundTrip | download.py:78-84 | a marker followed by a printed date is a marker line, and reading it gives that date back |
| Download.LeapSecondsRoundTrip | download.py:84-90 | a printed marker date D gives D plus exactly 30 days, strictly later, or OverflowError past 9999-12-31 |
| Download.GracePeriodExample | download.py:89-90 | 1 July 2020 plus the 30-day grace period is 31 July 2020 |
| Download.LeapSecondsExample | download.py:84-90 | `#  File expires on 1 July 2020` gives 2020-07-31 |
| Download.ReadExpiration | download.py:130-144 | the extractor registered for each file, as the code defines it; only that of `deltat.data` can return `None`; on a new-layout `deltat.preds` it agrees with the corrected reading |
| Download.OldPredsExampleDownload | download.py:102-126 | on 2016-01-01 `main` fetches the docstring's old-layout `deltat.preds` as expired on 0002-01-01, although its fractional year gives 2017-10-01, after that day |
| Download.CheckShouldIDownload | download.py:102-126 | a missing file is fetched; an existing file with no extractor is skipped; otherwise the extractor's exception propagates, `None` raises TypeError, and a date skips when today <= it and fetches otherwise |
| Download.DownloadIffPastExpiration | download.py:115-119 | an existing, dated file is fetched exactly when today's ordinal exceeds the expiration's |
| Download.DownloadMonotone | download.py:115-119 | once a file is due for download, every later day keeps it due, with the same reason |
| Download.FileNotHereIffAbsent | download.py:109-124 | the reason is "file not here" exactly when the file is absent |
| Download.ItemsTable | download.py:130-144 | the `items` table has four distinct file names, and only `de421.bsp` has no extractor |
| Download.Url | download.py:148 | the URL is the server, a slash, then the file name |
| Download.Step | download.py:147-162 | `--force` fetches with reason "Forced download"; every action names its file, and a fetch uses server + "/" + name |
| Download.RunWith | download.py:146-162 | a loop over the tracked files, with any per-file decision, takes at most one action per file |
| Download.Run | download.py:146-162 | the loop of `main` takes at most one action per tracked file |
| Download.RunSpec | download.py:146-162 | one action per file in order, each what `Step` decides; the loop runs to the end unless a step raises, and stops at that file |
| Download.ProcessItems | download.py:146-162 | the while loop, for any per-file decision, computes `RunWith`: it stops at the first file whose step raises |
| Download.DownloadAll | download.py:129-163 | `main` over the `items` table computes `Run` on it |
| Download.RunForced | download.py:151-152 | with `--force` every file is fetched, in order, and nothing raises |
| Download.EmptyDiskFetchesAll | download.py:123-124 | with no file on disk every file is fetched as "file not here" |
| Download.EphemerisKeptOncePresent | download.py:120-122 | `de421.bsp`, which has no extractor, is skipped once present |
| Expirations.ShouldWarn | skyfield_data/expirations.py:19-20 | no warning for a name without an entry or with no date; a warning on the expiration day itself |
| Expirations.Expired | skyfield_data/expirations.py:18-25 | the warned names are at most as many as the listed ones |
| Expirations.Registry.constructor | skyfield_data/expirations.py:5 | the registry holds the given expiration table |
| Expirations.Registry.GetAll | skyfield_data/expirations.py:11-12 | `get_all` returns the registry entry for entry |
| Expirations.Registry.CheckExpirations | skyfield_data/expirations.py:15-25 | the loop warns for exactly the listed names `Expired` selects, in listing order, and modifies nothing |
| Expirations.ExpiredAppend | skyfield_data/expirations.py:18 | the warnings for two parts of a listing are those of each part, in order |
| Expirations.ExpiredCount | skyfield_data/expirations.py:18-25 | a name is warned once per listing if its date is today or earlier, and never otherwise |
| Expirations.WarnedIff | skyfield_data/expirations.py:17-20 | a name is warned exactly when it is listed, has an entry, the entry is a date, and today >= that date |
| Expirations.EmptyRegistryNoWarning | tests/test_expiration_date.py:7-12 | an empty registry gives no warning |
| Expirations.DistantFutureNoWarning | tests/test_expiration_date.py:15-22 | a date 10000 days ahead gives no warning |
| Expirations.YesterdayOneWarning | tests/test_expiration_date.py:25-32 | yesterday's date for a file listed once gives exactly one warning, for that file |
| Boundaries.WarnAndDownloadBoundaries | skyfield_data/expirations.py:20 | the warning fires when the expiration's ordinal is at most today's; the download only when it is below |
| Boundaries.ExpirationDay | download.py:115-117 | on the expiration day the check warns but the downloader skips |
| Boundaries.DayAfterExpiration | download.py:118-119 | on the day after, the check warns and the downloader fetches |
| Boundaries.DayBeforeExpiration | download.py:115-117 | on the day before, neither fires |

## Left out

- `download()` (download.py:94-99) is not modelled: it does network and file I/O. `DownloadAll` treats every fetch as successful. It does not model the file a fetch writes; no later step of the loop reads that file.
- `print`, `argparse` and the reason strings are left out. A reason is a `Reason` value, and `--force` is a boolean parameter.
- `os.path.exists`, `os.listdir`, `open` and `date.today()` are parameters.
- Download.DownloadAll: one `today` serves the whole loop, while download.py:115 calls `date.today()` once per file; a run that crosses midnight, which can compare files against two different days, is not modelled.
- Expirations.Registry.CheckExpirations: one `today` serves the whole loop, while skyfield_data/expirations.py:20 calls `date.today()` once per listed file; a check that crosses midnight, which can compare files against two different days, is not modelled.
- `warnings.warn` is recorded as the list of warned names. Python's filter that shows a warning once per location is left out.
- `expiration_data.EXPIRATIONS` is not part of this model. It is taken as any table from names to optional dates.
- `skyfield_data/__init__.py` and `tests/test_get_path.py` are not part of this model. They return a constant path and exercise an external loader.
- `%B` follows the C locale. Other locales' month names are not modelled.
- Text.ParseDecimal: reads `float()` as an exact decimal. It does not accept exponents, `inf`, `nan`, underscores or surrounding whitespace. No field produced by `split()` has surrounding whitespace.
- Download.PredsDate: works on that exact decimal. IEEE rounding of `year_float * 12.0` at a month boundary is not captured.
- Text.ParseInt: does not accept the underscores `int()` allows between digits.

## Findings

| source | as written | input that shows it | evidently intended | confidence | as-written member | corrected member |
|---|---|---|---|---|---|---|
| download.py:59 | in the old `deltat.preds` layout, `line.strip().split().pop()` takes the LAST field of the third line, the error column | the docstring row `2015.75      67.97               0.210         0.02` (download.py:45) under a `YEAR` header: `0.02` gives 0002-01-01, so on 2016-01-01 `main` downloads the file again | the first field, the fractional year, as the docstring describes: 2015.75 gives 2017-10-01 | not executed | Download.OldPredsExampleDiscrepancy | Download.DeltatPredsExpiration |
