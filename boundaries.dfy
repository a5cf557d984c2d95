/** How the two consumers of an expiration date treat its boundary: the downloader
    refreshes a file only once today is past the date (`today <= expiration` skips),
    while the load-time check warns from the date itself on (`today >= expiration`).
    On the expiration day the package warns and the downloader still skips. */
module Boundaries {
  import opened Outcomes
  import opened Calendar
  import opened Download
  import opened Expirations

  /** The warning for a registry date `e` fires exactly when `e`'s ordinal is at most
      today's; the download for a file dated `e` happens exactly when it is below. */
  lemma WarnAndDownloadBoundaries(lines: seq<string>, f: Format, today: Date, e: Date, name: string)
    requires Valid(today) && ReadExpiration(f, lines) == Ok(Some(e))
    ensures ShouldWarn(map[name := Some(e)], name, today) <==> ToOrdinal(e) <= ToOrdinal(today)
    ensures CheckShouldIDownload(Some(lines), Some(f), today).Ok?
    ensures CheckShouldIDownload(Some(lines), Some(f), today).value.download <==> ToOrdinal(e) < ToOrdinal(today)
  {
    OrdinalOrder(e, today);
    DownloadIffPastExpiration(lines, f, today, e);
  }

  /** On the expiration day itself the check warns but the downloader skips the file. */
  lemma ExpirationDay(lines: seq<string>, f: Format, e: Date, name: string)
    requires ReadExpiration(f, lines) == Ok(Some(e))
    ensures ShouldWarn(map[name := Some(e)], name, e)
    ensures CheckShouldIDownload(Some(lines), Some(f), e) == Ok(Decision(false, WillExpireAt(e)))
  {
  }

  /** On the day after, both agree: the check warns and the downloader fetches. */
  lemma DayAfterExpiration(lines: seq<string>, f: Format, e: Date, name: string)
    requires ReadExpiration(f, lines) == Ok(Some(e)) && AddDays(e, 1).Ok?
    ensures var next := AddDays(e, 1).value;
            ShouldWarn(map[name := Some(e)], name, next) &&
            CheckShouldIDownload(Some(lines), Some(f), next) == Ok(Decision(true, ExpiredOn(e)))
  {
    var next := AddDays(e, 1).value;
    AddDaysLater(e, 1);
    WarnAndDownloadBoundaries(lines, f, next, e, name);
  }

  /** The day before, neither fires. */
  lemma DayBeforeExpiration(lines: seq<string>, f: Format, e: Date, name: string)
    requires ReadExpiration(f, lines) == Ok(Some(e)) && AddDays(e, -1).Ok?
    ensures var prev := AddDays(e, -1).value;
            !ShouldWarn(map[name := Some(e)], name, prev) &&
            CheckShouldIDownload(Some(lines), Some(f), prev) == Ok(Decision(false, WillExpireAt(e)))
  {
    var prev := AddDays(e, -1).value;
    WarnAndDownloadBoundaries(lines, f, prev, e, name);
  }
}
