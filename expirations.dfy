/** skyfield_data/expirations.py: the load-time check that warns about every file of
    the data directory whose recorded expiration date has been reached.  The registry
    of expiration dates is an input; the directory listing and `date.today()` are
    parameters, and each `warnings.warn` call is recorded as the name it warns about. */
module Expirations {
  import opened Outcomes
  import opened Calendar

  /** `expiration_date and date.today() >= expiration_date` for a listed name: the name
      has an entry, the entry is a date, and that date is today or earlier. */
  predicate ShouldWarn(table: map<string, Option<Date>>, name: string, today: Date): (b: bool)
    ensures name !in table || table[name].None? ==> !b
    ensures name in table && table[name] == Some(today) ==> b
  {
    name in table && table[name].Some? && LessEq(table[name].value, today)
  }

  /** The names of `files` the check warns about, in listing order. */
  function Expired(table: map<string, Option<Date>>, files: seq<string>, today: Date): (warned: seq<string>)
    ensures |warned| <= |files|
    decreases |files|
  {
    if files == [] then []
    else
      var name := files[|files| - 1];
      Expired(table, files[..|files| - 1], today) + (if ShouldWarn(table, name, today) then [name] else [])
  }

  /** The module's registry, `EXPIRATIONS`, which the check only reads. */
  class Registry {
    var expirations: map<string, Option<Date>>

    constructor(table: map<string, Option<Date>>)
      ensures expirations == table
    {
      expirations := table;
    }

    /** `get_all` */
    function GetAll(): (table: map<string, Option<Date>>)
      reads this
      ensures forall name :: name in table <==> name in expirations
      ensures forall name :: name in table ==> table[name] == expirations[name]
    {
      expirations
    }

    /** `check_expirations`: one pass over the listing `files`, warning once for each
        listed name that `ShouldWarn`.  It has no `modifies` clause: the registry is
        left as it was. */
    method CheckExpirations(files: seq<string>, today: Date) returns (warned: seq<string>)
      ensures warned == Expired(GetAll(), files, today)
    {
      var table := GetAll();
      warned := [];
      for i := 0 to |files|
        invariant warned == Expired(table, files[..i], today)
      {
        var name := files[i];
        var entry := if name in table then table[name] else None;
        if entry.Some? && LessEq(entry.value, today) {
          warned := warned + [name];
        }
        assert files[..i + 1][..i] == files[..i];
      }
      assert files[..|files|] == files;
    }
  }

  /** Filtering a listing in two parts gives the two filtered parts in the same order. */
  lemma {:induction false} ExpiredAppend(table: map<string, Option<Date>>, a: seq<string>, b: seq<string>, today: Date)
    ensures Expired(table, a + b, today) == Expired(table, a, today) + Expired(table, b, today)
    decreases |b|
  {
    if b == [] {
      assert a + b == a;
    } else {
      var ab := a + b;
      assert ab[..|ab| - 1] == a + b[..|b| - 1];
      assert ab[|ab| - 1] == b[|b| - 1];
      ExpiredAppend(table, a, b[..|b| - 1], today);
    }
  }

  /** Each name is warned about as many times as it is listed if `ShouldWarn` holds
      for it, and never otherwise. */
  lemma {:induction false} ExpiredCount(table: map<string, Option<Date>>, files: seq<string>, today: Date, name: string)
    ensures multiset(Expired(table, files, today))[name] ==
            if ShouldWarn(table, name, today) then multiset(files)[name] else 0
    decreases |files|
  {
    if files != [] {
      var init := files[..|files| - 1];
      assert files == init + [files[|files| - 1]];
      ExpiredCount(table, init, today, name);
    }
  }

  /** A name is warned about exactly when it is listed and `ShouldWarn` holds for it:
      a name with no entry never warns, nor does an entry for a name not listed. */
  lemma WarnedIff(table: map<string, Option<Date>>, files: seq<string>, today: Date, name: string)
    ensures name in Expired(table, files, today) <==> name in files && ShouldWarn(table, name, today)
  {
    ExpiredCount(table, files, today, name);
  }

  /** An empty registry produces no warning. */
  lemma EmptyRegistryNoWarning(files: seq<string>, today: Date)
    ensures Expired(map[], files, today) == []
  {
    if Expired(map[], files, today) != [] {
      WarnedIff(map[], files, today, Expired(map[], files, today)[0]);
    }
  }

  /** An expiration date 10000 days after today produces no warning. */
  lemma DistantFutureNoWarning(today: Date, files: seq<string>)
    requires Valid(today) && AddDays(today, 10000).Ok?
    ensures Expired(map["deltat.data" := Some(AddDays(today, 10000).value)], files, today) == []
  {
    var table := map["deltat.data" := Some(AddDays(today, 10000).value)];
    AddDaysLater(today, 10000);
    var w := Expired(table, files, today);
    if w != [] {
      WarnedIff(table, files, today, w[0]);
    }
  }

  /** An expiration date of yesterday, for a file listed once, produces exactly one
      warning, for that file. */
  lemma YesterdayOneWarning(today: Date, files: seq<string>)
    requires Valid(today) && AddDays(today, -1).Ok?
    requires multiset(files)["deltat.data"] == 1
    ensures Expired(map["deltat.data" := Some(AddDays(today, -1).value)], files, today) == ["deltat.data"]
  {
    var table := map["deltat.data" := Some(AddDays(today, -1).value)];
    AddDaysNotLater(today, -1);
    var w := Expired(table, files, today);
    forall name ensures multiset(w)[name] == multiset(["deltat.data"])[name] {
      ExpiredCount(table, files, today, name);
    }
    assert multiset(w) == multiset(["deltat.data"]);
    assert |w| == 1;
    assert w[0] in multiset(w);
  }
}
