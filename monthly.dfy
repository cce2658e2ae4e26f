/**
 * The scraper's `main`: walk every day from 2009-01-01 to today month by
 * month, fetch each day, gather the days of a month in day order, and write
 * the month as `YYYYMM.csv` when at least one day gave records.
 *
 * Writing a file is modelled as producing a `MonthFile` value (its name and
 * its records); the clock is the parameter `today`.
 */
module Monthly {
  import opened Wrappers
  import opened Text
  import opened Calendar
  import opened Fetch

  const StartYear: nat := 2009
  const StartMonth: nat := 1
  const StartDay: nat := 1

  /** The first day the scraper asks for. */
  const Start := Date(StartYear, StartMonth, StartDay)

  /** A written month: the CSV file's name and its data rows, below the fixed header. */
  datatype MonthFile = MonthFile(name: string, records: seq<Record>)

  /** The name of a month's file: `f"{year}{month:02d}.csv"`. */
  function Filename(year: nat, month: nat): (name: string)
    ensures |name| > 4 && name[|name| - 4..] == ".csv" && AllDigits(name[..|name| - 4])
  {
    Decimal(year) + Pad2(month) + ".csv"
  }

  /** The CSV table of a month: the header row, then one row per record. */
  function CsvRows(file: MonthFile): (rows: seq<seq<string>>)
    requires forall r :: r in file.records ==> |r| == RecordWidth
    ensures |rows| == |file.records| + 1
    ensures forall row :: row in rows ==> |row| == RecordWidth
  {
    [Header] + file.records
  }

  /** The month a file name stands for, as a month index; -1 for a name of another form. */
  function NameMonthIndex(name: string): int {
    if |name| >= 6 && AllDigits(name[..6]) then
      ParseDigits(name[..4]) * 12 + ParseDigits(name[4..6]) - 1
    else -1
  }

  /** Months counted from January of year 0, so that the month after December is one more. */
  function MonthIndex(year: nat, month: nat): int {
    year * 12 + month - 1
  }

  /** A file name is ten characters and reads back as the month it was made for. */
  lemma FilenameRoundTrip(year: nat, month: nat)
    requires 1000 <= year <= 9999 && 1 <= month <= 12
    ensures |Filename(year, month)| == 10
    ensures NameMonthIndex(Filename(year, month)) == MonthIndex(year, month)
  {
    FourDigitYear(year);
    Pad2RoundTrip(month);
    var name := Filename(year, month);
    assert name[..4] == Decimal(year) && name[4..6] == Pad2(month);
    assert name[..6] == Decimal(year) + Pad2(month);
  }

  /** Every record date of a month begins with the six characters its file name begins with. */
  lemma FilenameMatchesDates(year: nat, month: nat, day: nat)
    requires 1000 <= year <= 9999 && 1 <= month <= 12 && day < 100
    ensures |DateString(year, month, day)| == 8
    ensures DateString(year, month, day)[..6] == Filename(year, month)[..6]
  {
    FourDigitYear(year);
    Pad2RoundTrip(month);
    Pad2RoundTrip(day);
    assert DateString(year, month, day)[..6] == Decimal(year) + Pad2(month);
    assert Filename(year, month)[..6] == Decimal(year) + Pad2(month);
  }

  /** The outcome of one day's fetch: None when the request failed or the table was missing. */
  type DayOutcome = Option<seq<Record>>

  /** The outcomes of days 1..n of a month, in day order. */
  function DailyResults(server: Server, year: nat, month: nat, n: nat): (results: seq<DayOutcome>)
    ensures |results| == n
  {
    seq(n, k requires 0 <= k < n => DayResult(server, year, month, k + 1))
  }

  /** The k-th outcome of a month is that of day k + 1. */
  lemma DailyResultsAt(server: Server, year: nat, month: nat, n: nat, k: nat)
    requires k < n
    ensures DailyResults(server, year, month, n)[k] == DayResult(server, year, month, k + 1)
  {
  }

  /** The records one day adds to its month: none when its outcome is absent. */
  function DayRecords(result: DayOutcome): seq<Record> {
    match result
    case None => []
    case Some(records) => records
  }

  /** The month's list of daily results (`monthly_data`): the non-empty ones, in day order. */
  function Contributions(results: seq<DayOutcome>): (kept: seq<seq<Record>>)
    ensures |kept| <= |results|
    ensures forall i :: 0 <= i < |kept| ==> kept[i] != []
  {
    if results == [] then []
    else
      var last := results[|results| - 1];
      Contributions(results[..|results| - 1]) + (if last.Some? && last.value != [] then [last.value] else [])
  }

  /** `pd.concat` of a list of daily results. */
  function Flatten(parts: seq<seq<Record>>): (all: seq<Record>)
    ensures all == [] <==> forall i :: 0 <= i < |parts| ==> parts[i] == []
  {
    if parts == [] then [] else Flatten(parts[..|parts| - 1]) + parts[|parts| - 1]
  }

  /** The records of all days in turn, absent days adding nothing. */
  function MonthRecords(results: seq<DayOutcome>): seq<Record> {
    if results == [] then []
    else MonthRecords(results[..|results| - 1]) + DayRecords(results[|results| - 1])
  }

  /** The number of records the days yield, added up day by day. */
  function TotalCount(results: seq<DayOutcome>): nat {
    if results == [] then 0
    else TotalCount(results[..|results| - 1]) + |DayRecords(results[|results| - 1])|
  }

  /**
   * Skipping absent and empty days changes nothing: the concatenation of
   * the kept daily results is the concatenation of all days, and the list
   * of kept results is empty exactly when no day has a record.
   */
  lemma {:induction false} ContributionsFlatten(results: seq<DayOutcome>)
    ensures Flatten(Contributions(results)) == MonthRecords(results)
    ensures Contributions(results) == [] <==> MonthRecords(results) == []
  {
    if results != [] {
      var init, last := results[..|results| - 1], results[|results| - 1];
      ContributionsFlatten(init);
      var before := Contributions(init);
      if last.Some? && last.value != [] {
        var now := before + [last.value];
        assert now[..|now| - 1] == before;
      } else {
        assert Contributions(results) == before + [] == before;
        assert MonthRecords(results) == MonthRecords(init) + [] == MonthRecords(init);
      }
    }
  }

  /** A month has records exactly when one of its days has. */
  lemma {:induction false} MonthRecordsNonEmpty(results: seq<DayOutcome>)
    ensures MonthRecords(results) != [] <==>
      exists k :: 0 <= k < |results| && DayRecords(results[k]) != []
  {
    if results != [] {
      var init, last := results[..|results| - 1], results[|results| - 1];
      MonthRecordsNonEmpty(init);
      assert |MonthRecords(results)| == |MonthRecords(init)| + |DayRecords(last)|;
      if MonthRecords(results) != [] {
        if MonthRecords(init) != [] {
          var k :| 0 <= k < |init| && DayRecords(init[k]) != [];
          assert init[k] == results[k];
        } else {
          assert DayRecords(results[|results| - 1]) != [];
        }
      }
      if exists k :: 0 <= k < |results| && DayRecords(results[k]) != [] {
        var k :| 0 <= k < |results| && DayRecords(results[k]) != [];
        if k < |init| {
          assert init[k] == results[k];
        }
      }
    }
  }

  /** A month holds as many records as its days yield together. */
  lemma {:induction false} MonthRecordsCount(results: seq<DayOutcome>)
    ensures |MonthRecords(results)| == TotalCount(results)
  {
    if results != [] {
      MonthRecordsCount(results[..|results| - 1]);
    }
  }

  /** Every record of a month comes from one of its days. */
  lemma {:induction false} MonthRecordsFromDays(results: seq<DayOutcome>)
    ensures forall r :: r in MonthRecords(results) ==>
      exists k :: 0 <= k < |results| && r in DayRecords(results[k])
  {
    if results != [] {
      var init := results[..|results| - 1];
      MonthRecordsFromDays(init);
      forall r | r in MonthRecords(results)
        ensures exists k :: 0 <= k < |results| && r in DayRecords(results[k])
      {
        if r in MonthRecords(init) {
          var k :| 0 <= k < |init| && r in DayRecords(init[k]);
          assert init[k] == results[k];
        } else {
          assert r in DayRecords(results[|results| - 1]);
        }
      }
    }
  }

  /** Every record of a month has twelve fields and carries the date of one of the month's days. */
  lemma MonthRecordsDated(server: Server, year: nat, month: nat, n: nat)
    ensures forall r :: r in MonthRecords(DailyResults(server, year, month, n)) ==>
      |r| == RecordWidth && exists d :: 1 <= d <= n && r[0] == DateString(year, month, d)
  {
    var results := DailyResults(server, year, month, n);
    MonthRecordsFromDays(results);
    forall r | r in MonthRecords(results)
      ensures |r| == RecordWidth && exists d :: 1 <= d <= n && r[0] == DateString(year, month, d)
    {
      var k :| 0 <= k < n && r in DayRecords(results[k]);
      DayRecordDated(server, year, month, n, k, r);
    }
  }

  /** A record of the k-th outcome of a month has twelve fields and the date of day k + 1. */
  lemma DayRecordDated(server: Server, year: nat, month: nat, n: nat, k: nat, r: Record)
    requires k < n && r in DayRecords(DailyResults(server, year, month, n)[k])
    ensures |r| == RecordWidth && r[0] == DateString(year, month, k + 1)
  {
    DailyResultsAt(server, year, month, n, k);
    DayResultOutcome(server, year, month, k + 1);
  }

  /** Fetching one more day adds its records to the month's list exactly when it has some. */
  lemma ContributionsStep(server: Server, year: nat, month: nat, day: nat)
    requires day >= 1
    ensures var dayData := DayResult(server, year, month, day);
      Contributions(DailyResults(server, year, month, day))
        == Contributions(DailyResults(server, year, month, day - 1))
          + (if dayData.Some? && dayData.value != [] then [dayData.value] else [])
  {
    var results := DailyResults(server, year, month, day);
    DailyResultsPrefix(server, year, month, day);
    DailyResultsAt(server, year, month, day, day - 1);
  }

  /** The outcomes of days 1..day - 1 begin the outcomes of days 1..day. */
  lemma DailyResultsPrefix(server: Server, year: nat, month: nat, day: nat)
    requires day >= 1
    ensures DailyResults(server, year, month, day)[..day - 1] == DailyResults(server, year, month, day - 1)
  {
    var longer, shorter := DailyResults(server, year, month, day), DailyResults(server, year, month, day - 1);
    forall i | 0 <= i < day - 1 ensures longer[i] == shorter[i] {
      DailyResultsAt(server, year, month, day, i);
      DailyResultsAt(server, year, month, day - 1, i);
    }
  }

  /** What the month writes: nothing when no day has records, else the month's file. */
  function MonthOutput(server: Server, year: nat, month: nat, n: nat): Option<MonthFile> {
    var records := MonthRecords(DailyResults(server, year, month, n));
    if records == [] then None else Some(MonthFile(Filename(year, month), records))
  }

  /**
   * A month writes nothing exactly when none of days 1..n yields a record;
   * otherwise it writes `YYYYMM.csv` holding the concatenated daily frames.
   */
  lemma MonthOutputDecision(server: Server, year: nat, month: nat, n: nat)
    ensures MonthOutput(server, year, month, n).None? <==>
      forall d :: 1 <= d <= n ==> DayRecords(DayResult(server, year, month, d)) == []
    ensures MonthOutput(server, year, month, n).Some? ==>
      MonthOutput(server, year, month, n).value.name == Filename(year, month) &&
      MonthOutput(server, year, month, n).value.records
        == Flatten(Contributions(DailyResults(server, year, month, n))) != []
  {
    var results := DailyResults(server, year, month, n);
    MonthRecordsNonEmpty(results);
    ContributionsFlatten(results);
    NoDayRecords(server, year, month, n);
    assert MonthOutput(server, year, month, n).None? <==> MonthRecords(results) == [];
  }

  /** The month's output, in terms of the list of non-empty daily results that the day loop builds. */
  lemma MonthOutputFromContributions(server: Server, year: nat, month: nat, n: nat)
    ensures var kept := Contributions(DailyResults(server, year, month, n));
      MonthOutput(server, year, month, n)
        == if kept == [] then None else Some(MonthFile(Filename(year, month), Flatten(kept)))
  {
    ContributionsFlatten(DailyResults(server, year, month, n));
  }

  /** No outcome of days 1..n has records exactly when no fetch of those days has. */
  lemma NoDayRecords(server: Server, year: nat, month: nat, n: nat)
    ensures (forall k :: 0 <= k < n ==> DayRecords(DailyResults(server, year, month, n)[k]) == []) <==>
      forall d :: 1 <= d <= n ==> DayRecords(DayResult(server, year, month, d)) == []
  {
    var results := DailyResults(server, year, month, n);
    forall d | 1 <= d <= n ensures results[d - 1] == DayResult(server, year, month, d) {
      DailyResultsAt(server, year, month, n, d - 1);
    }
    if forall d :: 1 <= d <= n ==> DayRecords(DayResult(server, year, month, d)) == [] {
      forall k | 0 <= k < n ensures DayRecords(results[k]) == [] {
        assert results[k] == DayResult(server, year, month, k + 1);
      }
    }
  }

  /**
   * The day loop of `main` and the decision that follows it: fetch days
   * 1..dayEnd in order, keep the non-empty daily results, and write the
   * month when something was kept. `visited` lists the days requested.
   */
  method CollectMonth(server: Server, year: nat, month: nat, dayEnd: nat)
    returns (file: Option<MonthFile>, visited: seq<Date>)
    ensures file == MonthOutput(server, year, month, dayEnd)
    ensures |visited| == dayEnd && forall k :: 0 <= k < dayEnd ==> visited[k] == Date(year, month, k + 1)
  {
    var monthly: seq<seq<Record>> := [];
    visited := [];
    for day := 1 to dayEnd + 1
      invariant monthly == Contributions(DailyResults(server, year, month, day - 1))
      invariant |visited| == day - 1 && forall k :: 0 <= k < day - 1 ==> visited[k] == Date(year, month, k + 1)
    {
      visited := visited + [Date(year, month, day)];
      var dayData := FetchData(server, year, month, day);
      ContributionsStep(server, year, month, day);
      if dayData.Some? && dayData.value != [] {
        monthly := monthly + [dayData.value];
      }
    }
    MonthOutputFromContributions(server, year, month, dayEnd);
    if monthly != [] {
      file := Some(MonthFile(Filename(year, month), Flatten(monthly)));
    } else {
      file := None;
    }
  }

  /** The last day `main` asks for in a month: today in the current month, else the month's last day. */
  function DayEnd(year: nat, month: nat, today: Date): (n: nat)
    requires 1 <= month <= 12 && Valid(today)
    ensures 1 <= n <= DaysInMonth(year, month)
    ensures (year, month) == (today.year, today.month) ==> n == today.day
  {
    if year == today.year && month == today.month then today.day else DaysInMonth(year, month)
  }

  /** The month after (year, month). */
  function NextMonth(year: nat, month: nat): (ym: (nat, nat))
    requires 1 <= month <= 12
    ensures 1 <= ym.1 <= 12 && MonthIndex(ym.0, ym.1) == MonthIndex(year, month) + 1
  {
    if month < 12 then (year, month + 1) else (year + 1, 1)
  }

  /** What `main` writes for each month, given the month's year and number. */
  type MonthOutputs = (nat, nat) -> Option<MonthFile>

  /** The month outputs of a run on `today`: each month's days are fetched through today at the latest. */
  function Outputs(server: Server, today: Date): MonthOutputs
    requires Valid(today)
  {
    (year: nat, month: nat) =>
      if 1 <= month <= 12 then MonthOutput(server, year, month, DayEnd(year, month, today)) else None
  }

  /** The output of one month of a run, as its days give it. */
  lemma OutputsAt(server: Server, today: Date, year: nat, month: nat)
    requires Valid(today) && 1 <= month <= 12
    ensures Outputs(server, today)(year, month) == MonthOutput(server, year, month, DayEnd(year, month, today))
  {
  }

  /** The file an output writes: none or one. */
  function Emitted(output: Option<MonthFile>): (files: seq<MonthFile>)
    ensures |files| <= 1 && (files != [] <==> output.Some?)
    ensures forall f :: f in files ==> output == Some(f)
  {
    if output.Some? then [output.value] else []
  }

  /** The files written for the months from (year, month) through today's month, in order. */
  function FilesFrom(outputs: MonthOutputs, year: nat, month: nat, today: Date): seq<MonthFile>
    requires 1 <= month <= 12
    decreases MonthIndex(today.year, today.month) + 1 - MonthIndex(year, month)
  {
    if MonthIndex(year, month) > MonthIndex(today.year, today.month) then []
    else
      var next := NextMonth(year, month);
      Emitted(outputs(year, month)) + FilesFrom(outputs, next.0, next.1, today)
  }

  /** At most one file is written per month, and none after today's month. */
  lemma {:induction false} FilesFromAtMostOnePerMonth(outputs: MonthOutputs, year: nat, month: nat, today: Date)
    requires 1 <= month <= 12
    ensures |FilesFrom(outputs, year, month, today)|
      <= if MonthIndex(year, month) > MonthIndex(today.year, today.month) then 0
         else MonthIndex(today.year, today.month) + 1 - MonthIndex(year, month)
    decreases MonthIndex(today.year, today.month) + 1 - MonthIndex(year, month)
  {
    if MonthIndex(year, month) <= MonthIndex(today.year, today.month) {
      var next := NextMonth(year, month);
      FilesFromAtMostOnePerMonth(outputs, next.0, next.1, today);
    }
  }

  /** The days requested so far end just before `next` (and none were requested when `next` is the start). */
  ghost predicate Reached(days: seq<Date>, next: Date) {
    if days == [] then next == Start
    else days[0] == Start && Consecutive(days) && Next(days[|days| - 1]) == next
  }

  /** The days requested so far run from the start through `last`. */
  ghost predicate Done(days: seq<Date>, last: Date) {
    days != [] && days[0] == Start && Consecutive(days) && days[|days| - 1] == last
  }

  /** Requesting days 1..n of the month that comes next continues the run without a gap. */
  lemma AppendMonth(days: seq<Date>, year: nat, month: nat, n: nat, visited: seq<Date>)
    requires year >= 1 && 1 <= month <= 12 && 1 <= n <= DaysInMonth(year, month)
    requires |visited| == n && forall k :: 0 <= k < n ==> visited[k] == Date(year, month, k + 1)
    requires Reached(days, Date(year, month, 1))
    ensures Done(days + visited, Date(year, month, n))
  {
    var all := days + visited;
    assert Consecutive(visited) by {
      forall k | 0 <= k < n ensures Valid(visited[k]) { }
    }
    if days != [] {
      assert all[|days|] == Next(days[|days| - 1]);
      forall k | 0 <= k < |all| - 1 ensures all[k + 1] == Next(all[k]) {
        if k < |days| - 1 {
          assert all[k] == days[k] && all[k + 1] == days[k + 1];
        } else if k >= |days| {
          assert all[k] == visited[k - |days|] && all[k + 1] == visited[k + 1 - |days|];
        }
      }
    }
  }

  /** The files still to be written once the months before (year, month) are done; month 13 stands for January of the next year. */
  function Remaining(outputs: MonthOutputs, year: nat, month: nat, today: Date): seq<MonthFile>
    requires 1 <= month <= 13
  {
    if month == 13 then FilesFrom(outputs, year + 1, 1, today) else FilesFrom(outputs, year, month, today)
  }

  /** Appending a month's file, if any, to the files written so far leaves the months after it still to be written. */
  lemma FilesStep(outputs: MonthOutputs, year: nat, month: nat, today: Date, written: seq<MonthFile>)
    requires 1 <= month <= 12
    requires MonthIndex(year, month) <= MonthIndex(today.year, today.month)
    ensures (written + Emitted(outputs(year, month))) + Remaining(outputs, year, month + 1, today)
      == written + Remaining(outputs, year, month, today)
  {
    var head := Emitted(outputs(year, month));
    var rest := Remaining(outputs, year, month + 1, today);
    assert Remaining(outputs, year, month, today) == head + rest;
    assert written + (head + rest) == (written + head) + rest;
  }

  /** After the last month handled in a year, what remains is the next year's files (none after today's year). */
  lemma YearStep(outputs: MonthOutputs, year: nat, monthEnd: nat, today: Date)
    requires Valid(today) && year <= today.year
    requires monthEnd == if year < today.year then 12 else today.month
    ensures Remaining(outputs, year, monthEnd + 1, today) == FilesFrom(outputs, year + 1, 1, today)
  {
  }

  /** Once a whole month has been requested, the run has reached the first day of the next month. */
  lemma MonthCompleted(days: seq<Date>, year: nat, month: nat)
    requires year >= 1 && 1 <= month <= 12
    requires Done(days, Date(year, month, DaysInMonth(year, month)))
    ensures month < 12 ==> Reached(days, Date(year, month + 1, 1))
    ensures month == 12 ==> Reached(days, Date(year + 1, 1, 1))
  {
  }

  /** After a month of the year loop, the requested days have reached the month the loop handles next. */
  lemma MonthDaysStep(days: seq<Date>, today: Date, year: nat, month: nat, monthEnd: nat)
    requires Valid(today) && year <= today.year && 1 <= month <= monthEnd
    requires monthEnd == if year < today.year then 12 else today.month
    requires (year, month) == (today.year, today.month) ==> Done(days, today)
    requires (year, month) != (today.year, today.month) && month < 12 ==> Reached(days, Date(year, month + 1, 1))
    requires (year, month) != (today.year, today.month) && month == 12 ==> Reached(days, Date(year + 1, 1, 1))
    ensures month + 1 <= monthEnd ==> Reached(days, Date(year, month + 1, 1))
    ensures month + 1 > monthEnd && year < today.year ==> Reached(days, Date(year + 1, 1, 1))
    ensures month + 1 > monthEnd && year == today.year ==> Done(days, today)
  {
    if month < monthEnd {
      assert (year, month) != (today.year, today.month) && month < 12;
    } else if year < today.year {
      assert (year, month) != (today.year, today.month) && month == 12;
    } else {
      assert (year, month) == (today.year, today.month);
    }
  }

  /** A run of requested days from the start through today is every day in that range, once each and in order. */
  lemma DoneFacts(days: seq<Date>, today: Date)
    requires Valid(today) && Done(days, today)
    ensures forall i, j :: 0 <= i < j < |days| ==> Before(days[i], days[j])
    ensures forall d :: Valid(d) && !Before(d, Start) && !Before(today, d) ==> d in days
    ensures |days| == Ordinal(today) - Ordinal(Start) + 1
  {
    ConsecutiveIncreasing(days);
    forall d | Valid(d) && !Before(d, Start) && !Before(today, d) ensures d in days {
      ConsecutiveCovers(days, d);
    }
    ConsecutiveOrdinals(days);
  }

  /**
   * One pass of `main`'s month loop: collect the month's days (through
   * today in the current month) and write the month's file when it has
   * records. `written` and `days` extend what the earlier months wrote and
   * requested.
   */
  method WriteMonth(server: Server, today: Date, year: nat, month: nat, writtenBefore: seq<MonthFile>, daysBefore: seq<Date>)
    returns (written: seq<MonthFile>, days: seq<Date>)
    requires Valid(today) && year >= 1 && 1 <= month <= 12
    requires MonthIndex(year, month) <= MonthIndex(today.year, today.month)
    requires Reached(daysBefore, Date(year, month, 1))
    ensures written == writtenBefore + Emitted(Outputs(server, today)(year, month))
    ensures written + Remaining(Outputs(server, today), year, month + 1, today)
      == writtenBefore + Remaining(Outputs(server, today), year, month, today)
    ensures (year, month) == (today.year, today.month) ==> Done(days, today)
    ensures (year, month) != (today.year, today.month) && month < 12 ==> Reached(days, Date(year, month + 1, 1))
    ensures (year, month) != (today.year, today.month) && month == 12 ==> Reached(days, Date(year + 1, 1, 1))
  {
    var endYear, endMonth, endDay := today.year, today.month, today.day;
    var lastDay := DaysInMonth(year, month);
    var dayEnd := if year == endYear && month == endMonth then endDay else lastDay;
    var file, visited := CollectMonth(server, year, month, dayEnd);
    assert file == Outputs(server, today)(year, month) by {
      assert dayEnd == DayEnd(year, month, today);
      OutputsAt(server, today, year, month);
    }
    AppendMonth(daysBefore, year, month, dayEnd, visited);
    days := daysBefore + visited;
    written := writtenBefore;
    if file.Some? {
      written := written + [file.value];
    }
    if dayEnd == lastDay {
      MonthCompleted(days, year, month);
    }
    FilesStep(Outputs(server, today), year, month, today, writtenBefore);
  }

  /**
   * One pass of `main`'s year loop: handle each month of `year` up to
   * today's month. `written` and `days` extend what the earlier years
   * wrote and requested.
   */
  method CollectYear(server: Server, today: Date, year: nat, writtenBefore: seq<MonthFile>, daysBefore: seq<Date>)
    returns (written: seq<MonthFile>, days: seq<Date>)
    requires Valid(today) && StartYear <= year <= today.year
    requires Reached(daysBefore, Date(year, 1, 1))
    ensures written + FilesFrom(Outputs(server, today), year + 1, 1, today)
      == writtenBefore + FilesFrom(Outputs(server, today), year, 1, today)
    ensures year < today.year ==> Reached(days, Date(year + 1, 1, 1))
    ensures year == today.year ==> Done(days, today)
  {
    var endYear, endMonth := today.year, today.month;
    ghost var outputs := Outputs(server, today);
    ghost var whole := writtenBefore + FilesFrom(outputs, year, 1, today);
    written, days := writtenBefore, daysBefore;
    var monthStart := if year > StartYear then 1 else StartMonth;
    var monthEnd := if year < endYear then 12 else endMonth;
    assert Remaining(outputs, year, monthStart, today) == FilesFrom(outputs, year, 1, today);
    for month := monthStart to monthEnd + 1
      invariant written + Remaining(outputs, year, month, today) == whole
      invariant month <= monthEnd ==> Reached(days, Date(year, month, 1))
      invariant month > monthEnd && year < endYear ==> Reached(days, Date(year + 1, 1, 1))
      invariant month > monthEnd && year == endYear ==> Done(days, today)
    {
      written, days := WriteMonth(server, today, year, month, written, days);
      MonthDaysStep(days, today, year, month, monthEnd);
    }
    YearStep(outputs, year, monthEnd, today);
  }

  /**
   * `main`: for each year from 2009 through today's year, handle its months
   * up to today. `written` lists the files in the order they are written;
   * `days` lists the days requested.
   */
  method Run(server: Server, today: Date) returns (written: seq<MonthFile>, days: seq<Date>)
    requires Valid(today) && today.year <= 9999
    ensures written == FilesFrom(Outputs(server, today), StartYear, StartMonth, today)
    ensures Before(today, Start) ==> written == [] && days == []
    ensures !Before(today, Start) ==> days != [] && days[0] == Start && days[|days| - 1] == today
    ensures Consecutive(days)
    ensures forall i, j :: 0 <= i < j < |days| ==> Before(days[i], days[j])
    ensures forall d :: Valid(d) && !Before(d, Start) && !Before(today, d) ==> d in days
    ensures !Before(today, Start) ==> |days| == Ordinal(today) - Ordinal(Start) + 1
  {
    var endYear := today.year;
    ghost var outputs := Outputs(server, today);
    ghost var whole := FilesFrom(outputs, StartYear, StartMonth, today);
    written, days := [], [];
    if endYear < StartYear {
      return;
    }
    assert written + FilesFrom(outputs, StartYear, 1, today) == whole;
    for year := StartYear to endYear + 1
      invariant written + FilesFrom(outputs, year, 1, today) == whole
      invariant year <= endYear ==> Reached(days, Date(year, 1, 1))
      invariant year > endYear ==> Done(days, today)
    {
      written, days := CollectYear(server, today, year, written, days);
    }
    DoneFacts(days, today);
  }

  /** A file as `main` writes it: a ten-character name, and records of twelve fields dated in the file's month. */
  predicate WellFormedFile(f: MonthFile) {
    |f.name| == 10 && f.records != []
    && forall r :: r in f.records ==> |r| == RecordWidth && |r[0]| == 8 && r[0][..6] == f.name[..6]
  }

  /** A month's file, when it is written, is well formed. */
  lemma MonthOutputWellFormed(server: Server, year: nat, month: nat, n: nat)
    requires 1000 <= year <= 9999 && 1 <= month <= 12 && n < 100
    ensures MonthOutput(server, year, month, n).Some? ==> WellFormedFile(MonthOutput(server, year, month, n).value)
  {
    var output := MonthOutput(server, year, month, n);
    if output.Some? {
      FilenameRoundTrip(year, month);
      MonthRecordsDated(server, year, month, n);
      forall r | r in output.value.records
        ensures |r| == RecordWidth && |r[0]| == 8 && r[0][..6] == output.value.name[..6]
      {
        var d :| 1 <= d <= n && r[0] == DateString(year, month, d);
        FilenameMatchesDates(year, month, d);
      }
    }
  }

  /** The files of a run from (year, month) on are well formed. */
  lemma {:induction false} FilesFromWellFormed(server: Server, year: nat, month: nat, today: Date)
    requires Valid(today) && today.year <= 9999 && 1000 <= year && 1 <= month <= 12
    ensures forall f :: f in FilesFrom(Outputs(server, today), year, month, today) ==> WellFormedFile(f)
    decreases MonthIndex(today.year, today.month) + 1 - MonthIndex(year, month)
  {
    if MonthIndex(year, month) <= MonthIndex(today.year, today.month) {
      OutputsAt(server, today, year, month);
      MonthOutputWellFormed(server, year, month, DayEnd(year, month, today));
      var next := NextMonth(year, month);
      FilesFromWellFormed(server, next.0, next.1, today);
    }
  }

  /** Files in strictly increasing month order, by their names. */
  predicate OrderedByMonth(files: seq<MonthFile>) {
    forall i, j :: 0 <= i < j < |files| ==> NameMonthIndex(files[i].name) < NameMonthIndex(files[j].name)
  }

  /** Every month's file, when there is one, is named after its month. */
  ghost predicate NamedByMonth(outputs: MonthOutputs) {
    forall year: nat, month: nat :: 1 <= month <= 12 && outputs(year, month).Some? ==>
      outputs(year, month).value.name == Filename(year, month)
  }

  /** A run names each file after its month. */
  lemma OutputsNamedByMonth(server: Server, today: Date)
    requires Valid(today)
    ensures NamedByMonth(Outputs(server, today))
  {
    forall year: nat, month: nat | 1 <= month <= 12 && Outputs(server, today)(year, month).Some?
      ensures Outputs(server, today)(year, month).value.name == Filename(year, month)
    {
      OutputsAt(server, today, year, month);
    }
  }

  /** The files from (year, month) on are named after that month or a later one. */
  lemma {:induction false} FilesFromNamedAfter(outputs: MonthOutputs, year: nat, month: nat, today: Date)
    requires NamedByMonth(outputs) && Valid(today) && today.year <= 9999 && 1000 <= year && 1 <= month <= 12
    ensures forall f :: f in FilesFrom(outputs, year, month, today) ==>
      NameMonthIndex(f.name) >= MonthIndex(year, month)
    decreases MonthIndex(today.year, today.month) + 1 - MonthIndex(year, month)
  {
    if MonthIndex(year, month) <= MonthIndex(today.year, today.month) {
      FilenameRoundTrip(year, month);
      var next := NextMonth(year, month);
      FilesFromNamedAfter(outputs, next.0, next.1, today);
    }
  }

  /** The files from (year, month) on are written in strictly increasing month order. */
  lemma {:induction false} FilesFromOrdered(outputs: MonthOutputs, year: nat, month: nat, today: Date)
    requires NamedByMonth(outputs) && Valid(today) && today.year <= 9999 && 1000 <= year && 1 <= month <= 12
    ensures OrderedByMonth(FilesFrom(outputs, year, month, today))
    decreases MonthIndex(today.year, today.month) + 1 - MonthIndex(year, month)
  {
    if MonthIndex(year, month) <= MonthIndex(today.year, today.month) {
      FilenameRoundTrip(year, month);
      var next := NextMonth(year, month);
      FilesFromOrdered(outputs, next.0, next.1, today);
      FilesFromNamedAfter(outputs, next.0, next.1, today);
      var tail := FilesFrom(outputs, next.0, next.1, today);
      assert OrderedByMonth(tail);
      OrderedCons(Emitted(outputs(year, month)), tail, MonthIndex(year, month));
    }
  }

  /** Every file of a run is written as the fixed header followed by one row per record. */
  lemma RunCsvRows(server: Server, today: Date)
    requires Valid(today) && today.year <= 9999
    ensures forall f :: f in FilesFrom(Outputs(server, today), StartYear, StartMonth, today) ==>
      WellFormedFile(f) && |CsvRows(f)| == |f.records| + 1 && CsvRows(f)[0] == Header && CsvRows(f)[1..] == f.records
  {
    FilesFromWellFormed(server, StartYear, StartMonth, today);
  }

  /** Putting a file of an earlier month in front of files in increasing month order keeps the order. */
  lemma OrderedCons(head: seq<MonthFile>, tail: seq<MonthFile>, key: int)
    requires |head| <= 1 && forall f :: f in head ==> NameMonthIndex(f.name) == key
    requires forall f :: f in tail ==> NameMonthIndex(f.name) > key
    requires OrderedByMonth(tail)
    ensures OrderedByMonth(head + tail)
  {
    var all := head + tail;
    forall i, j | 0 <= i < j < |all|
      ensures NameMonthIndex(all[i].name) < NameMonthIndex(all[j].name)
    {
      assert all[j] == tail[j - |head|] && tail[j - |head|] in tail;
      if i >= |head| {
        assert all[i] == tail[i - |head|];
      } else {
        assert all[i] in head;
      }
    }
  }

  /** Over the whole run no file name is written twice. */
  lemma RunFilesDistinct(server: Server, today: Date)
    requires Valid(today) && today.year <= 9999
    ensures var files := FilesFrom(Outputs(server, today), StartYear, StartMonth, today);
      forall i, j :: 0 <= i < j < |files| ==> files[i].name != files[j].name
  {
    OutputsNamedByMonth(server, today);
    FilesFromOrdered(Outputs(server, today), StartYear, StartMonth, today);
  }
}
