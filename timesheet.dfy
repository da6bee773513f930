/**
 * Steps 1 to 5 of the transform: drop incomplete rows, drop duplicates, turn
 * clock cells into timestamps, drop inverted intervals, compute whole work
 * hours. Also a reference definition of an employee's hours in the month.
 */
module Timesheet {
  import opened Wrappers
  import opened Seqs
  import opened Calendar
  import opened Tables

  /** Both `checkin` and `checkout` are non-null. */
  predicate IsComplete(t: TimesheetRow) {
    t.checkin.Some? && t.checkout.Some?
  }

  /** Step 1: keep the rows whose `checkin` and `checkout` are both present. */
  function CleanNulls(ts: seq<TimesheetRow>): (r: seq<TimesheetRow>)
    ensures forall t :: t in r ==> t in ts && IsComplete(t)
    ensures forall t :: t in ts && IsComplete(t) ==> t in r
  {
    Filter(IsComplete, ts)
  }

  /** `strptime` accepts the row's date and both its clock cells. */
  predicate Parses(t: TimesheetRow)
    requires IsComplete(t)
  {
    ValidDate(t.date) && ValidClock(t.checkin.value) && ValidClock(t.checkout.value)
  }

  /** `datetime.strptime(date + ' ' + clock)` for both clock cells of a row. */
  function ParseRow(t: TimesheetRow): (p: ParsedRow)
    requires IsComplete(t)
    ensures p.employeeId == t.employeeId && p.date == t.date
    ensures Parses(t) ==> 0 <= p.checkin < 86400 && 0 <= p.checkout < 86400
  {
    ParsedRow(t.employeeId, t.date, SecondOfDay(t.checkin.value), SecondOfDay(t.checkout.value))
  }

  /** `apply(strptime)` over rows that all parse: each row's timestamps, in order. */
  function ParseAll(s: seq<TimesheetRow>): (r: seq<ParsedRow>)
    requires forall t :: t in s ==> IsComplete(t)
    ensures |r| == |s|
    ensures forall i :: 0 <= i < |s| ==> r[i] == ParseRow(s[i])
  {
    if |s| == 0 then [] else [ParseRow(s[0])] + ParseAll(s[1..])
  }

  /** Step 3: parse every row; a single row `strptime` rejects aborts the transform. */
  function ParseRows(s: seq<TimesheetRow>): (r: Result<seq<ParsedRow>, TransformError>)
    requires forall t :: t in s ==> IsComplete(t)
    ensures r.Ok? <==> forall t :: t in s ==> Parses(t)
    ensures r.Ok? ==> r.value == ParseAll(s)
  {
    if forall t :: t in s ==> Parses(t) then Ok(ParseAll(s)) else Err(TimestampParseError)
  }

  /** `checkin <= checkout`; both timestamps share the row's date, so their times of day decide. */
  predicate InOrder(p: ParsedRow) {
    p.checkin <= p.checkout
  }

  /** Step 4: keep the rows whose checkin is not after their checkout. */
  function DropInverted(ps: seq<ParsedRow>): (r: seq<ParsedRow>)
    ensures forall p :: p in r ==> p in ps && InOrder(p)
    ensures forall p :: p in ps && InOrder(p) ==> p in r
  {
    Filter(InOrder, ps)
  }

  /**
   * `(checkout - checkin).seconds // 3600`. `timedelta.seconds` is the
   * difference reduced into one day, [0, 86400).
   */
  function WorkHour(p: ParsedRow): (h: int)
    ensures 0 <= h <= 23
    ensures 0 <= p.checkin <= p.checkout < 86400 ==>
      h * 3600 <= p.checkout - p.checkin < (h + 1) * 3600
  {
    (p.checkout - p.checkin) % 86400 / 3600
  }

  /** Step 5: the `work_hour` column. */
  function WorkHours(ps: seq<ParsedRow>): (r: seq<WorkRow>)
    ensures |r| == |ps|
    ensures forall i :: 0 <= i < |ps| ==> r[i] == WorkRow(ps[i].employeeId, WorkHour(ps[i]))
  {
    if |ps| == 0 then [] else [WorkRow(ps[0].employeeId, WorkHour(ps[0]))] + WorkHours(ps[1..])
  }

  /** The hours of employee `e` summed over `work`. */
  function SumWork(work: seq<WorkRow>, e: EmployeeId): (r: int)
    ensures (forall w :: w in work ==> w.workHour >= 0) ==> r >= 0
  {
    if |work| == 0 then 0
    else (if work[0].employeeId == e then work[0].workHour else 0) + SumWork(work[1..], e)
  }

  /** Hours of an employee with no rows in `work` sum to zero. */
  lemma {:induction false} SumWorkAbsent(work: seq<WorkRow>, e: EmployeeId)
    requires SumWork(work, e) != 0
    ensures exists w :: w in work && w.employeeId == e
  {
    if work[0].employeeId != e {
      SumWorkAbsent(work[1..], e);
      var w :| w in work[1..] && w.employeeId == e;
      assert w in work;
    }
  }

  // ---- A reference definition of the hours an employee worked ----

  /** A complete row whose checkin clock is not after its checkout clock. */
  predicate IsUsable(t: TimesheetRow) {
    IsComplete(t) && SecondOfDay(t.checkin.value) <= SecondOfDay(t.checkout.value)
  }

  /** The distinct usable rows, first occurrences in order. */
  function UsableRows(ts: seq<TimesheetRow>): (r: seq<TimesheetRow>)
    ensures Distinct(r)
    ensures forall t :: t in r ==> t in ts && IsUsable(t)
    ensures forall t :: t in ts && IsUsable(t) ==> t in r
  {
    Dedup(Filter(IsUsable, ts))
  }

  /** Whole hours between checkin and checkout of a row. */
  function RowHours(t: TimesheetRow): int
    requires IsComplete(t)
  {
    (SecondOfDay(t.checkout.value) - SecondOfDay(t.checkin.value)) / 3600
  }

  function HoursOf(rows: seq<TimesheetRow>, e: EmployeeId): int
    requires forall t :: t in rows ==> IsComplete(t)
  {
    if |rows| == 0 then 0
    else (if rows[0].employeeId == e then RowHours(rows[0]) else 0) + HoursOf(rows[1..], e)
  }

  /** The whole hours employee `e` worked, over the distinct usable rows. */
  function EmployeeHours(ts: seq<TimesheetRow>, e: EmployeeId): int {
    HoursOf(UsableRows(ts), e)
  }

  // ---- The pipeline's steps 1 to 5 against the reference ----

  /**
   * Dropping inverted intervals after parsing is parsing only the usable rows.
   */
  lemma {:induction false} DropInvertedParsed(s: seq<TimesheetRow>)
    requires forall t :: t in s ==> IsComplete(t) && Parses(t)
    ensures DropInverted(ParseAll(s)) == ParseAll(Filter(IsUsable, s))
  {
    if |s| > 0 {
      assert s == [s[0]] + s[1..];
      var t := s[0];
      DropInvertedParsed(s[1..]);
      assert InOrder(ParseRow(t)) <==> IsUsable(t);
      assert ParseAll(s) == [ParseRow(t)] + ParseAll(s[1..]);
      FilterConcat(InOrder, [ParseRow(t)], ParseAll(s[1..]));
      assert Filter(InOrder, [ParseRow(t)]) == if IsUsable(t) then [ParseRow(t)] else [] by {
        assert [ParseRow(t)][1..] == [];
      }
      if IsUsable(t) {
        var fs := Filter(IsUsable, s);
        assert fs == [t] + Filter(IsUsable, s[1..]);
        assert fs[0] == t && fs[1..] == Filter(IsUsable, s[1..]);
      } else {
        assert Filter(IsUsable, s) == Filter(IsUsable, s[1..]);
      }
    }
  }

  /** After steps 1 to 4 the rows left are exactly the distinct usable rows, parsed. */
  lemma UsableAfterCleaning(ts: seq<TimesheetRow>)
    requires forall t :: t in ts && IsComplete(t) ==> Parses(t)
    ensures DropInverted(ParseAll(Dedup(CleanNulls(ts)))) == ParseAll(UsableRows(ts))
  {
    DropInvertedParsed(Dedup(CleanNulls(ts)));
    FilterDedup(IsUsable, CleanNulls(ts));
    FilterImplied(IsUsable, IsComplete, ts);
  }

  /** On a usable row that parses, `work_hour` is the row's whole hours. */
  lemma WorkHourOfUsable(t: TimesheetRow)
    requires IsUsable(t) && Parses(t)
    ensures WorkHour(ParseRow(t)) == RowHours(t)
  {
    WorkHourInDay(ParseRow(t));
  }

  /** Within one day `timedelta.seconds` is the plain difference. */
  lemma WorkHourInDay(p: ParsedRow)
    requires 0 <= p.checkin <= p.checkout < 86400
    ensures WorkHour(p) == (p.checkout - p.checkin) / 3600
  {
    var d := p.checkout - p.checkin;
    assert d % 86400 == d;
  }

  /** Summing `work_hour` over parsed usable rows is summing their whole hours. */
  lemma {:induction false} WorkHoursSum(rows: seq<TimesheetRow>, e: EmployeeId)
    requires forall t :: t in rows ==> IsComplete(t) && IsUsable(t) && Parses(t)
    ensures SumWork(WorkHours(ParseAll(rows)), e) == HoursOf(rows, e)
  {
    if |rows| > 0 {
      assert rows[0] in rows;
      assert forall t :: t in rows[1..] ==> t in rows;
      WorkHoursSum(rows[1..], e);
      var ps := ParseAll(rows);
      assert ps[1..] == ParseAll(rows[1..]);
      var w := WorkHours(ps);
      assert w[1..] == WorkHours(ps[1..]);
      WorkHourOfUsable(rows[0]);
    }
  }

  /** The hours the pipeline attributes to an employee are the reference hours. */
  lemma EmployeeHoursOfPipeline(ts: seq<TimesheetRow>, e: EmployeeId)
    requires forall t :: t in ts && IsComplete(t) ==> Parses(t)
    ensures SumWork(WorkHours(DropInverted(ParseAll(Dedup(CleanNulls(ts))))), e) == EmployeeHours(ts, e)
  {
    UsableAfterCleaning(ts);
    WorkHoursSum(UsableRows(ts), e);
  }
}
