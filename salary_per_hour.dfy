/**
 * The transform stage as a whole: from the employees table, the month's
 * timesheet rows and the run date to the per-branch salary-per-hour table.
 */
module SalaryPerHour {
  import opened Wrappers
  import opened Seqs
  import opened Calendar
  import opened Tables
  import opened Timesheet
  import opened Roster
  import opened Rollup

  /** Every complete timesheet row passes `strptime`. */
  predicate AllParse(timesheet: seq<TimesheetRow>) {
    forall t :: t in timesheet && IsComplete(t) ==> Parses(t)
  }

  /** The hourly rows of steps 1 to 5. */
  function WorkRows(timesheet: seq<TimesheetRow>): (r: Result<seq<WorkRow>, TransformError>)
    ensures r.Ok? <==> AllParse(timesheet)
    ensures r.Ok? ==> forall w :: w in r.value ==> 0 <= w.workHour <= 23
  {
    var unique := Dedup(CleanNulls(timesheet));
    var parsed :- ParseRows(unique);
    Ok(WorkHours(DropInverted(parsed)))
  }

  /** Steps 1 to 9: the (branch, employee) groups with positive hours. */
  function Contributions(roster: seq<EmployeeRow>, timesheet: seq<TimesheetRow>): (r: Result<seq<EmployeeTotal>, TransformError>)
    ensures r.Ok? <==> AllParse(timesheet)
    ensures r.Ok? ==> forall g :: g in r.value ==> g.workHour > 0
  {
    var work :- WorkRows(timesheet);
    Ok(DropIdle(EmployeeRollup(LeftJoin(work, RosterMax(roster)))))
  }

  /** `SalaryPerHour.transform`: steps 1 to 12, aborting when a timestamp does not parse. */
  function Transform(roster: seq<EmployeeRow>, timesheet: seq<TimesheetRow>, date: Date): (r: Result<seq<OutputRow>, TransformError>)
    ensures r.Ok? <==> AllParse(timesheet)
    ensures r.Ok? ==> forall o :: o in r.value ==> o.year == date.year && o.month == date.month
    ensures r.Ok? ==> forall i, j :: 0 <= i < j < |r.value| ==> r.value[i].branchId != r.value[j].branchId
  {
    var totals :- Contributions(roster, timesheet);
    BranchHoursPositive(totals);
    Ok(Finish(BranchRollup(totals), date))
  }

  /** Steps 6 to 9 applied to the hourly rows. */
  lemma ContributionsFrom(roster: seq<EmployeeRow>, timesheet: seq<TimesheetRow>, work: seq<WorkRow>)
    requires WorkRows(timesheet) == Ok(work)
    ensures Contributions(roster, timesheet) == Ok(DropIdle(EmployeeRollup(LeftJoin(work, RosterMax(roster)))))
  {
  }

  /** Steps 10 to 12 applied to the groups. */
  lemma TransformFrom(roster: seq<EmployeeRow>, timesheet: seq<TimesheetRow>, date: Date, groups: seq<EmployeeTotal>)
    requires Contributions(roster, timesheet) == Ok(groups)
    ensures forall x :: x in BranchRollup(groups) ==> x.workHour > 0
    ensures Transform(roster, timesheet, date) == Ok(Finish(BranchRollup(groups), date))
  {
    BranchHoursPositive(groups);
  }

  // ---- What the groups are ----

  /** The work rows give each employee the reference hours. */
  lemma WorkRowsHours(timesheet: seq<TimesheetRow>, work: seq<WorkRow>, e: EmployeeId)
    requires WorkRows(timesheet) == Ok(work)
    ensures SumWork(work, e) == EmployeeHours(timesheet, e)
  {
    EmployeeHoursOfPipeline(timesheet, e);
  }

  /** One group of step 9: a key of the employees table, the reference hours, the key's largest salary. */
  lemma GroupIsContribution(roster: seq<EmployeeRow>, timesheet: seq<TimesheetRow>, work: seq<WorkRow>, g: EmployeeTotal)
    requires WorkRows(timesheet) == Ok(work)
    requires g in EmployeeRollup(LeftJoin(work, RosterMax(roster)))
    ensures (g.employeeId, g.branchId) in RosterKeys(roster)
    ensures g.workHour == EmployeeHours(timesheet, g.employeeId)
    ensures g.salary == MaxSalary(roster, g.employeeId, g.branchId)
  {
    var rm := RosterMax(roster);
    RollupGroup(work, rm, g);
    WorkRowsHours(timesheet, work, g.employeeId);
    var x :| x in rm && RosterKey(x) == (g.employeeId, g.branchId);
  }

  /** A key of the employees table whose employee worked positive hours has a group after step 9. */
  lemma ContributionIsGroup(roster: seq<EmployeeRow>, timesheet: seq<TimesheetRow>, work: seq<WorkRow>, k: (EmployeeId, BranchId))
    requires WorkRows(timesheet) == Ok(work)
    requires k in RosterKeys(roster) && EmployeeHours(timesheet, k.0) > 0
    ensures (k.1, k.0) in TotalKeys(DropIdle(EmployeeRollup(LeftJoin(work, RosterMax(roster)))))
  {
    WorkRowsHours(timesheet, work, k.0);
    RollupKey(work, RosterMax(roster), k.1, k.0);
  }

  /**
   * The groups of step 9 are exactly the (employee, branch) keys of the
   * employees table whose employee worked a positive number of whole hours;
   * each appears once, with those hours and with the key's largest salary.
   */
  lemma ContributionsExact(roster: seq<EmployeeRow>, timesheet: seq<TimesheetRow>, groups: seq<EmployeeTotal>)
    requires Contributions(roster, timesheet) == Ok(groups)
    ensures Distinct(TotalKeys(groups))
    ensures forall g :: g in groups ==>
      (g.employeeId, g.branchId) in RosterKeys(roster) &&
      g.workHour == EmployeeHours(timesheet, g.employeeId) > 0 &&
      g.salary == MaxSalary(roster, g.employeeId, g.branchId)
    ensures forall k :: k in RosterKeys(roster) && EmployeeHours(timesheet, k.0) > 0 ==>
      (k.1, k.0) in TotalKeys(groups)
  {
    var work := WorkRows(timesheet).value;
    ContributionsFrom(roster, timesheet, work);
    forall g | g in groups
      ensures (g.employeeId, g.branchId) in RosterKeys(roster)
      ensures g.workHour == EmployeeHours(timesheet, g.employeeId)
      ensures g.salary == MaxSalary(roster, g.employeeId, g.branchId)
    {
      GroupIsContribution(roster, timesheet, work, g);
    }
    forall k | k in RosterKeys(roster) && EmployeeHours(timesheet, k.0) > 0
      ensures (k.1, k.0) in TotalKeys(groups)
    {
      ContributionIsGroup(roster, timesheet, work, k);
    }
  }

  // ---- What the output is ----

  /** A result row's branch holds a roster key whose employee worked positive hours. */
  lemma OutputRowHasKey(roster: seq<EmployeeRow>, timesheet: seq<TimesheetRow>, groups: seq<EmployeeTotal>, out: seq<OutputRow>, date: Date, o: OutputRow)
    requires Contributions(roster, timesheet) == Ok(groups)
    requires forall b :: b in BranchRollup(groups) ==> b.workHour > 0
    requires out == Finish(BranchRollup(groups), date)
    requires o in out
    ensures exists k :: k in RosterKeys(roster) && k.1 == o.branchId && EmployeeHours(timesheet, k.0) > 0
  {
    var g := FinishRowGroup(groups, date, o);
    ContributionsExact(roster, timesheet, groups);
    var k := (g.employeeId, g.branchId);
    assert k in RosterKeys(roster) && k.1 == o.branchId && EmployeeHours(timesheet, k.0) > 0;
  }

  /** A roster key whose employee worked positive hours has its branch in the result. */
  lemma KeyHasOutputRow(roster: seq<EmployeeRow>, timesheet: seq<TimesheetRow>, groups: seq<EmployeeTotal>, out: seq<OutputRow>, date: Date, k: (EmployeeId, BranchId))
    requires Contributions(roster, timesheet) == Ok(groups)
    requires forall b :: b in BranchRollup(groups) ==> b.workHour > 0
    requires out == Finish(BranchRollup(groups), date)
    requires k in RosterKeys(roster) && EmployeeHours(timesheet, k.0) > 0
    ensures exists o :: o in out && o.branchId == k.1
  {
    ContributionsExact(roster, timesheet, groups);
    var g := TotalKeyRow(groups, (k.1, k.0));
    var o := GroupFinishRow(groups, date, g);
  }

  /**
   * A branch has a result row exactly when one of its employees worked a
   * positive number of whole hours; a branch whose employees all sum to zero
   * hours, or an employee missing from the employees table, produce none.
   */
  lemma OutputBranches(roster: seq<EmployeeRow>, timesheet: seq<TimesheetRow>, date: Date, out: seq<OutputRow>)
    requires Transform(roster, timesheet, date) == Ok(out)
    ensures forall o :: o in out ==>
      exists k :: k in RosterKeys(roster) && k.1 == o.branchId && EmployeeHours(timesheet, k.0) > 0
    ensures forall k :: k in RosterKeys(roster) && EmployeeHours(timesheet, k.0) > 0 ==>
      exists o :: o in out && o.branchId == k.1
  {
    var groups := Contributions(roster, timesheet).value;
    TransformFrom(roster, timesheet, date, groups);
    forall o | o in out
      ensures exists k :: k in RosterKeys(roster) && k.1 == o.branchId && EmployeeHours(timesheet, k.0) > 0
    {
      OutputRowHasKey(roster, timesheet, groups, out, date, o);
    }
    forall k | k in RosterKeys(roster) && EmployeeHours(timesheet, k.0) > 0
      ensures exists o :: o in out && o.branchId == k.1
    {
      KeyHasOutputRow(roster, timesheet, groups, out, date, k);
    }
  }

  /**
   * Each result row's `salary_per_hour` is its branch's summed salary over
   * its branch's summed hours, truncated toward zero; the hours are positive.
   */
  lemma OutputRatio(roster: seq<EmployeeRow>, timesheet: seq<TimesheetRow>, date: Date, out: seq<OutputRow>, groups: seq<EmployeeTotal>)
    requires Transform(roster, timesheet, date) == Ok(out)
    requires Contributions(roster, timesheet) == Ok(groups)
    ensures forall o :: o in out ==>
      HoursSum(groups, o.branchId) > 0 &&
      o.salaryPerHour == TruncDiv(SalarySum(groups, o.branchId), HoursSum(groups, o.branchId))
  {
    TransformFrom(roster, timesheet, date, groups);
    forall o | o in out
      ensures HoursSum(groups, o.branchId) > 0
      ensures o.salaryPerHour == TruncDiv(SalarySum(groups, o.branchId), HoursSum(groups, o.branchId))
    {
      FinishRatio(groups, date, o);
    }
  }

  /**
   * With non-negative salaries in the employees table, each result row's
   * `salary_per_hour` is the floor of its branch's salary over its hours.
   */
  lemma OutputFloor(roster: seq<EmployeeRow>, timesheet: seq<TimesheetRow>, date: Date, out: seq<OutputRow>, groups: seq<EmployeeTotal>)
    requires Transform(roster, timesheet, date) == Ok(out)
    requires Contributions(roster, timesheet) == Ok(groups)
    requires forall x :: x in roster ==> x.salary >= 0
    ensures forall o :: o in out ==>
      0 <= o.salaryPerHour &&
      o.salaryPerHour * HoursSum(groups, o.branchId) <= SalarySum(groups, o.branchId) <
      (o.salaryPerHour + 1) * HoursSum(groups, o.branchId)
  {
    OutputRatio(roster, timesheet, date, out, groups);
    GroupSalariesNonnegative(roster, timesheet, groups);
    forall o | o in out
      ensures 0 <= o.salaryPerHour &&
        o.salaryPerHour * HoursSum(groups, o.branchId) <= SalarySum(groups, o.branchId) <
        (o.salaryPerHour + 1) * HoursSum(groups, o.branchId)
    {
      RowFloor(groups, o);
    }
  }

  /** A row whose rate is its branch's truncated ratio, over groups with non-negative salaries, holds the floor. */
  lemma RowFloor(groups: seq<EmployeeTotal>, o: OutputRow)
    requires forall g :: g in groups ==> g.salary >= 0
    requires HoursSum(groups, o.branchId) > 0
    requires o.salaryPerHour == TruncDiv(SalarySum(groups, o.branchId), HoursSum(groups, o.branchId))
    ensures 0 <= o.salaryPerHour &&
      o.salaryPerHour * HoursSum(groups, o.branchId) <= SalarySum(groups, o.branchId) <
      (o.salaryPerHour + 1) * HoursSum(groups, o.branchId)
  {
    SalarySumNonnegative(groups, o.branchId);
  }

  /** With non-negative salaries in the employees table, every group's salary is non-negative. */
  lemma GroupSalariesNonnegative(roster: seq<EmployeeRow>, timesheet: seq<TimesheetRow>, groups: seq<EmployeeTotal>)
    requires Contributions(roster, timesheet) == Ok(groups)
    requires forall x :: x in roster ==> x.salary >= 0
    ensures forall g :: g in groups ==> g.salary >= 0
  {
    ContributionsExact(roster, timesheet, groups);
  }

  // ---- Rows that cannot matter ----

  /** The transform sees the timesheet only through its usable rows and whether every complete row parses. */
  lemma TransformDependsOnUsable(roster: seq<EmployeeRow>, ts1: seq<TimesheetRow>, ts2: seq<TimesheetRow>, date: Date)
    requires AllParse(ts1) == AllParse(ts2)
    requires UsableRows(ts1) == UsableRows(ts2)
    ensures Transform(roster, ts1, date) == Transform(roster, ts2, date)
  {
    if AllParse(ts1) {
      SameUsableRows(ts1, ts2);
    }
    SameWorkRows(roster, ts1, ts2, date);
  }

  /** Steps 1 to 5 see a fully parsing timesheet only through its distinct usable rows. */
  lemma SameUsableRows(ts1: seq<TimesheetRow>, ts2: seq<TimesheetRow>)
    requires AllParse(ts1) && AllParse(ts2)
    requires UsableRows(ts1) == UsableRows(ts2)
    ensures WorkRows(ts1) == WorkRows(ts2)
  {
    UsableAfterCleaning(ts1);
    UsableAfterCleaning(ts2);
  }

  /** The transform sees the timesheet only through the hourly rows of step 5. */
  lemma SameWorkRows(roster: seq<EmployeeRow>, ts1: seq<TimesheetRow>, ts2: seq<TimesheetRow>, date: Date)
    requires WorkRows(ts1) == WorkRows(ts2)
    ensures Transform(roster, ts1, date) == Transform(roster, ts2, date)
  {
    assert Contributions(roster, ts1) == Contributions(roster, ts2);
  }

  /** Inserting a row that is not usable, and that parses if it is complete, keeps the usable rows and the parse outcome. */
  lemma InsertUnusable(a: seq<TimesheetRow>, t: TimesheetRow, b: seq<TimesheetRow>)
    requires !IsUsable(t)
    requires IsComplete(t) ==> Parses(t)
    ensures UsableRows(a + [t] + b) == UsableRows(a + b)
    ensures AllParse(a + [t] + b) == AllParse(a + b)
  {
    FilterSkip(IsUsable, a, t, b);
    assert forall x :: x in a + [t] + b ==> x in a + b || x == t;
    assert forall x :: x in a + b ==> x in a + [t] + b;
  }

  /** A row missing its checkin or its checkout changes nothing. */
  lemma NullRowIgnored(roster: seq<EmployeeRow>, a: seq<TimesheetRow>, t: TimesheetRow, b: seq<TimesheetRow>, date: Date)
    requires !IsComplete(t)
    ensures Transform(roster, a + [t] + b, date) == Transform(roster, a + b, date)
  {
    InsertUnusable(a, t, b);
    TransformDependsOnUsable(roster, a + [t] + b, a + b, date);
  }

  /** A row whose checkin is after its checkout changes nothing, as long as it parses. */
  lemma InvertedRowIgnored(roster: seq<EmployeeRow>, a: seq<TimesheetRow>, t: TimesheetRow, b: seq<TimesheetRow>, date: Date)
    requires IsComplete(t) && Parses(t)
    requires SecondOfDay(t.checkin.value) > SecondOfDay(t.checkout.value)
    ensures Transform(roster, a + [t] + b, date) == Transform(roster, a + b, date)
  {
    InsertUnusable(a, t, b);
    TransformDependsOnUsable(roster, a + [t] + b, a + b, date);
  }
}
