/**
 * Concrete cases of the model: two salaries for one key with one shift, and a few
 * edge cases, each stated as an equality the verifier evaluates.
 */
module WorkedExamples {
  import opened Wrappers
  import opened Seqs
  import opened Calendar
  import opened Tables
  import opened Timesheet
  import opened Roster
  import opened Rollup
  import opened Extract
  import opened SalaryPerHour

  /** 08:00:00 to 17:00:00 is nine whole hours. */
  lemma NineHourShift()
    ensures WorkHour(ParsedRow(1, Date(2021, 1, 5), 8 * 3600, 17 * 3600)) == 9
  {
  }

  /** Equal checkin and checkout make zero hours. */
  lemma ZeroHourShift()
    ensures WorkHour(ParsedRow(1, Date(2021, 1, 5), 9 * 3600, 9 * 3600)) == 0
  {
  }

  const shift := TimesheetRow(1, Date(2021, 1, 5), Some(Clock(8, 0, 0)), Some(Clock(17, 0, 0)))
  const twoSalaries := [EmployeeRow(1, "A", 100), EmployeeRow(1, "A", 150)]

  /** Steps 1 to 5 on the single shift: one row of nine hours. */
  lemma ShiftWorkRows()
    ensures WorkRows([shift]) == Ok([WorkRow(1, 9)])
  {
    var t := shift;
    assert CleanNulls([t]) == [t];
    assert Dedup([t]) == [t];
    assert ParseRow(t) == ParsedRow(1, Date(2021, 1, 5), 8 * 3600, 17 * 3600);
    assert Parses(t);
    assert forall x :: x in [t] ==> Parses(x);
    assert ParseAll([t]) == [ParseRow(t)];
    assert DropInverted([ParseRow(t)]) == [ParseRow(t)];
    assert WorkHour(ParseRow(t)) == 9;
    assert WorkHours([ParseRow(t)]) == [WorkRow(1, 9)];
  }

  /** Step 6 on two salaries for one key: the larger one stays. */
  lemma TwoSalariesMax()
    ensures RosterMax(twoSalaries) == [EmployeeRow(1, "A", 150)]
  {
    var roster := twoSalaries;
    assert RosterKeys(roster) == [(1, "A"), (1, "A")];
    assert Dedup(RosterKeys(roster)) == [(1, "A")];
    assert MaxSalary(roster, 1, "A") == 150;
  }

  /** Steps 7 to 9: one group with nine hours and salary 150. */
  lemma ShiftGroups()
    ensures DropIdle(EmployeeRollup(LeftJoin([WorkRow(1, 9)], [EmployeeRow(1, "A", 150)]))) ==
      [EmployeeTotal("A", 1, 9, 150)]
  {
    var joined := [JoinedRow(1, 9, Some(BranchSalary("A", 150)))];
    assert LeftJoin([WorkRow(1, 9)], [EmployeeRow(1, "A", 150)]) == joined;
    assert Dedup(GroupKeys(joined)) == [("A", 1)];
    var totals := [EmployeeTotal("A", 1, 9, 150)];
    assert EmployeeRollup(joined) == totals;
  }

  /** Steps 10 to 12: 150 over 9 hours, truncated, stamped with the run's year and month. */
  lemma ShiftOutput()
    ensures forall b :: b in BranchRollup([EmployeeTotal("A", 1, 9, 150)]) ==> b.workHour > 0
    ensures Finish(BranchRollup([EmployeeTotal("A", 1, 9, 150)]), Date(2021, 1, 5)) == [OutputRow(2021, 1, "A", 16)]
  {
    var totals := [EmployeeTotal("A", 1, 9, 150)];
    assert Dedup(BranchIds(totals)) == ["A"];
    assert BranchRollup(totals) == [BranchTotal("A", 9, 150)];
    assert TruncDiv(150, 9) == 16;
  }

  /**
   * Two salaries for the same (employee, branch) key, one nine-hour shift:
   * the branch's rate is the larger salary over nine hours, truncated.
   */
  lemma SingleShift()
    ensures Transform(twoSalaries, [shift], Date(2021, 1, 5)) == Ok([OutputRow(2021, 1, "A", 16)])
  {
    ShiftWorkRows();
    TwoSalariesMax();
    ShiftGroups();
    ContributionsFrom(twoSalaries, [shift], [WorkRow(1, 9)]);
    TransformFrom(twoSalaries, [shift], Date(2021, 1, 5), [EmployeeTotal("A", 1, 9, 150)]);
    ShiftOutput();
  }

  const idleShift := TimesheetRow(1, Date(2021, 1, 5), Some(Clock(9, 0, 0)), Some(Clock(9, 0, 0)))

  /** Steps 1 to 5 on a shift with equal checkin and checkout: one row of zero hours. */
  lemma IdleWorkRows()
    ensures WorkRows([idleShift]) == Ok([WorkRow(1, 0)])
  {
    var t := idleShift;
    assert CleanNulls([t]) == [t];
    assert Dedup([t]) == [t];
    assert Parses(t);
    assert forall x :: x in [t] ==> Parses(x);
    assert ParseAll([t]) == [ParseRow(t)];
    assert DropInverted([ParseRow(t)]) == [ParseRow(t)];
    assert WorkHour(ParseRow(t)) == 0;
    assert WorkHours([ParseRow(t)]) == [WorkRow(1, 0)];
  }

  /** Steps 7 to 9 on a zero-hour row: its group is dropped. */
  lemma IdleGroups()
    ensures DropIdle(EmployeeRollup(LeftJoin([WorkRow(1, 0)], [EmployeeRow(1, "A", 150)]))) == []
  {
    var joined := [JoinedRow(1, 0, Some(BranchSalary("A", 150)))];
    assert LeftJoin([WorkRow(1, 0)], [EmployeeRow(1, "A", 150)]) == joined;
    assert Dedup(GroupKeys(joined)) == [("A", 1)];
    assert EmployeeRollup(joined) == [EmployeeTotal("A", 1, 0, 150)];
  }

  /**
   * A branch whose only shift has zero whole hours gets no row at all. The
   * source, handed the frame that step 9 leaves empty, aborts instead (its
   * `apply` at step 11 does not yield a column); the model returns no rows.
   */
  lemma ZeroHourBranch()
    ensures Transform(twoSalaries, [idleShift], Date(2021, 1, 5)) == Ok([])
  {
    IdleWorkRows();
    TwoSalariesMax();
    IdleGroups();
    ContributionsFrom(twoSalaries, [idleShift], [WorkRow(1, 0)]);
    TransformFrom(twoSalaries, [idleShift], Date(2021, 1, 5), []);
    assert BranchRollup([]) == [];
  }

  /** Step 6 on a one-row employees table leaves it as it is. */
  lemma OneRowMax()
    ensures RosterMax([EmployeeRow(2, "B", 300)]) == [EmployeeRow(2, "B", 300)]
  {
    var roster := [EmployeeRow(2, "B", 300)];
    assert RosterKeys(roster) == [(2, "B")];
    assert Dedup(RosterKeys(roster)) == [(2, "B")];
    assert MaxSalary(roster, 2, "B") == 300;
  }

  /** Steps 7 to 9 for an employee the employees table does not list: null branch, no group. */
  lemma UnknownGroups()
    ensures DropIdle(EmployeeRollup(LeftJoin([WorkRow(1, 9)], [EmployeeRow(2, "B", 300)]))) == []
  {
    var joined := [JoinedRow(1, 9, None)];
    assert LeftJoin([WorkRow(1, 9)], [EmployeeRow(2, "B", 300)]) == joined;
    assert GroupKeys(joined) == [];
    assert EmployeeRollup(joined) == [];
  }

  /** Steps 1 to 9 for an employee the employees table does not list: no group. */
  lemma UnknownContributions()
    ensures Contributions([EmployeeRow(2, "B", 300)], [shift]) == Ok([])
  {
    ShiftWorkRows();
    OneRowMax();
    UnknownGroups();
    ContributionsFrom([EmployeeRow(2, "B", 300)], [shift], [WorkRow(1, 9)]);
  }

  /**
   * An employee missing from the employees table contributes to no branch.
   * Here step 9 leaves no group, where the source aborts at step 11's
   * `apply` on the empty frame; the model returns no rows.
   */
  lemma UnknownEmployee()
    ensures Transform([EmployeeRow(2, "B", 300)], [shift], Date(2021, 1, 5)) == Ok([])
  {
    UnknownContributions();
    TransformFrom([EmployeeRow(2, "B", 300)], [shift], Date(2021, 1, 5), []);
    assert BranchRollup([]) == [];
  }

  /** A clock cell `strptime` rejects aborts the transform. */
  lemma BadClock()
    ensures Transform(twoSalaries, [TimesheetRow(1, Date(2021, 1, 5), Some(Clock(25, 0, 0)), Some(Clock(17, 0, 0)))], Date(2021, 1, 5)) == Err(TimestampParseError)
  {
    var t := TimesheetRow(1, Date(2021, 1, 5), Some(Clock(25, 0, 0)), Some(Clock(17, 0, 0)));
    assert IsComplete(t) && !Parses(t);
    assert !AllParse([t]);
  }

  /** With run date 2021-01-05 the window keeps the first of January and drops the sixth and the previous December. */
  lemma JanuaryWindow()
    ensures
      var first := TimesheetRow(1, Date(2021, 1, 1), None, None);
      var sixth := TimesheetRow(1, Date(2021, 1, 6), None, None);
      var december := TimesheetRow(1, Date(2020, 12, 31), None, None);
      var r := ExtractTimesheets([first, sixth, december], Date(2021, 1, 5));
      first in r && sixth !in r && december !in r
  {
    var first := TimesheetRow(1, Date(2021, 1, 1), None, None);
    var sixth := TimesheetRow(1, Date(2021, 1, 6), None, None);
    var december := TimesheetRow(1, Date(2020, 12, 31), None, None);
    ExtractWindow([first, sixth, december], Date(2021, 1, 5));
  }
}
