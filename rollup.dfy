/**
 * Steps 7 to 12 of the transform: the left join onto the employees table, the
 * (branch, employee) roll-up, the positive-hours filter, the branch roll-up
 * and the salary-per-hour column.
 */
module Rollup {
  import opened Wrappers
  import opened Seqs
  import opened Calendar
  import opened Tables
  import opened Roster
  import opened Timesheet

  // ---- Step 7: pd.merge(timesheet, employees, how='left', on='employee_id') ----

  /** One joined row per employees row of the same employee, in the employees table's order. */
  function JoinMatches(w: WorkRow, rm: seq<EmployeeRow>): (r: seq<JoinedRow>)
    ensures forall j :: j in r ==>
      j.employeeId == w.employeeId && j.workHour == w.workHour && j.roster.Some? &&
      EmployeeRow(w.employeeId, j.roster.value.branchId, j.roster.value.salary) in rm
    ensures forall x :: x in rm && x.employeeId == w.employeeId ==>
      JoinedRow(w.employeeId, w.workHour, Some(BranchSalary(x.branchId, x.salary))) in r
  {
    if |rm| == 0 then []
    else
      assert rm == [rm[0]] + rm[1..];
      (if rm[0].employeeId == w.employeeId
       then [JoinedRow(w.employeeId, w.workHour, Some(BranchSalary(rm[0].branchId, rm[0].salary)))]
       else []) + JoinMatches(w, rm[1..])
  }

  /** The joined rows of one timesheet row: its matches, or one row with null branch and salary. */
  function JoinRow(w: WorkRow, rm: seq<EmployeeRow>): (r: seq<JoinedRow>)
    ensures forall j :: j in r ==> WorkRow(j.employeeId, j.workHour) == w
    ensures forall j :: j in r && j.roster.Some? ==>
      EmployeeRow(j.employeeId, j.roster.value.branchId, j.roster.value.salary) in rm
    ensures forall j :: j in r && j.roster.None? ==> forall x :: x in rm ==> x.employeeId != w.employeeId
    ensures forall x :: x in rm && x.employeeId == w.employeeId ==>
      JoinedRow(w.employeeId, w.workHour, Some(BranchSalary(x.branchId, x.salary))) in r
    ensures (forall x :: x in rm ==> x.employeeId != w.employeeId) ==> r == [JoinedRow(w.employeeId, w.workHour, None)]
  {
    var m := JoinMatches(w, rm);
    if |m| == 0 then [JoinedRow(w.employeeId, w.workHour, None)]
    else
      assert m[0] in m;
      m
  }

  /**
   * The left join: each timesheet row, in order, once per matching employees
   * row; a row without a match is kept once with a null branch and salary.
   */
  function LeftJoin(work: seq<WorkRow>, rm: seq<EmployeeRow>): (r: seq<JoinedRow>)
    ensures forall j :: j in r ==> WorkRow(j.employeeId, j.workHour) in work
    ensures forall j :: j in r && j.roster.Some? ==>
      EmployeeRow(j.employeeId, j.roster.value.branchId, j.roster.value.salary) in rm
    ensures forall j :: j in r && j.roster.None? ==> forall x :: x in rm ==> x.employeeId != j.employeeId
    ensures forall w, x :: w in work && x in rm && x.employeeId == w.employeeId ==>
      JoinedRow(w.employeeId, w.workHour, Some(BranchSalary(x.branchId, x.salary))) in r
    ensures forall w :: w in work && (forall x :: x in rm ==> x.employeeId != w.employeeId) ==>
      JoinedRow(w.employeeId, w.workHour, None) in r
  {
    if |work| == 0 then []
    else
      assert work == [work[0]] + work[1..];
      JoinRow(work[0], rm) + LeftJoin(work[1..], rm)
  }

  // ---- Step 8: groupby(['branch_id', 'employee_id']).agg(work_hour: sum, salary: max) ----

  /** A joined row of employee `e` in branch `b`; rows with a null branch belong to no group. */
  predicate InGroup(j: JoinedRow, b: BranchId, e: EmployeeId) {
    j.roster.Some? && j.roster.value.branchId == b && j.employeeId == e
  }

  /** The (branch, employee) key of every joined row whose branch is not null. */
  function GroupKeys(joined: seq<JoinedRow>): (r: seq<(BranchId, EmployeeId)>)
    ensures forall j :: j in joined && j.roster.Some? ==> (j.roster.value.branchId, j.employeeId) in r
    ensures forall k :: k in r ==> exists j :: j in joined && InGroup(j, k.0, k.1)
  {
    if |joined| == 0 then []
    else
      assert joined == [joined[0]] + joined[1..];
      var j := joined[0];
      var head := if j.roster.Some? then [(j.roster.value.branchId, j.employeeId)] else [];
      var rest := GroupKeys(joined[1..]);
      assert forall k :: k in head ==> InGroup(j, k.0, k.1);
      assert forall k :: k in rest ==> exists j' :: j' in joined && InGroup(j', k.0, k.1);
      head + rest
  }

  /** The summed `work_hour` of a group. */
  function SumHours(joined: seq<JoinedRow>, b: BranchId, e: EmployeeId): int {
    if |joined| == 0 then 0
    else (if InGroup(joined[0], b, e) then joined[0].workHour else 0) + SumHours(joined[1..], b, e)
  }

  /** The largest `salary` of a group. */
  function GroupMaxSalary(joined: seq<JoinedRow>, b: BranchId, e: EmployeeId): (r: int)
    requires exists j :: j in joined && InGroup(j, b, e)
    ensures exists j :: j in joined && InGroup(j, b, e) && j.roster.value.salary == r
    ensures forall j :: j in joined && InGroup(j, b, e) ==> j.roster.value.salary <= r
  {
    assert joined == [joined[0]] + joined[1..];
    var j := joined[0];
    if InGroup(j, b, e) then
      if exists j' :: j' in joined[1..] && InGroup(j', b, e) then
        var m := GroupMaxSalary(joined[1..], b, e);
        if j.roster.value.salary < m then m else j.roster.value.salary
      else j.roster.value.salary
    else GroupMaxSalary(joined[1..], b, e)
  }

  function TotalKey(t: EmployeeTotal): (BranchId, EmployeeId) {
    (t.branchId, t.employeeId)
  }

  function TotalKeys(totals: seq<EmployeeTotal>): (r: seq<(BranchId, EmployeeId)>)
    ensures |r| == |totals|
    ensures forall i :: 0 <= i < |totals| ==> r[i] == TotalKey(totals[i])
    ensures forall t :: t in totals ==> TotalKey(t) in r
  {
    if |totals| == 0 then []
    else
      assert totals == [totals[0]] + totals[1..];
      [TotalKey(totals[0])] + TotalKeys(totals[1..])
  }

  /** Every key of a list of groups is the key of one of them. */
  lemma TotalKeyRow(totals: seq<EmployeeTotal>, k: (BranchId, EmployeeId)) returns (t: EmployeeTotal)
    requires k in TotalKeys(totals)
    ensures t in totals && TotalKey(t) == k
  {
    var i :| 0 <= i < |totals| && TotalKeys(totals)[i] == k;
    t := totals[i];
  }

  /** The group row of each key in `keys`. */
  function GroupRows(joined: seq<JoinedRow>, keys: seq<(BranchId, EmployeeId)>): (r: seq<EmployeeTotal>)
    requires forall k :: k in keys ==> exists j :: j in joined && InGroup(j, k.0, k.1)
    ensures TotalKeys(r) == keys
    ensures forall t :: t in r ==> TotalKey(t) in keys
    ensures forall t :: t in r ==>
      t.workHour == SumHours(joined, t.branchId, t.employeeId) &&
      t.salary == GroupMaxSalary(joined, t.branchId, t.employeeId)
  {
    if |keys| == 0 then []
    else
      var k := keys[0];
      assert keys == [k] + keys[1..];
      assert forall k' :: k' in keys[1..] ==> k' in keys;
      var rest := GroupRows(joined, keys[1..]);
      var r := [EmployeeTotal(k.0, k.1, SumHours(joined, k.0, k.1), GroupMaxSalary(joined, k.0, k.1))] + rest;
      assert r[1..] == rest;
      r
  }

  /** Step 8: one row per (branch, employee) key, in order of first appearance. */
  function EmployeeRollup(joined: seq<JoinedRow>): (r: seq<EmployeeTotal>)
    ensures Distinct(TotalKeys(r))
    ensures forall k :: k in TotalKeys(r) ==> k in GroupKeys(joined)
    ensures forall k :: k in GroupKeys(joined) ==> k in TotalKeys(r)
    ensures forall t :: t in r ==>
      (exists j :: j in joined && InGroup(j, t.branchId, t.employeeId)) &&
      t.workHour == SumHours(joined, t.branchId, t.employeeId) &&
      t.salary == GroupMaxSalary(joined, t.branchId, t.employeeId)
  {
    GroupRows(joined, Dedup(GroupKeys(joined)))
  }

  // ---- What the join hands to the (branch, employee) roll-up ----

  lemma {:induction false} SumHoursConcat(a: seq<JoinedRow>, c: seq<JoinedRow>, b: BranchId, e: EmployeeId)
    ensures SumHours(a + c, b, e) == SumHours(a, b, e) + SumHours(c, b, e)
  {
    if |a| > 0 {
      assert (a + c)[0] == a[0] && (a + c)[1..] == a[1..] + c;
      SumHoursConcat(a[1..], c, b, e);
    } else {
      assert a + c == c;
    }
  }

  /** Against a table with distinct keys, a timesheet row meets its (employee, branch) at most once. */
  lemma {:induction false} JoinMatchesHours(w: WorkRow, rm: seq<EmployeeRow>, b: BranchId, e: EmployeeId)
    requires Distinct(RosterKeys(rm))
    ensures SumHours(JoinMatches(w, rm), b, e) ==
      if w.employeeId == e && (e, b) in RosterKeys(rm) then w.workHour else 0
  {
    if |rm| > 0 {
      RosterKeysCons(rm);
      DistinctCons(RosterKey(rm[0]), RosterKeys(rm[1..]));
      JoinMatchesHours(w, rm[1..], b, e);
      var head := if rm[0].employeeId == w.employeeId
        then [JoinedRow(w.employeeId, w.workHour, Some(BranchSalary(rm[0].branchId, rm[0].salary)))]
        else [];
      SumHoursConcat(head, JoinMatches(w, rm[1..]), b, e);
      if head != [] {
        assert SumHours(head, b, e) == (if InGroup(head[0], b, e) then w.workHour else 0) by {
          assert head[1..] == [];
        }
      }
    }
  }

  /**
   * Against a table with distinct keys, the hours the join gives the group
   * (`b`, `e`) are all of `e`'s hours when (`e`, `b`) is a key, and none otherwise.
   */
  lemma {:induction false} JoinHours(work: seq<WorkRow>, rm: seq<EmployeeRow>, b: BranchId, e: EmployeeId)
    requires Distinct(RosterKeys(rm))
    ensures SumHours(LeftJoin(work, rm), b, e) == if (e, b) in RosterKeys(rm) then SumWork(work, e) else 0
  {
    if |work| > 0 {
      var w := work[0];
      JoinHours(work[1..], rm, b, e);
      SumHoursConcat(JoinRow(w, rm), LeftJoin(work[1..], rm), b, e);
      JoinMatchesHours(w, rm, b, e);
      if |JoinMatches(w, rm)| == 0 {
        var nullRow := JoinedRow(w.employeeId, w.workHour, None);
        assert JoinRow(w, rm) == [nullRow];
        assert SumHours([nullRow], b, e) == 0 by {
          assert [nullRow][1..] == [];
        }
      }
    }
  }

  /** A group exists exactly for an employee with timesheet rows and a key of the table. */
  lemma JoinKeys(work: seq<WorkRow>, rm: seq<EmployeeRow>, b: BranchId, e: EmployeeId)
    ensures (b, e) in GroupKeys(LeftJoin(work, rm)) <==>
      (exists w :: w in work && w.employeeId == e) && (e, b) in RosterKeys(rm)
  {
    var joined := LeftJoin(work, rm);
    if (b, e) in GroupKeys(joined) {
      var j :| j in joined && InGroup(j, b, e);
      assert WorkRow(j.employeeId, j.workHour) in work;
      assert RosterKey(EmployeeRow(e, b, j.roster.value.salary)) in RosterKeys(rm);
    }
    if (exists w :: w in work && w.employeeId == e) && (e, b) in RosterKeys(rm) {
      var w :| w in work && w.employeeId == e;
      var x :| x in rm && RosterKey(x) == (e, b);
      var j := JoinedRow(w.employeeId, w.workHour, Some(BranchSalary(x.branchId, x.salary)));
      assert j in joined;
    }
  }

  /** Against a table with distinct keys, a group's largest salary is its key's salary in the table. */
  lemma JoinSalary(work: seq<WorkRow>, rm: seq<EmployeeRow>, b: BranchId, e: EmployeeId, x: EmployeeRow)
    requires Distinct(RosterKeys(rm))
    requires exists j :: j in LeftJoin(work, rm) && InGroup(j, b, e)
    requires x in rm && RosterKey(x) == (e, b)
    ensures GroupMaxSalary(LeftJoin(work, rm), b, e) == x.salary
  {
    var joined := LeftJoin(work, rm);
    var m := GroupMaxSalary(joined, b, e);
    var j :| j in joined && InGroup(j, b, e) && j.roster.value.salary == m;
    DistinctKeysUnique(rm, x, EmployeeRow(e, b, m));
  }

  /**
   * Against a table with distinct keys, a group of the roll-up is a key of the
   * table, carries all of its employee's hours and the key's salary.
   */
  lemma RollupGroup(work: seq<WorkRow>, rm: seq<EmployeeRow>, g: EmployeeTotal)
    requires Distinct(RosterKeys(rm))
    requires g in EmployeeRollup(LeftJoin(work, rm))
    ensures (g.employeeId, g.branchId) in RosterKeys(rm)
    ensures g.workHour == SumWork(work, g.employeeId)
    ensures forall x :: x in rm && RosterKey(x) == (g.employeeId, g.branchId) ==> g.salary == x.salary
  {
    var b, e := g.branchId, g.employeeId;
    var joined := LeftJoin(work, rm);
    assert TotalKey(g) in TotalKeys(EmployeeRollup(joined));
    JoinKeys(work, rm, b, e);
    JoinHours(work, rm, b, e);
    forall x | x in rm && RosterKey(x) == (e, b) ensures g.salary == x.salary {
      JoinSalary(work, rm, b, e, x);
    }
  }

  /** Against a table with distinct keys, a key whose employee has positive hours keeps its group through step 9. */
  lemma RollupKey(work: seq<WorkRow>, rm: seq<EmployeeRow>, b: BranchId, e: EmployeeId)
    requires Distinct(RosterKeys(rm))
    requires (e, b) in RosterKeys(rm) && SumWork(work, e) > 0
    ensures (b, e) in TotalKeys(DropIdle(EmployeeRollup(LeftJoin(work, rm))))
  {
    var all := EmployeeRollup(LeftJoin(work, rm));
    SumWorkAbsent(work, e);
    JoinKeys(work, rm, b, e);
    JoinHours(work, rm, b, e);
    var g := TotalKeyRow(all, (b, e));
    assert g in DropIdle(all);
  }

  // ---- Step 9: .loc[work_hour > 0] ----

  /** Step 9: keep the groups with positive summed hours. */
  function DropIdle(totals: seq<EmployeeTotal>): (r: seq<EmployeeTotal>)
    ensures forall t :: t in r ==> t in totals && t.workHour > 0
    ensures forall t :: t in totals && t.workHour > 0 ==> t in r
    ensures Distinct(TotalKeys(totals)) ==> Distinct(TotalKeys(r))
  {
    if |totals| == 0 then []
    else
      assert totals == [totals[0]] + totals[1..];
      var rest := DropIdle(totals[1..]);
      assert TotalKeys(totals) == [TotalKey(totals[0])] + TotalKeys(totals[1..]);
      DistinctCons(TotalKey(totals[0]), TotalKeys(totals[1..]));
      if totals[0].workHour > 0 then
        var r := [totals[0]] + rest;
        assert TotalKeys(r) == [TotalKey(totals[0])] + TotalKeys(rest);
        DistinctCons(TotalKey(totals[0]), TotalKeys(rest));
        r
      else rest
  }

  // ---- Step 10: groupby(['branch_id']).agg(work_hour: sum, salary: sum) ----

  function BranchIds(totals: seq<EmployeeTotal>): (r: seq<BranchId>)
    ensures forall t :: t in totals ==> t.branchId in r
    ensures forall b :: b in r ==> exists t :: t in totals && t.branchId == b
  {
    if |totals| == 0 then []
    else
      assert totals == [totals[0]] + totals[1..];
      [totals[0].branchId] + BranchIds(totals[1..])
  }

  /** Summed hours of the groups of branch `b`. */
  function HoursSum(totals: seq<EmployeeTotal>, b: BranchId): int {
    if |totals| == 0 then 0
    else (if totals[0].branchId == b then totals[0].workHour else 0) + HoursSum(totals[1..], b)
  }

  /** Summed salaries of the groups of branch `b`. */
  function SalarySum(totals: seq<EmployeeTotal>, b: BranchId): int {
    if |totals| == 0 then 0
    else (if totals[0].branchId == b then totals[0].salary else 0) + SalarySum(totals[1..], b)
  }

  /** Step 10: one row per branch, in order of first appearance. */
  function BranchRollup(totals: seq<EmployeeTotal>): (r: seq<BranchTotal>)
    ensures forall i, j :: 0 <= i < j < |r| ==> r[i].branchId != r[j].branchId
    ensures forall x :: x in r ==>
      x.branchId in BranchIds(totals) &&
      x.workHour == HoursSum(totals, x.branchId) && x.salary == SalarySum(totals, x.branchId)
    ensures forall b :: b in BranchIds(totals) ==> exists x :: x in r && x.branchId == b
  {
    var bs := Dedup(BranchIds(totals));
    var r := seq(|bs|, i requires 0 <= i < |bs| => BranchTotal(bs[i], HoursSum(totals, bs[i]), SalarySum(totals, bs[i])));
    assert forall i :: 0 <= i < |r| ==> r[i].branchId == bs[i];
    assert forall b :: b in bs ==> exists i :: 0 <= i < |r| && r[i].branchId == b;
    r
  }

  /** A branch present among groups with positive hours has positive summed hours. */
  lemma {:induction false} HoursSumPositive(totals: seq<EmployeeTotal>, b: BranchId)
    requires forall t :: t in totals ==> t.workHour > 0
    requires b in BranchIds(totals)
    ensures HoursSum(totals, b) > 0
  {
    assert totals == [totals[0]] + totals[1..];
    if b in BranchIds(totals[1..]) {
      HoursSumPositive(totals[1..], b);
    } else {
      HoursSumNonnegative(totals[1..], b);
    }
  }

  lemma {:induction false} HoursSumNonnegative(totals: seq<EmployeeTotal>, b: BranchId)
    requires forall t :: t in totals ==> t.workHour > 0
    ensures HoursSum(totals, b) >= 0
  {
    if |totals| > 0 {
      assert totals[0] in totals;
      HoursSumNonnegative(totals[1..], b);
    }
  }

  /** After step 9, every branch row has positive hours: the division of step 11 is defined. */
  lemma BranchHoursPositive(totals: seq<EmployeeTotal>)
    requires forall t :: t in totals ==> t.workHour > 0
    ensures forall x :: x in BranchRollup(totals) ==> x.workHour > 0
  {
    forall x | x in BranchRollup(totals) ensures x.workHour > 0 {
      HoursSumPositive(totals, x.branchId);
    }
  }

  /** With non-negative salaries, every branch's summed salary is non-negative. */
  lemma {:induction false} SalarySumNonnegative(totals: seq<EmployeeTotal>, b: BranchId)
    requires forall t :: t in totals ==> t.salary >= 0
    ensures SalarySum(totals, b) >= 0
  {
    if |totals| > 0 {
      assert totals[0] in totals;
      SalarySumNonnegative(totals[1..], b);
    }
  }

  // ---- Steps 11 and 12: salary_per_hour, year, month ----

  /** `int(a / b)`: the quotient truncated toward zero. */
  function TruncDiv(a: int, b: int): (q: int)
    requires b > 0
    ensures a >= 0 ==> 0 <= q && q * b <= a < (q + 1) * b
    ensures a < 0 ==> q <= 0 && (q - 1) * b < a <= q * b
  {
    if a >= 0 then
      DivBounds(a, b);
      a / b
    else
      DivBounds(-a, b);
      assert (-((-a) / b) - 1) * b == -(((-a) / b) * b + b);
      -((-a) / b)
  }

  /** Euclidean division of a natural number by a positive one brackets it between two multiples. */
  lemma DivBounds(n: int, b: int)
    requires n >= 0 && b > 0
    ensures 0 <= n / b && (n / b) * b <= n < (n / b + 1) * b
  {
    var q := n / b;
    assert n == q * b + n % b;
    assert (q + 1) * b == q * b + b;
  }

  /** Each result row holds its branch's summed salary over its summed hours, truncated. */
  lemma FinishRatio(totals: seq<EmployeeTotal>, date: Date, o: OutputRow)
    requires forall x :: x in BranchRollup(totals) ==> x.workHour > 0
    requires o in Finish(BranchRollup(totals), date)
    ensures HoursSum(totals, o.branchId) > 0
    ensures o.salaryPerHour == TruncDiv(SalarySum(totals, o.branchId), HoursSum(totals, o.branchId))
  {
    var branches := BranchRollup(totals);
    var out := Finish(branches, date);
    var i :| 0 <= i < |out| && out[i] == o;
    assert branches[i] in branches;
  }

  /** Each result row comes from a branch with a group. */
  lemma FinishRowGroup(totals: seq<EmployeeTotal>, date: Date, o: OutputRow) returns (t: EmployeeTotal)
    requires forall x :: x in BranchRollup(totals) ==> x.workHour > 0
    requires o in Finish(BranchRollup(totals), date)
    ensures t in totals && t.branchId == o.branchId
  {
    var branches := BranchRollup(totals);
    var out := Finish(branches, date);
    var i :| 0 <= i < |out| && out[i] == o;
    assert branches[i] in branches;
    t :| t in totals && t.branchId == o.branchId;
  }

  /** Each group's branch has a result row. */
  lemma GroupFinishRow(totals: seq<EmployeeTotal>, date: Date, t: EmployeeTotal) returns (o: OutputRow)
    requires forall x :: x in BranchRollup(totals) ==> x.workHour > 0
    requires t in totals
    ensures o in Finish(BranchRollup(totals), date) && o.branchId == t.branchId
  {
    var branches := BranchRollup(totals);
    var out := Finish(branches, date);
    var x :| x in branches && x.branchId == t.branchId;
    var i :| 0 <= i < |branches| && branches[i] == x;
    o := out[i];
  }

  /** Steps 11 and 12: the result rows, one per branch row, stamped with the run's year and month. */
  function Finish(branches: seq<BranchTotal>, date: Date): (r: seq<OutputRow>)
    requires forall x :: x in branches ==> x.workHour > 0
    ensures |r| == |branches|
    ensures forall i :: 0 <= i < |r| ==>
      r[i] == OutputRow(date.year, date.month, branches[i].branchId, TruncDiv(branches[i].salary, branches[i].workHour))
  {
    seq(|branches|, i requires 0 <= i < |branches| =>
      OutputRow(date.year, date.month, branches[i].branchId, TruncDiv(branches[i].salary, branches[i].workHour)))
  }
}
