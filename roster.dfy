/** Step 6 of the transform: one employees row per (employee, branch), carrying the largest salary. */
module Roster {
  import opened Seqs
  import opened Tables

  function RosterKey(x: EmployeeRow): (EmployeeId, BranchId) {
    (x.employeeId, x.branchId)
  }

  /** The (employee_id, branch_id) column pair of the employees table. */
  function RosterKeys(roster: seq<EmployeeRow>): (r: seq<(EmployeeId, BranchId)>)
    ensures |r| == |roster|
    ensures forall i :: 0 <= i < |roster| ==> r[i] == RosterKey(roster[i])
    ensures forall x :: x in roster ==> RosterKey(x) in r
  {
    if |roster| == 0 then []
    else
      assert roster == [roster[0]] + roster[1..];
      [RosterKey(roster[0])] + RosterKeys(roster[1..])
  }

  /** Every key of the table is the key of one of its rows. */
  lemma KeyRow(roster: seq<EmployeeRow>, k: (EmployeeId, BranchId)) returns (x: EmployeeRow)
    requires k in RosterKeys(roster)
    ensures x in roster && RosterKey(x) == k
  {
    var i :| 0 <= i < |roster| && RosterKeys(roster)[i] == k;
    x := roster[i];
  }

  /** The largest salary among the rows of employee `e` in branch `b`. */
  function MaxSalary(roster: seq<EmployeeRow>, e: EmployeeId, b: BranchId): (r: int)
    requires (e, b) in RosterKeys(roster)
    ensures exists x :: x in roster && RosterKey(x) == (e, b) && x.salary == r
    ensures forall x :: x in roster && RosterKey(x) == (e, b) ==> x.salary <= r
  {
    var x, tail := roster[0], roster[1..];
    RosterKeysCons(roster);
    if (e, b) !in RosterKeys(tail) then
      assert forall y :: y in tail ==> RosterKey(y) != (e, b);
      x.salary
    else
      var m := MaxSalary(tail, e, b);
      if RosterKey(x) == (e, b) && x.salary > m then x.salary else m
  }

  /** The keys of a non-empty table: the first row's, then the rest's. */
  lemma RosterKeysCons(roster: seq<EmployeeRow>)
    requires |roster| > 0
    ensures roster == [roster[0]] + roster[1..]
    ensures RosterKeys(roster) == [RosterKey(roster[0])] + RosterKeys(roster[1..])
  {
    assert roster == [roster[0]] + roster[1..];
  }

  /** The largest-salary row of each key in `keys`. */
  function MaxRows(roster: seq<EmployeeRow>, keys: seq<(EmployeeId, BranchId)>): (r: seq<EmployeeRow>)
    requires forall k :: k in keys ==> k in RosterKeys(roster)
    ensures RosterKeys(r) == keys
    ensures forall x :: x in r ==> RosterKey(x) in keys && x.salary == MaxSalary(roster, x.employeeId, x.branchId)
  {
    if |keys| == 0 then []
    else
      var k := keys[0];
      assert keys == [k] + keys[1..];
      assert forall k' :: k' in keys[1..] ==> k' in keys;
      var rest := MaxRows(roster, keys[1..]);
      var r := [EmployeeRow(k.0, k.1, MaxSalary(roster, k.0, k.1))] + rest;
      assert r[1..] == rest;
      r
  }

  /**
   * `groupby(['employee_id', 'branch_id'], as_index=False)['salary'].max()`:
   * one row per distinct (employee, branch), in order of first appearance.
   */
  function RosterMax(roster: seq<EmployeeRow>): (r: seq<EmployeeRow>)
    ensures Distinct(RosterKeys(r))
    ensures forall k :: k in RosterKeys(r) ==> k in RosterKeys(roster)
    ensures forall k :: k in RosterKeys(roster) ==> k in RosterKeys(r)
    ensures forall x :: x in r ==> RosterKey(x) in RosterKeys(roster) && x.salary == MaxSalary(roster, x.employeeId, x.branchId)
    ensures forall x, y :: x in r && y in roster && RosterKey(y) == RosterKey(x) ==> y.salary <= x.salary
    ensures forall x :: x in r ==> exists y :: y in roster && RosterKey(y) == RosterKey(x) && y.salary == x.salary
  {
    MaxRows(roster, Dedup(RosterKeys(roster)))
  }

  /** In a table with distinct keys, a key names at most one row. */
  lemma DistinctKeysUnique(rm: seq<EmployeeRow>, x: EmployeeRow, y: EmployeeRow)
    requires Distinct(RosterKeys(rm))
    requires x in rm && y in rm && RosterKey(x) == RosterKey(y)
    ensures x == y
  {
    var i :| 0 <= i < |rm| && rm[i] == x;
    var j :| 0 <= j < |rm| && rm[j] == y;
    assert RosterKeys(rm)[i] == RosterKeys(rm)[j];
  }
}
