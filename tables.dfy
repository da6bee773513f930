/** The rows of the tables the pipeline reads, builds and writes. */
module Tables {
  import opened Wrappers
  import opened Calendar

  type EmployeeId = int
  type BranchId = string

  /** A row of the employees file. Several rows may share an employee. */
  datatype EmployeeRow = EmployeeRow(employeeId: EmployeeId, branchId: BranchId, salary: int)

  /** A row of the timesheets file; an empty `checkin` or `checkout` cell is `None`. */
  datatype TimesheetRow = TimesheetRow(employeeId: EmployeeId, date: Date, checkin: Option<Clock>, checkout: Option<Clock>)

  /**
   * A timesheet row after its clock cells became timestamps. Both timestamps
   * are built on the row's own `date`, so each is kept as seconds since midnight.
   */
  datatype ParsedRow = ParsedRow(employeeId: EmployeeId, date: Date, checkin: int, checkout: int)

  /** The part of a timesheet row the later steps use, with its `work_hour` column. */
  datatype WorkRow = WorkRow(employeeId: EmployeeId, workHour: int)

  /** The columns the join brings in from the employees table. */
  datatype BranchSalary = BranchSalary(branchId: BranchId, salary: int)

  /** A row of the left join; `roster` is `None` when `branch_id` and `salary` are null. */
  datatype JoinedRow = JoinedRow(employeeId: EmployeeId, workHour: int, roster: Option<BranchSalary>)

  /** One (branch, employee) group: summed hours and the largest salary. */
  datatype EmployeeTotal = EmployeeTotal(branchId: BranchId, employeeId: EmployeeId, workHour: int, salary: int)

  /** One branch group: summed hours and summed salaries. */
  datatype BranchTotal = BranchTotal(branchId: BranchId, workHour: int, salary: int)

  /** A row of the result table. */
  datatype OutputRow = OutputRow(year: int, month: int, branchId: BranchId, salaryPerHour: int)

  /** Why the transform aborts: a date or clock cell that `strptime` rejects. */
  datatype TransformError = TimestampParseError
}
