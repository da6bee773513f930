# Salary per hour: a model of the transform stage

`python_etl/salary_per_hour.py` is a small ETL job. It reads an employees
table (`employee_id`, `branch_id`, `salary`) and a timesheets table
(`employee_id`, `date`, `checkin`, `checkout`). It keeps the timesheet rows of
the run date's month up to the run date. Then, for each branch, it computes
the combined salary of the branch's employees over the whole hours they
worked, and it writes one row `(year, month, branch_id, salary_per_hour)`
per branch to a warehouse table.

This project models the month filter of `extract` and the whole of
`transform` as pure functions on sequences of rows. Each pandas step becomes
one function:

| step | source line | model |
|---|---|---|
| month window | 50-56 | `Extract.ExtractTimesheets` |
| 1. drop rows with a null `checkin`/`checkout` | 77 | `Timesheet.CleanNulls` |
| 2. `drop_duplicates()` | 80 | `Seqs.Dedup` |
| 3. `strptime` of both clock cells | 83-92 | `Timesheet.ParseRows` |
| 4. drop `checkin > checkout` | 96 | `Timesheet.DropInverted` |
| 5. `work_hour` | 99-102 | `Timesheet.WorkHours` |
| 6. largest salary per (employee, branch) | 105 | `Roster.RosterMax` |
| 7. left join on `employee_id` | 108 | `Rollup.LeftJoin` |
| 8. (branch, employee) roll-up | 111-116 | `Rollup.EmployeeRollup` |
| 9. `work_hour > 0` | 119 | `Rollup.DropIdle` |
| 10. branch roll-up | 122-127 | `Rollup.BranchRollup` |
| 11-13. `salary_per_hour`, year, month, columns | 130-140 | `Rollup.Finish` |
| the whole transform | 64-146 | `SalaryPerHour.Transform` |

A `strptime` failure makes the source print the exception and exit (lines
144-146). In the model, `Transform` returns `Err(TimestampParseError)` instead.

Besides the per-step contracts, the model gives the transform an
independent reference definition. `Timesheet.EmployeeHours` is an
employee's whole hours over the distinct usable rows: complete rows whose
checkin is not after their checkout. `Roster.MaxSalary` is a key's largest
salary. `SalaryPerHour.ContributionsExact` and `SalaryPerHour.OutputBranches`
prove that the pipeline's groups and branches are exactly the ones that
reference definition predicts.

Modules: `Wrappers` (Option, Result), `Seqs` (selection and duplicate
removal), `Calendar` (dates, clock readings, ISO date text and string
order), `Tables` (row types), `Extract`, `Timesheet` (steps 1-5), `Roster`
(step 6), `Rollup` (steps 7-12), `SalaryPerHour` (the transform and its
end-to-end properties) and `WorkedExamples` (concrete cases).

Two arithmetic details of the code are kept as written:
- `int(salary / work_hour)` truncates toward zero (`Rollup.TruncDiv`). For
  non-negative salaries that is the floor (`SalaryPerHour.OutputFloor`).
- `work_hour` takes `timedelta.seconds`, the difference reduced modulo one
  day (`Timesheet.WorkHour`). Within a day that is the plain difference
  (`Timesheet.WorkHourInDay`).

## Model

| member | source | states |
|---|---|---|
| Seqs.Filter | python_etl/salary_per_hour.py:77 | a boolean-mask selection keeps exactly the rows that satisfy the mask, and no more rows than it was given |
| Seqs.FilterConcat | python_etl/salary_per_hour.py:77 | selecting from two concatenated tables is concatenating the two selections |
| Seqs.FilterSkip | python_etl/salary_per_hour.py:77 | a row that fails the mask leaves the selection as if it were not there |
| Seqs.FilterImplied | python_etl/salary_per_hour.py:77-96 | selecting by a mask after a weaker one is selecting by the stronger mask alone |
| Seqs.Dedup | python_etl/salary_per_hour.py:80 | `drop_duplicates()` leaves no row twice, drops no distinct row and adds none |
| Seqs.DedupOfDistinct | python_etl/salary_per_hour.py:80 | a table without repeated rows comes out unchanged |
| Seqs.DedupIdempotent | python_etl/salary_per_hour.py:80 | dropping duplicates twice is dropping them once |
| Seqs.FilterDedup | python_etl/salary_per_hour.py:77-96 | a row selection commutes with dropping duplicates |
| Calendar.FirstOfMonth | python_etl/salary_per_hour.py:50 | `date.replace(day=1)` keeps the year and month and sets day 1; for a valid date it is a valid date no later than it |
| Calendar.ValidDate | python_etl/salary_per_hour.py:84 | the dates `strptime` accepts with `%Y-%m-%d`: years 1-9999, months 1-12, days within the month, leap years by the Gregorian rule |
| Calendar.ValidClock | python_etl/salary_per_hour.py:84 | the clock readings `strptime` accepts with `%H:%M:%S`: hour below 24, minute and second below 60 |
| Calendar.SecondOfDay | python_etl/salary_per_hour.py:83-92 | a valid clock reading lies within one day, 0 to 86399 seconds |
| Calendar.SecondOfDayOrder | python_etl/salary_per_hour.py:96 | comparing two valid clock readings by seconds since midnight is comparing hour, then minute, then second |
| Calendar.IsoFormat | python_etl/salary_per_hour.py:55-56 | `str(date)` is ten characters long |
| Calendar.Digits | python_etl/salary_per_hour.py:55-56 | the zero-padded numerals of `str(date)` have exactly the requested width |
| Calendar.LexLe | python_etl/salary_per_hour.py:55-56 | Python's `<=` on `str`: code points compared left to right, a proper prefix is smaller |
| Calendar.DigitsOrder | python_etl/salary_per_hour.py:55-56 | zero-padded numerals of one width are equal, or ordered as strings, exactly when their numbers are |
| Calendar.IsoFormatOrder | python_etl/salary_per_hour.py:55-56 | for dates that fit `YYYY-MM-DD`, comparing `str(date)` texts is comparing the dates, in both directions |
| Extract.ExtractTimesheets | python_etl/salary_per_hour.py:50-56 | a timesheet row is kept exactly when its date text lies between the text of the first of the month and that of the run date |
| Extract.ExtractWindow | python_etl/salary_per_hour.py:50-56 | when the dates fit the format, a row is kept exactly when it falls in the run date's year and month, on day 1 up to the run date's day |
| Timesheet.CleanNulls | python_etl/salary_per_hour.py:77 | exactly the rows with both `checkin` and `checkout` present are kept |
| Timesheet.IsComplete | python_etl/salary_per_hour.py:77 | the `notnull()` mask: both `checkin` and `checkout` are present |
| Timesheet.Parses | python_etl/salary_per_hour.py:83-92 | `strptime` accepts the row: its date is a valid date and both clock cells are valid clock readings |
| Timesheet.ParseRow | python_etl/salary_per_hour.py:83-92 | parsing keeps the employee and the date, and gives timestamps within the row's day when `strptime` accepts the row |
| Timesheet.ParseAll | python_etl/salary_per_hour.py:83-92 | parsing a table parses each row in place and keeps the length |
| Timesheet.ParseRows | python_etl/salary_per_hour.py:83-92 | parsing succeeds exactly when every row parses, and then yields each row's timestamps; otherwise the transform aborts; the abort on an empty frame is left out |
| Timesheet.DropInverted | python_etl/salary_per_hour.py:96 | exactly the rows whose checkin is not after their checkout are kept |
| Timesheet.InOrder | python_etl/salary_per_hour.py:96 | the mask `checkin <= checkout` on the two timestamps of a row |
| Timesheet.WorkHour | python_etl/salary_per_hour.py:99-102 | `work_hour` lies in 0..23, and within a day it is the floor of the difference in hours |
| Timesheet.WorkHours | python_etl/salary_per_hour.py:99-102 | the `work_hour` column has one entry per row, computed from that row |
| Timesheet.SumWork | python_etl/salary_per_hour.py:113 | the summed `work_hour` of one employee; non-negative when every `work_hour` is |
| Timesheet.SumWorkAbsent | python_etl/salary_per_hour.py:111-116 | an employee with non-zero summed hours has a row |
| Timesheet.UsableRows | python_etl/salary_per_hour.py:77-96 | the reference rows are distinct, and are exactly the complete rows of the timesheet whose checkin is not after their checkout |
| Timesheet.DropInvertedParsed | python_etl/salary_per_hour.py:83-96 | dropping inverted intervals after parsing is parsing only the rows whose clocks are in order |
| Timesheet.UsableAfterCleaning | python_etl/salary_per_hour.py:77-96 | steps 1 to 4 leave exactly the distinct usable rows, parsed, in order |
| Timesheet.WorkHourOfUsable | python_etl/salary_per_hour.py:99-102 | on a usable row, `work_hour` is the row's whole hours between checkin and checkout |
| Timesheet.WorkHourInDay | python_etl/salary_per_hour.py:99-102 | within one day, `timedelta.seconds` is the plain difference |
| Timesheet.WorkHoursSum | python_etl/salary_per_hour.py:99-102 | summing `work_hour` over parsed usable rows is summing their whole hours |
| Timesheet.EmployeeHoursOfPipeline | python_etl/salary_per_hour.py:77-102 | the hours steps 1 to 5 give an employee are the reference hours over distinct usable rows |
| Roster.RosterKeys | python_etl/salary_per_hour.py:105 | the (employee_id, branch_id) column pair has one key per row, at the same position |
| Roster.KeyRow | python_etl/salary_per_hour.py:105 | every key of the employees table belongs to one of its rows |
| Roster.MaxSalary | python_etl/salary_per_hour.py:105 | a key's salary is attained by one of its rows and is at least every salary of that key |
| Roster.MaxRows | python_etl/salary_per_hour.py:105 | one row per requested key, in that order, each with its key's largest salary |
| Roster.RosterMax | python_etl/salary_per_hour.py:105 | step 6 keeps each (employee, branch) key once, loses none and adds none, and gives it the largest salary among its rows |
| Roster.DistinctKeysUnique | python_etl/salary_per_hour.py:105-108 | after step 6 a key names one row at most |
| Rollup.JoinMatches | python_etl/salary_per_hour.py:108 | a timesheet row meets every employees row of its employee, and only those |
| Rollup.JoinRow | python_etl/salary_per_hour.py:108 | a timesheet row yields exactly its matches, and one row with a null branch and salary when the employees table has no row of its employee |
| Rollup.LeftJoin | python_etl/salary_per_hour.py:108 | every joined row comes from a timesheet row and its own employee's row (or a null branch when there is none); every matching pair appears, and every unmatched timesheet row appears once with a null branch |
| Rollup.GroupKeys | python_etl/salary_per_hour.py:111-116 | the group keys are exactly the (branch, employee) pairs of joined rows with a non-null branch |
| Rollup.InGroup | python_etl/salary_per_hour.py:111 | a joined row belongs to group (b, e) when its branch is b and its employee e; a row with a null branch belongs to no group |
| Rollup.SumHours | python_etl/salary_per_hour.py:113 | the `work_hour` `sum` of one (branch, employee) group |
| Rollup.GroupMaxSalary | python_etl/salary_per_hour.py:114 | a group's salary is attained by one of its rows and is at least each of them |
| Rollup.TotalKeys | python_etl/salary_per_hour.py:111-116 | one (branch, employee) key per group row, at the same position |
| Rollup.TotalKeyRow | python_etl/salary_per_hour.py:111-116 | every group key belongs to a group row |
| Rollup.GroupRows | python_etl/salary_per_hour.py:111-116 | one group row per requested key, with the group's summed hours and largest salary |
| Rollup.EmployeeRollup | python_etl/salary_per_hour.py:111-116 | step 8 gives each (branch, employee) key of the join exactly one row, with its summed hours and largest salary |
| Rollup.SumHoursConcat | python_etl/salary_per_hour.py:113 | a group's hours over two concatenated tables add up |
| Rollup.JoinMatchesHours | python_etl/salary_per_hour.py:105-113 | after step 6, a timesheet row adds its hours to its employee's group at a branch at most once |
| Rollup.JoinHours | python_etl/salary_per_hour.py:105-113 | after step 6, the join gives group (b, e) all of e's hours when (e, b) is a key, and none otherwise |
| Rollup.JoinKeys | python_etl/salary_per_hour.py:108-116 | a group exists exactly for an employee with timesheet rows and a key of the employees table |
| Rollup.JoinSalary | python_etl/salary_per_hour.py:105-114 | after step 6, a group's largest salary is its key's salary in the employees table |
| Rollup.RollupGroup | python_etl/salary_per_hour.py:105-116 | each group of step 8 is a key of the employees table, carrying all of the employee's hours and that key's salary |
| Rollup.RollupKey | python_etl/salary_per_hour.py:105-119 | a key whose employee has positive hours keeps its group through step 9 |
| Rollup.DropIdle | python_etl/salary_per_hour.py:119 | exactly the groups with positive hours are kept, and the keys stay distinct |
| Rollup.BranchIds | python_etl/salary_per_hour.py:122-127 | the branch column holds exactly the branches of the groups |
| Rollup.HoursSum | python_etl/salary_per_hour.py:124 | the `work_hour` `sum` of one branch over its (branch, employee) groups |
| Rollup.SalarySum | python_etl/salary_per_hour.py:125 | the `salary` `sum` of one branch over its (branch, employee) groups |
| Rollup.BranchRollup | python_etl/salary_per_hour.py:122-127 | one row for each branch of the groups and no other, each with the summed hours and summed salaries of that branch's groups |
| Rollup.HoursSumPositive | python_etl/salary_per_hour.py:119-127 | a branch present among positive-hour groups has positive summed hours |
| Rollup.HoursSumNonnegative | python_etl/salary_per_hour.py:119-127 | over positive-hour groups, any branch's summed hours are non-negative |
| Rollup.BranchHoursPositive | python_etl/salary_per_hour.py:119-133 | after step 9, every branch row has positive hours, so the division of step 11 is defined |
| Rollup.SalarySumNonnegative | python_etl/salary_per_hour.py:125 | with non-negative salaries, each branch's summed salary is non-negative |
| Rollup.TruncDiv | python_etl/salary_per_hour.py:131 | `int(a / b)` for b > 0 is the quotient truncated toward zero: bracketed by multiples of b on the side of zero |
| Rollup.FinishRatio | python_etl/salary_per_hour.py:130-133 | a result row's rate is its branch's summed salary over its positive summed hours, truncated |
| Rollup.FinishRowGroup | python_etl/salary_per_hour.py:122-140 | every result row's branch has a group |
| Rollup.GroupFinishRow | python_etl/salary_per_hour.py:122-140 | every group's branch has a result row |
| Rollup.Finish | python_etl/salary_per_hour.py:130-140 | one result row per branch row, in order, with the run's year and month, the branch, and the truncated salary over hours |
| SalaryPerHour.WorkRows | python_etl/salary_per_hour.py:77-102 | steps 1 to 5 succeed exactly when every complete row parses, and every `work_hour` is in 0..23; the abort on an empty frame is left out |
| SalaryPerHour.Contributions | python_etl/salary_per_hour.py:77-119 | steps 1 to 9 succeed exactly when every complete row parses, and every group left has positive hours; the abort on an empty frame is left out |
| SalaryPerHour.Transform | python_etl/salary_per_hour.py:64-146 | the transform succeeds exactly when every complete row parses; every result row then carries the run's year and month, and no branch appears twice; the abort on an empty frame is left out |
| SalaryPerHour.TransformFrom | python_etl/salary_per_hour.py:119-140 | steps 10 to 12 run on the groups of step 9, and every branch has positive hours |
| SalaryPerHour.WorkRowsHours | python_etl/salary_per_hour.py:77-102 | the rows of step 5 give each employee the reference hours |
| SalaryPerHour.GroupIsContribution | python_etl/salary_per_hour.py:77-116 | each group of step 8 is a key of the employees table, with the employee's reference hours and the key's largest salary |
| SalaryPerHour.ContributionIsGroup | python_etl/salary_per_hour.py:77-119 | a key whose employee has positive reference hours has a group after step 9 |
| SalaryPerHour.ContributionsExact | python_etl/salary_per_hour.py:77-119 | the groups after step 9 are exactly the keys of the employees table whose employee has positive reference hours, each once, with those hours and the key's largest salary |
| SalaryPerHour.OutputRowHasKey | python_etl/salary_per_hour.py:64-146 | a result row's branch has a key whose employee has positive reference hours |
| SalaryPerHour.KeyHasOutputRow | python_etl/salary_per_hour.py:64-146 | a key whose employee has positive reference hours puts its branch in the result |
| SalaryPerHour.OutputBranches | python_etl/salary_per_hour.py:64-146 | a branch has a result row exactly when one of its employees has positive reference hours |
| SalaryPerHour.OutputRatio | python_etl/salary_per_hour.py:119-133 | each result row's rate is its branch's summed salary over its positive summed hours, truncated toward zero |
| SalaryPerHour.OutputFloor | python_etl/salary_per_hour.py:105-133 | with non-negative salaries, each result row's rate is the floor of its branch's salary over its hours |
| SalaryPerHour.RowFloor | python_etl/salary_per_hour.py:125-131 | a truncated branch ratio over non-negative salaries is their floor |
| SalaryPerHour.GroupSalariesNonnegative | python_etl/salary_per_hour.py:105-116 | with non-negative salaries in the employees table, every group's salary is non-negative |
| SalaryPerHour.TransformDependsOnUsable | python_etl/salary_per_hour.py:64-146 | two timesheets with the same distinct usable rows and the same parse outcome give the same result |
| SalaryPerHour.SameUsableRows | python_etl/salary_per_hour.py:77-102 | steps 1 to 5 see a fully parsing timesheet only through its distinct usable rows |
| SalaryPerHour.SameWorkRows | python_etl/salary_per_hour.py:104-140 | the transform sees the timesheet only through the rows of step 5 |
| SalaryPerHour.InsertUnusable | python_etl/salary_per_hour.py:77-96 | inserting a row that is not usable, and that parses when complete, changes neither the usable rows nor the parse outcome |
| SalaryPerHour.NullRowIgnored | python_etl/salary_per_hour.py:77 | a row missing its checkin or checkout changes no result |
| SalaryPerHour.InvertedRowIgnored | python_etl/salary_per_hour.py:94-96 | a parsing row whose checkin is after its checkout changes no result |
| WorkedExamples.NineHourShift | python_etl/salary_per_hour.py:99-102 | 08:00:00 to 17:00:00 is nine whole hours |
| WorkedExamples.ZeroHourShift | python_etl/salary_per_hour.py:99-102 | equal checkin and checkout give zero hours |
| WorkedExamples.ShiftWorkRows | python_etl/salary_per_hour.py:77-102 | steps 1 to 5 on the 08:00-17:00 shift give one row of nine hours |
| WorkedExamples.TwoSalariesMax | python_etl/salary_per_hour.py:105 | salaries 100 and 150 for one key leave 150 |
| WorkedExamples.ShiftGroups | python_etl/salary_per_hour.py:108-119 | steps 7 to 9 give one group of nine hours and salary 150 |
| WorkedExamples.ShiftOutput | python_etl/salary_per_hour.py:122-140 | 150 over nine hours gives a rate of 16 for January 2021 |
| WorkedExamples.SingleShift | python_etl/salary_per_hour.py:64-146 | the two-salary, one-shift example yields exactly `(2021, 1, A, 16)` |
| WorkedExamples.IdleWorkRows | python_etl/salary_per_hour.py:77-102 | a shift with equal checkin and checkout gives one row of zero hours |
| WorkedExamples.IdleGroups | python_etl/salary_per_hour.py:108-119 | a zero-hour group is dropped by step 9 |
| WorkedExamples.ZeroHourBranch | python_etl/salary_per_hour.py:64-146 | a branch whose only shift has zero hours produces no row |
| WorkedExamples.OneRowMax | python_etl/salary_per_hour.py:105 | a one-row employees table is left as it is |
| WorkedExamples.UnknownGroups | python_etl/salary_per_hour.py:108-119 | an employee the employees table lacks gets a null branch and no group |
| WorkedExamples.UnknownContributions | python_etl/salary_per_hour.py:77-119 | steps 1 to 9 give no group for an unknown employee |
| WorkedExamples.UnknownEmployee | python_etl/salary_per_hour.py:64-146 | an unknown employee contributes to no branch |
| WorkedExamples.BadClock | python_etl/salary_per_hour.py:83-92 | a clock cell with hour 25 aborts the transform |
| WorkedExamples.JanuaryWindow | python_etl/salary_per_hour.py:50-56 | with run date 2021-01-05 the window keeps 2021-01-01 and drops 2021-01-06 and 2020-12-31 |

Behaviour the model makes explicit:
- Steps 6 and 7 join on `employee_id` alone. An employee listed under two
  branches therefore brings all of their hours to both branches
  (`Rollup.JoinHours`, `SalaryPerHour.ContributionsExact`).
- A timesheet row for an employee missing from the employees table gets a
  null branch. Step 8 drops it, as pandas' `groupby` drops null keys
  (`Rollup.JoinRow`, `WorkedExamples.UnknownEmployee`).

## Left out
- `SalaryPerHour.__init__` (lines 9-34): reading the command line, the credentials file and the deletion query template is I/O and configuration. The run date is a parameter of the model, and the usage-error exit is not modelled.
- Reading the two CSV files (lines 52-53) is I/O. The model takes the tables as sequences of rows. A timesheet row holds only the four columns step 2 projects onto (line 80), so the projection is the identity. A CSV date is assumed to be written as `str(date)` writes it, which is zero-padded `YYYY-MM-DD`. A clock cell is assumed to be written zero-padded `HH:MM:SS`, one text per time of day, so step 2's comparison of texts is a comparison of clocks. `strptime` also accepts one-digit fields such as `8:00:00`; two texts of one time of day would stay two rows in the source and be counted twice, and the model does not capture that.
- The `print` calls and the `sys.exit(1)` of the `except` blocks (lines 48, 60-62, 74, 144-146) are output and process control. A failing transform returns `Err(TimestampParseError)`. The error carries no exception text.
- `load` (lines 148-178) and the script at lines 181-184 talk to a warehouse over the network. They are not part of this model.
- Text parsing in `strptime` is left out. A clock cell is a parsed `Clock`, and a date cell is a `Date`. `strptime` succeeds exactly when the date is a real proleptic Gregorian date in years 1-9999 and the clock is a valid time of day. Malformed text is represented only by out-of-range fields such as hour 25.
- Rollup.TruncDiv: `salary / work_hour` is a float division in Python. The model divides exactly on integers and then truncates, so float rounding is left out. For very large salaries this can differ from the source.
- Salaries and ids are integers. Null or non-numeric salaries and null employee or branch ids in the input tables are not modelled.
- Row order: pandas' `groupby` sorts its keys by default. Steps 6, 8 and 10 produce their rows in order of first appearance instead. All contracts speak about membership and values, not about row order.
- SalaryPerHour.Transform: the source aborts (lines 144-146) whenever the frame reaching an `apply` is empty, because `apply(axis=1)` on a frame with no rows yields no column to assign. This happens at line 83 when every row is incomplete or the input is empty, at line 99 when every interval is inverted, and at line 130 when step 9 drops every group. The `Ok` conditions of `Timesheet.ParseRows`, `SalaryPerHour.WorkRows`, `SalaryPerHour.Contributions` and `SalaryPerHour.Transform` leave this abort out: in those cases the model returns an empty result. So `WorkedExamples.ZeroHourBranch` and `WorkedExamples.UnknownEmployee` give `Ok([])` where the source stops without reaching `load`. The month's earlier rows stay in the warehouse, whereas an empty result would replace them with nothing.
- Timesheet.ParseRows: its `Ok` condition leaves out the abort of the `apply` at line 83 on an empty frame.
- SalaryPerHour.WorkRows: its `Ok` condition leaves out the aborts of the `apply` at lines 83 and 99 on an empty frame.
- SalaryPerHour.Contributions: its `Ok` condition leaves out the same two aborts.
