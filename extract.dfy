/** The month window of the extract stage: timesheet rows dated from the first of the month to the run date. */
module Extract {
  import opened Seqs
  import opened Calendar
  import opened Tables

  /**
   * `.loc[date >= str(month_beginning_date)]` then `.loc[date <= str(date)]`:
   * the dates are compared as text.
   */
  function ExtractTimesheets(timesheet: seq<TimesheetRow>, date: Date): (r: seq<TimesheetRow>)
    ensures forall t :: t in r ==>
      t in timesheet && LexLe(IsoFormat(FirstOfMonth(date)), IsoFormat(t.date)) && LexLe(IsoFormat(t.date), IsoFormat(date))
    ensures forall t ::
      t in timesheet && LexLe(IsoFormat(FirstOfMonth(date)), IsoFormat(t.date)) && LexLe(IsoFormat(t.date), IsoFormat(date))
      ==> t in r
  {
    var fromMonthStart := Filter((t: TimesheetRow) => LexLe(IsoFormat(FirstOfMonth(date)), IsoFormat(t.date)), timesheet);
    Filter((t: TimesheetRow) => LexLe(IsoFormat(t.date), IsoFormat(date)), fromMonthStart)
  }

  /**
   * When every date fits `YYYY-MM-DD`, a row survives exactly when it falls in
   * the run date's year and month, on a day from 1 to the run date's day.
   */
  lemma ExtractWindow(timesheet: seq<TimesheetRow>, date: Date)
    requires FitsIsoFormat(date)
    requires forall t :: t in timesheet ==> FitsIsoFormat(t.date)
    ensures forall t :: t in ExtractTimesheets(timesheet, date) ==>
      t in timesheet && DateLe(FirstOfMonth(date), t.date) && DateLe(t.date, date)
    ensures forall t :: t in timesheet && DateLe(FirstOfMonth(date), t.date) && DateLe(t.date, date) ==>
      t in ExtractTimesheets(timesheet, date)
    ensures forall t :: t in ExtractTimesheets(timesheet, date) <==>
      t in timesheet && t.date.year == date.year && t.date.month == date.month && 1 <= t.date.day <= date.day
  {
    forall t | t in timesheet
      ensures LexLe(IsoFormat(FirstOfMonth(date)), IsoFormat(t.date)) <==> DateLe(FirstOfMonth(date), t.date)
      ensures LexLe(IsoFormat(t.date), IsoFormat(date)) <==> DateLe(t.date, date)
    {
      IsoFormatOrder(FirstOfMonth(date), t.date);
      IsoFormatOrder(t.date, date);
    }
  }
}
