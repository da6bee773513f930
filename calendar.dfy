/**
 * Calendar dates, clock times and the `YYYY-MM-DD` text that the timesheet
 * file and `str(date)` use, with Python's ordering of strings.
 */
module Calendar {

  /** A date as its three numeric fields; not every value is a real date. */
  datatype Date = Date(year: nat, month: nat, day: nat)

  /** A clock reading `HH:MM:SS`; not every value is a real time of day. */
  datatype Clock = Clock(hour: nat, minute: nat, second: nat)

  /** `date.replace(day=1)`. */
  function FirstOfMonth(d: Date): (r: Date)
    ensures r.year == d.year && r.month == d.month && r.day == 1
    ensures ValidDate(d) ==> ValidDate(r) && DateLe(r, d)
  {
    Date(d.year, d.month, 1)
  }

  predicate IsLeapYear(y: int) {
    y % 4 == 0 && (y % 100 != 0 || y % 400 == 0)
  }

  function DaysInMonth(y: int, m: int): int
    requires 1 <= m <= 12
  {
    if m == 2 then (if IsLeapYear(y) then 29 else 28)
    else if m == 4 || m == 6 || m == 9 || m == 11 then 30
    else 31
  }

  /** The dates Python's `datetime` accepts (years 1 to 9999, proleptic Gregorian). */
  predicate ValidDate(d: Date) {
    1 <= d.year <= 9999 && 1 <= d.month <= 12 && 1 <= d.day <= DaysInMonth(d.year, d.month)
  }

  /** The clock readings `datetime` accepts: no leap seconds. */
  predicate ValidClock(c: Clock) {
    c.hour < 24 && c.minute < 60 && c.second < 60
  }

  /** Seconds since midnight. */
  function SecondOfDay(c: Clock): (r: nat)
    ensures ValidClock(c) ==> r < 86400
  {
    c.hour * 3600 + c.minute * 60 + c.second
  }

  /** Comparing two valid clock readings field by field is comparing their seconds since midnight. */
  lemma SecondOfDayOrder(a: Clock, b: Clock)
    requires ValidClock(a) && ValidClock(b)
    ensures SecondOfDay(a) <= SecondOfDay(b) <==>
      a.hour < b.hour || (a.hour == b.hour && (a.minute < b.minute || (a.minute == b.minute && a.second <= b.second)))
  {
  }

  /** Chronological order of dates: by year, then month, then day. */
  predicate DateLe(a: Date, b: Date) {
    a.year < b.year || (a.year == b.year && (a.month < b.month || (a.month == b.month && a.day <= b.day)))
  }

  // ---- The ISO text of a date ----

  function Pow10(k: nat): nat {
    if k == 0 then 1 else 10 * Pow10(k - 1)
  }

  function DigitChar(k: int): char
    requires 0 <= k < 10
  {
    ('0' as int + k) as char
  }

  /** The last `width` decimal digits of `n`, zero-padded on the left (`%0<width>d`). */
  function Digits(n: nat, width: nat): (r: string)
    ensures |r| == width
  {
    if width == 0 then [] else Digits(n / 10, width - 1) + [DigitChar(n % 10)]
  }

  /** The fields of `d` fit the `YYYY-MM-DD` widths. */
  predicate FitsIsoFormat(d: Date) {
    d.year < 10000 && d.month < 100 && d.day < 100
  }

  /** `str(d)` / `d.isoformat()`: `'%04d-%02d-%02d'`. */
  function IsoFormat(d: Date): (r: string)
    ensures |r| == 10
  {
    Digits(d.year, 4) + "-" + Digits(d.month, 2) + "-" + Digits(d.day, 2)
  }

  /** Python's `a <= b` on `str`: code points compared left to right, a proper prefix is smaller. */
  predicate LexLe(a: string, b: string) {
    if |a| == 0 then true
    else if |b| == 0 then false
    else if a[0] != b[0] then a[0] < b[0]
    else LexLe(a[1..], b[1..])
  }

  /** On two strings that start with equally long parts, the first difference decides. */
  lemma {:induction false} LexLeConcat(a1: string, a2: string, b1: string, b2: string)
    requires |a1| == |b1|
    ensures LexLe(a1 + a2, b1 + b2) <==> if a1 == b1 then LexLe(a2, b2) else LexLe(a1, b1)
  {
    if |a1| == 0 {
      assert a1 + a2 == a2 && b1 + b2 == b2;
    } else {
      assert (a1 + a2)[0] == a1[0] && (b1 + b2)[0] == b1[0];
      assert (a1 + a2)[1..] == a1[1..] + a2 && (b1 + b2)[1..] == b1[1..] + b2;
      if a1[0] == b1[0] {
        LexLeConcat(a1[1..], a2, b1[1..], b2);
        assert a1 == [a1[0]] + a1[1..] && b1 == [b1[0]] + b1[1..];
      }
    }
  }

  /** Zero-padded numerals of the same width compare as the numbers do. */
  lemma {:induction false} DigitsOrder(n: nat, m: nat, width: nat)
    requires n < Pow10(width) && m < Pow10(width)
    ensures Digits(n, width) == Digits(m, width) <==> n == m
    ensures LexLe(Digits(n, width), Digits(m, width)) <==> n <= m
  {
    if width > 0 {
      var dn, dm := Digits(n / 10, width - 1), Digits(m / 10, width - 1);
      var cn, cm := DigitChar(n % 10), DigitChar(m % 10);
      DigitsOrder(n / 10, m / 10, width - 1);
      LexLeConcat(dn, [cn], dm, [cm]);
      assert LexLe([cn], [cm]) <==> cn <= cm by {
        assert [cn][1..] == [] && [cm][1..] == [];
      }
      assert cn <= cm <==> n % 10 <= m % 10;
      if dn + [cn] == dm + [cm] {
        assert (dn + [cn])[..width - 1] == dn && (dm + [cm])[..width - 1] == dm;
        assert (dn + [cn])[width - 1] == cn && (dm + [cm])[width - 1] == cm;
      }
    }
  }

  /** For dates that fit the format, comparing their ISO texts as strings is comparing them as dates. */
  lemma IsoFormatOrder(a: Date, b: Date)
    requires FitsIsoFormat(a) && FitsIsoFormat(b)
    ensures LexLe(IsoFormat(a), IsoFormat(b)) <==> DateLe(a, b)
  {
    assert Pow10(4) == 10000 && Pow10(2) == 100;
    var ya, ma, da := Digits(a.year, 4), Digits(a.month, 2), Digits(a.day, 2);
    var yb, mb, db := Digits(b.year, 4), Digits(b.month, 2), Digits(b.day, 2);
    DigitsOrder(a.year, b.year, 4);
    DigitsOrder(a.month, b.month, 2);
    DigitsOrder(a.day, b.day, 2);
    var ra, rb := "-" + (ma + ("-" + da)), "-" + (mb + ("-" + db));
    assert LexLe(IsoFormat(a), IsoFormat(b)) <==> if ya == yb then LexLe(ra, rb) else LexLe(ya, yb) by {
      assert IsoFormat(a) == ya + ra && IsoFormat(b) == yb + rb;
      LexLeConcat(ya, ra, yb, rb);
    }
    assert LexLe(ra, rb) <==> LexLe(ma + ("-" + da), mb + ("-" + db)) by {
      LexLeConcat("-", ma + ("-" + da), "-", mb + ("-" + db));
    }
    assert LexLe(ma + ("-" + da), mb + ("-" + db)) <==> if ma == mb then LexLe("-" + da, "-" + db) else LexLe(ma, mb) by {
      LexLeConcat(ma, "-" + da, mb, "-" + db);
    }
    assert LexLe("-" + da, "-" + db) <==> LexLe(da, db) by {
      LexLeConcat("-", da, "-", db);
    }
  }
}
