/**
 * Calendar dates at day precision and the `YYYY-MM-DD` strings the engine
 * receives as its target. The engine compares dates with JavaScript `Date`
 * objects; for valid dates that comparison is the lexicographic order on
 * (year, month, day) defined here.
 */
module Dates {
  import opened Text

  datatype Date = Date(year: int, month: int, day: int)

  predicate IsLeapYear(y: int)
  {
    (y % 4 == 0 && y % 100 != 0) || y % 400 == 0
  }

  function DaysInMonth(y: int, m: int): (n: int)
    requires 1 <= m <= 12
    ensures 28 <= n <= 31
    ensures n == 29 <==> m == 2 && IsLeapYear(y)
  {
    if m == 2 then (if IsLeapYear(y) then 29 else 28)
    else if m == 4 || m == 6 || m == 9 || m == 11 then 30
    else 31
  }

  /** A date that a four-digit `YYYY-MM-DD` string can denote. */
  predicate ValidDate(d: Date)
  {
    0 <= d.year <= 9999 && 1 <= d.month <= 12 && 1 <= d.day <= DaysInMonth(d.year, d.month)
  }

  /** `new Date(a) <= new Date(b)`: earlier-or-equal, year first, then month, then day. */
  predicate OnOrBefore(a: Date, b: Date)
  {
    a.year < b.year || (a.year == b.year && (a.month < b.month || (a.month == b.month && a.day <= b.day)))
  }

  /** OnOrBefore is a total order on dates (the JavaScript comparison is one on valid dates). */
  lemma OnOrBeforeIsTotalOrder()
    ensures forall a :: OnOrBefore(a, a)
    ensures forall a, b :: OnOrBefore(a, b) && OnOrBefore(b, a) ==> a == b
    ensures forall a, b, c :: OnOrBefore(a, b) && OnOrBefore(b, c) ==> OnOrBefore(a, c)
    ensures forall a, b :: OnOrBefore(a, b) || OnOrBefore(b, a)
  {
  }

  /**
   * The target strings the engine accepts: exactly four digits, '-', two
   * digits, '-', two digits, naming a valid date. None for any other string.
   */
  function ParseIso(s: string): (r: Option<Date>)
    ensures r.Some? ==> ValidDate(r.value)
    ensures r.Some? ==> |s| == 10 && s[4] == '-' && s[7] == '-'
  {
    if |s| == 10 && s[4] == '-' && s[7] == '-' && AllDigits(s[..4]) && AllDigits(s[5..7]) && AllDigits(s[8..]) then
      var d := Date(DecimalValue(s[..4]), DecimalValue(s[5..7]), DecimalValue(s[8..]));
      DecimalValueBound(s[..4]);
      if 1 <= d.month <= 12 && 1 <= d.day <= DaysInMonth(d.year, d.month) then Some(d) else None
    else None
  }
}
