/** Working days and months between dates. */
module Dates {
  // ---- days are numbered; day 0 is a Monday, so days 5 and 6 of a week are Saturday and Sunday ----

  predicate IsWorkingDay(day: int) {
    day % 7 < 5
  }

  function WorkingDays(first: int, last: int): set<int> {
    set d | first <= d < last && IsWorkingDay(d)
  }

  /** Working days before `day`, counted from day 0; negative before it. */
  function WorkingDaysUpTo(day: int): int {
    5 * (day / 7) + if day % 7 < 5 then day % 7 else 5
  }

  lemma {:induction false} WorkingDaysCounted(first: int, last: int)
    requires first <= last
    ensures |WorkingDays(first, last)| == WorkingDaysUpTo(last) - WorkingDaysUpTo(first)
    decreases last - first
  {
    if first == last {
      assert WorkingDays(first, last) == {};
    } else {
      WorkingDaysCounted(first, last - 1);
      assert WorkingDays(first, last) == WorkingDays(first, last - 1) + if IsWorkingDay(last - 1) then {last - 1} else {};
    }
  }

  lemma WorkingDaysSpelled(first: int, last: int)
    ensures WorkingDays(first, last) == set d | first <= d < last && d % 7 != 5 && d % 7 != 6
  {}

  /** The day-by-day count is the number of working days, the end excluded, and has a closed form. */
  method WorkingDaysBetween(d1: int, d2: int) returns (count: int)
    ensures count == |WorkingDays(d1, d2)|
    ensures count == |set d | d1 <= d < d2 && d % 7 != 5 && d % 7 != 6|
    ensures count == if d2 <= d1 then 0 else WorkingDaysUpTo(d2) - WorkingDaysUpTo(d1)
  {
    WorkingDaysSpelled(d1, d2);
    if d2 <= d1 {
      assert WorkingDays(d1, d2) == {};
      return 0;
    }
    count := 0;
    var cur := d1;
    while cur < d2
      invariant d1 <= cur <= d2 && count == WorkingDaysUpTo(cur) - WorkingDaysUpTo(d1)
    {
      var weekday := cur % 7;
      if weekday != 5 && weekday != 6 { count := count + 1; }
      cur := cur + 1;
    }
    WorkingDaysCounted(d1, d2);
  }

  /** Any seven days in a row hold five working days, wherever they begin. */
  lemma WholeWeeks(first: int, weeks: nat)
    ensures |WorkingDays(first, first + 7 * weeks)| == 5 * weeks
  {
    WorkingDaysCounted(first, first + 7 * weeks);
    assert (first + 7 * weeks) / 7 == first / 7 + weeks && (first + 7 * weeks) % 7 == first % 7;
  }

  // ---- calendar dates ----

  datatype Date = Date(year: int, month: int, day: int, clock: nat)

  predicate Earlier(a: Date, b: Date) {
    || a.year < b.year
    || (a.year == b.year && a.month < b.month)
    || (a.year == b.year && a.month == b.month && a.day < b.day)
    || (a.year == b.year && a.month == b.month && a.day == b.day && a.clock < b.clock)
  }

  predicate Proper(d: Date) {
    1 <= d.month <= 12 && 1 <= d.day <= 31
  }

  method MonthsBetween(start: Date, end: Date) returns (months: int)
    requires Proper(start) && Proper(end)
    ensures months == if Earlier(end, start) then Months(end, start) else Months(start, end)
    ensures months >= 0
  {
    var a, b := start, end;
    if Earlier(b, a) { a, b := b, a; }
    var years := b.year - a.year;
    months := years * 12 + (b.month - a.month);
    if b.day < a.day { months := months - 1; }
  }

  function Months(a: Date, b: Date): int {
    (b.year - a.year) * 12 + (b.month - a.month) - if b.day < a.day then 1 else 0
  }

  /** `a`, moved `n` months on and keeping its day of the month, is no later a day than `b`. */
  predicate Reaches(a: Date, n: int, b: Date) {
    var moved, end := a.year * 12 + a.month + n, b.year * 12 + b.month;
    moved < end || (moved == end && a.day <= b.day)
  }

  /** The result is the greatest number of whole months first the earlier date that does not pass the later, and is
      never negative; which date is given first does not matter. */
  lemma MonthsAreWhole(a: Date, b: Date)
    requires Proper(a) && Proper(b) && !Earlier(b, a)
    ensures Months(a, b) >= 0
    ensures forall n :: Reaches(a, n, b) <==> n <= Months(a, b)
    ensures var moved, end := a.year * 12 + a.month + Months(a, b), b.year * 12 + b.month;
            && (moved < end || (moved == end && a.day <= b.day))
            && !(moved + 1 < end || (moved + 1 == end && a.day <= b.day))
    ensures !Earlier(a, b) ==> Months(a, b) == Months(b, a) == 0
  {}
}
