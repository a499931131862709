/** Calendar dates, and the monthly ranges that partition the archive. */
module Calendar {
  // A month is counted from year 0: 12 * year + (month - 1).
  type Month = nat

  datatype Date = Date(month: Month, day: nat)

  predicate IsLeap(year: nat) {
    year % 4 == 0 && (year % 100 != 0 || year % 400 == 0)
  }

  function DaysIn(m: Month): (n: nat)
    ensures 28 <= n <= 31
  {
    match m % 12
    case 1 => if IsLeap(m / 12) then 29 else 28
    case 3 => 30
    case 5 => 30
    case 8 => 30
    case 10 => 30
    case _ => 31
  }

  // Seven months have 31 days and four have 30; February has 29 every fourth year, but in only one of four full
  // centuries, and else 28.
  lemma MonthsHaveTheirDays(m: Month)
    ensures DaysIn(m) == 31 <==> m % 12 in {0, 2, 4, 6, 7, 9, 11}
    ensures DaysIn(m) == 30 <==> m % 12 in {3, 5, 8, 10}
    ensures m % 12 == 1 ==> (DaysIn(m) == 29 <==> m / 12 % 400 == 0 || (m / 12 % 4 == 0 && m / 12 % 100 != 0))
  {
  }

  predicate IsDate(d: Date) {
    1 <= d.day <= DaysIn(d.month)
  }

  predicate Before(a: Date, b: Date) {
    a.month < b.month || (a.month == b.month && a.day < b.day)
  }

  function NextDay(d: Date): Date {
    if d.day < DaysIn(d.month) then Date(d.month, d.day + 1) else Date(d.month + 1, 1)
  }

  function AddDays(d: Date, n: nat): Date
    decreases n
  {
    if n == 0 then d else AddDays(NextDay(d), n - 1)
  }

  function FirstOfMonth(d: Date): Date {
    Date(d.month, 1)
  }

  // The exclusive end of a month's partition: 32 days on from its first day, back to the first.
  function PartitionEnd(start: Date): Date {
    FirstOfMonth(AddDays(start, 32))
  }

  predicate InPartition(d: Date, m: Month) {
    !Before(d, Date(m, 1)) && Before(d, PartitionEnd(Date(m, 1)))
  }

  lemma {:induction false} AddWithinMonth(d: Date, n: nat)
    requires IsDate(d) && d.day + n <= DaysIn(d.month)
    ensures AddDays(d, n) == Date(d.month, d.day + n)
    decreases n
  {
    if n == 0 {
    } else {
      AddWithinMonth(NextDay(d), n - 1);
    }
  }

  lemma {:induction false} AddSplits(d: Date, a: nat, b: nat)
    ensures AddDays(d, a + b) == AddDays(AddDays(d, a), b)
    decreases a
  {
    if a == 0 {
    } else {
      AddSplits(NextDay(d), a - 1, b);
    }
  }

  // 32 days from the first always reach the next month and never the one after it.
  lemma PartitionEndIsNextMonth(m: Month)
    ensures PartitionEnd(Date(m, 1)) == Date(m + 1, 1)
  {
    var len := DaysIn(m);
    AddSplits(Date(m, 1), len - 1, 32 - (len - 1));
    AddWithinMonth(Date(m, 1), len - 1);
    AddWithinMonth(Date(m + 1, 1), 32 - len);
  }

  // Every date lies in exactly one monthly partition, its own month's.
  lemma PartitionsCoverEachDateOnce(d: Date, m: Month)
    requires IsDate(d)
    ensures InPartition(d, m) <==> m == d.month
  {
    PartitionEndIsNextMonth(m);
  }
}
