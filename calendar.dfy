/**
 * The calendar tab: a cursor on one month, a cell per day of that month with the number of
 * memories dated that day, and the memories grouped by date for the list under a chosen day.
 */
module Calendar {
  import opened Wrappers
  import opened Seqs
  import opened Text
  import opened Model
  import opened Grouping
  import DateFilter

  // ---------------------------------------------------------------------------------------
  // The month cursor

  /** The month shown; `month` runs from 0 (January) to 11 (December), as `Date.getMonth()`. */
  datatype Cursor = Cursor(year: int, month: int)

  predicate ValidCursor(c: Cursor) {
    0 <= c.month <= 11
  }

  /** `prevMonth`: January goes back to December of the year before. */
  function PrevMonth(c: Cursor): (r: Cursor)
    ensures ValidCursor(c) ==> ValidCursor(r)
  {
    if c.month == 0 then Cursor(c.year - 1, 11) else Cursor(c.year, c.month - 1)
  }

  /** `nextMonth`: December goes on to January of the year after. */
  function NextMonth(c: Cursor): (r: Cursor)
    ensures ValidCursor(c) ==> ValidCursor(r)
  {
    if c.month == 11 then Cursor(c.year + 1, 0) else Cursor(c.year, c.month + 1)
  }

  /** The number of months since January of year 0: the line the cursor moves along. */
  function MonthNumber(c: Cursor): int {
    12 * c.year + c.month
  }

  /** A valid cursor is determined by its month number. */
  lemma MonthNumberInjective(c: Cursor, d: Cursor)
    requires ValidCursor(c) && ValidCursor(d)
    requires MonthNumber(c) == MonthNumber(d)
    ensures c == d
  {
  }

  /**
   * The buttons move one month back and one month on, crossing into the previous or next
   * year at January and December, and each undoes the other.
   */
  lemma MonthSteps(c: Cursor)
    requires ValidCursor(c)
    ensures MonthNumber(PrevMonth(c)) == MonthNumber(c) - 1
    ensures MonthNumber(NextMonth(c)) == MonthNumber(c) + 1
    ensures c.month == 0 ==> PrevMonth(c) == Cursor(c.year - 1, 11)
    ensures c.month == 11 ==> NextMonth(c) == Cursor(c.year + 1, 0)
    ensures NextMonth(PrevMonth(c)) == c && PrevMonth(NextMonth(c)) == c
  {
    MonthNumberInjective(NextMonth(PrevMonth(c)), c);
    MonthNumberInjective(PrevMonth(NextMonth(c)), c);
  }

  // ---------------------------------------------------------------------------------------
  // Day keys

  function DateOf(m: Memory): string {
    m.date
  }

  /** `String(n).padStart(2, '0')`. */
  function Pad2(s: string): (r: string)
    ensures |s| >= 2 ==> r == s
    ensures |s| < 2 ==> |r| == 2 && r[2 - |s|..] == s && forall i :: 0 <= i < 2 - |s| ==> r[i] == '0'
  {
    if |s| >= 2 then s else seq(2 - |s|, _ => '0') + s
  }

  /** The key of day `day` of the month: `${y}-${MM}-${DD}` with `MM` the month counted from 1. */
  function DayKey(year: int, month: int, day: nat): string {
    IntToString(year) + "-" + Pad2(IntToString(month + 1)) + "-" + Pad2(NatToString(day))
  }

  /** A number below 100, padded, is two digits of that value. */
  lemma Pad2Digits(n: nat)
    requires n < 100
    ensures |Pad2(NatToString(n))| == 2
    ensures AllDigits(Pad2(NatToString(n)))
    ensures DigitsValue(Pad2(NatToString(n))) == n
  {
    NatToStringLength(n);
    var s := NatToString(n);
    var r := Pad2(s);
    if n < 10 {
      assert r == ['0', DigitChar(n)];
      assert r[..1] == "0" && DigitsValue(r[..1]) == 0;
      assert DigitValue(r[1]) == n;
    } else {
      NatToStringValue(n);
    }
  }

  /** Different numbers stay different once padded. */
  lemma Pad2Injective(a: nat, b: nat)
    requires Pad2(NatToString(a)) == Pad2(NatToString(b))
    ensures a == b
  {
    NatToStringLength(a);
    NatToStringLength(b);
    var x, y := NatToString(a), NatToString(b);
    if |x| >= 2 && |y| >= 2 {
      NatToStringInjective(a, b);
    } else if |x| < 2 && |y| < 2 {
      assert x == Pad2(x)[1..] && y == Pad2(y)[1..];
      NatToStringInjective(a, b);
    } else if |x| < 2 {
      NatToStringNoLeadingZero(b);
    } else {
      NatToStringNoLeadingZero(a);
    }
  }

  /** Within a month, different days have different keys. */
  lemma DayKeyInjective(year: int, month: int, a: nat, b: nat)
    requires DayKey(year, month, a) == DayKey(year, month, b)
    ensures a == b
  {
    var p := IntToString(year) + "-" + Pad2(IntToString(month + 1)) + "-";
    assert DayKey(year, month, a) == p + Pad2(NatToString(a));
    assert DayKey(year, month, b) == p + Pad2(NatToString(b));
    assert Pad2(NatToString(a)) == DayKey(year, month, a)[|p|..];
    assert Pad2(NatToString(b)) == DayKey(year, month, b)[|p|..];
    Pad2Injective(a, b);
  }

  lemma DayKeysDiffer(year: int, month: int, a: nat, b: nat)
    requires a != b
    ensures DayKey(year, month, a) != DayKey(year, month, b)
  {
    if DayKey(year, month, a) == DayKey(year, month, b) {
      DayKeyInjective(year, month, a, b);
    }
  }

  /**
   * For a four-digit year, a valid month and a day of the month, the key is a full date
   * `YYYY-MM-DD` whose year, month (counted from 1) and day are those of the cell.
   */
  lemma DayKeyIsFullDate(year: int, month: int, day: nat)
    requires 1000 <= year <= 9999 && 0 <= month <= 11 && 1 <= day <= 31
    ensures DateFilter.FullDate(DayKey(year, month, day))
    ensures DateFilter.Year(DayKey(year, month, day)) == year
    ensures DateFilter.Month(DayKey(year, month, day)) == month + 1
    ensures DateFilter.Day(DayKey(year, month, day)) == day
  {
    var y, mm, dd := NatToString(year), Pad2(NatToString(month + 1)), Pad2(NatToString(day));
    NatToStringLength(year);
    NatToStringValue(year);
    Pad2Digits(month + 1);
    Pad2Digits(day);
    assert DayKey(year, month, day) == y + "-" + mm + "-" + dd;
    DateFilter.FullDateOf(y, mm, dd);
  }

  /** The keys of the first `n` days of a month. */
  function MonthKeys(year: int, month: int, n: nat): seq<string> {
    seq(n, k requires 0 <= k => DayKey(year, month, k + 1))
  }

  lemma MonthKeysDistinct(year: int, month: int, n: nat)
    ensures Distinct(MonthKeys(year, month, n))
  {
    var ks := MonthKeys(year, month, n);
    forall i, j | 0 <= i < j < n
      ensures ks[i] != ks[j]
    {
      assert ks[i] == DayKey(year, month, i + 1) && ks[j] == DayKey(year, month, j + 1);
      DayKeysDiffer(year, month, i + 1, j + 1);
    }
  }

  // ---------------------------------------------------------------------------------------
  // The day cells

  datatype DayCell = DayCell(date: string, day: nat, count: nat)

  /** `memories.filter((mem) => mem.date === date).length`. */
  function CountOn(ms: seq<Memory>, date: string): nat {
    |Bucket(ms, DateOf, date)|
  }

  /** The counts of the cells added up. */
  function TotalCount(days: seq<DayCell>): nat {
    if days == [] then 0 else days[0].count + TotalCount(days[1..])
  }

  lemma {:induction false} TotalCountOfKeys(days: seq<DayCell>, ms: seq<Memory>, keys: seq<string>)
    requires |days| == |keys|
    requires forall k :: 0 <= k < |days| ==> days[k].count == CountOn(ms, keys[k])
    ensures TotalCount(days) == SizesSum(ms, DateOf, keys)
    decreases |days|
  {
    if days != [] {
      TotalCountOfKeys(days[1..], ms, keys[1..]);
    }
  }

  /**
   * The `days` loop: one cell per day of the month, numbered from 1, keyed by its date and
   * counting the memories of that date. Since the keys differ, the cells together count each
   * memory dated in the month once and the others not at all.
   */
  method BuildDays(ms: seq<Memory>, year: int, month: int, daysInMonth: nat) returns (days: seq<DayCell>)
    ensures |days| == daysInMonth
    ensures forall k :: 0 <= k < |days| ==>
      && days[k].day == k + 1
      && days[k].date == DayKey(year, month, k + 1)
      && days[k].count == CountOn(ms, days[k].date)
    ensures TotalCount(days) == |Filter(ms, KeyIn(DateOf, MonthKeys(year, month, daysInMonth)))|
  {
    days := [];
    var i := 1;
    while i <= daysInMonth
      invariant 1 <= i <= daysInMonth + 1
      invariant |days| == i - 1
      invariant forall k :: 0 <= k < |days| ==>
        && days[k].day == k + 1
        && days[k].date == DayKey(year, month, k + 1)
        && days[k].count == CountOn(ms, days[k].date)
    {
      var date := IntToString(year) + "-" + Pad2(IntToString(month + 1)) + "-" + Pad2(NatToString(i));
      assert date == DayKey(year, month, i);
      var count := |Filter(ms, KeyIs(DateOf, date))|;
      days := days + [DayCell(date, i, count)];
      i := i + 1;
    }
    MonthTotal(days, ms, year, month);
  }

  /** Cells keyed by the days of the month count, together, the memories dated in the month. */
  lemma MonthTotal(days: seq<DayCell>, ms: seq<Memory>, year: int, month: int)
    requires forall k :: 0 <= k < |days| ==>
      && days[k].date == DayKey(year, month, k + 1)
      && days[k].count == CountOn(ms, days[k].date)
    ensures TotalCount(days) == |Filter(ms, KeyIn(DateOf, MonthKeys(year, month, |days|)))|
  {
    var keys := MonthKeys(year, month, |days|);
    assert forall k :: 0 <= k < |days| ==> days[k].count == CountOn(ms, keys[k]);
    MonthKeysDistinct(year, month, |days|);
    TotalOfDistinctKeys(days, ms, keys);
  }

  lemma TotalOfDistinctKeys(days: seq<DayCell>, ms: seq<Memory>, keys: seq<string>)
    requires |days| == |keys| && Distinct(keys)
    requires forall k :: 0 <= k < |days| ==> days[k].count == CountOn(ms, keys[k])
    ensures TotalCount(days) == |Filter(ms, KeyIn(DateOf, keys))|
  {
    TotalCountOfKeys(days, ms, keys);
    SizesSumCount(ms, DateOf, keys);
  }

  /** A cell is highlighted (`count > 0`) exactly when some memory carries its date. */
  lemma CountOnPositive(ms: seq<Memory>, date: string)
    ensures CountOn(ms, date) > 0 <==> exists i :: 0 <= i < |ms| && ms[i].date == date
  {
    if CountOn(ms, date) > 0 {
      var b := Bucket(ms, DateOf, date);
      BucketMembers(ms, DateOf, date, b[0]);
    }
    if i :| 0 <= i < |ms| && ms[i].date == date {
      BucketMembers(ms, DateOf, date, ms[i]);
    }
  }

  // ---------------------------------------------------------------------------------------
  // Memories by date

  /** `memoriesByDate.get(date) ?? []`. */
  function DayList(lists: map<string, seq<Memory>>, date: string): seq<Memory> {
    if date in lists then lists[date] else []
  }

  /**
   * The `memoriesByDate` loop: the `Map`'s keys in insertion order (the dates as first met)
   * and, under each date, the memories of that date in input order. Looking up a date that
   * is not a key gives the empty list, which is also what that date's memories are.
   */
  method MemoriesByDate(ms: seq<Memory>) returns (dates: seq<string>, lists: map<string, seq<Memory>>)
    ensures dates == Keys(ms, DateOf)
    ensures forall d :: d in lists <==> d in dates
    ensures forall d :: DayList(lists, d) == Bucket(ms, DateOf, d)
  {
    dates, lists := [], map[];
    for k := 0 to |ms|
      invariant dates == Keys(ms[..k], DateOf)
      invariant forall d :: d in lists <==> d in dates
      invariant forall d :: DayList(lists, d) == Bucket(ms[..k], DateOf, d)
    {
      var m := ms[k];
      var list := if m.date in lists then lists[m.date] else [];
      list := list + [m];
      if m.date !in lists {
        dates := dates + [m.date];
      }
      lists := lists[m.date := list];
      assert ms[..k + 1] == ms[..k] + [m];
      KeysSnoc(ms[..k], m, DateOf);
      forall d
        ensures DayList(lists, d) == Bucket(ms[..k + 1], DateOf, d)
      {
        BucketSnoc(ms[..k], m, DateOf, d);
      }
    }
    assert ms[..|ms|] == ms;
  }

  /**
   * The lists under the dates hold every memory exactly once: a memory is in the list of its
   * own date and of no other, and the sizes of the lists add up to the number of memories.
   */
  lemma DayListsPartition(ms: seq<Memory>, d: string, m: Memory)
    ensures m in Bucket(ms, DateOf, d) <==> m in ms && m.date == d
    ensures SizesSum(ms, DateOf, Keys(ms, DateOf)) == |ms|
  {
    BucketMembers(ms, DateOf, d, m);
    SizesSumAll(ms, DateOf);
  }

  /**
   * Clicking a day sets both date bounds to its key. The date filter then keeps exactly the
   * memories of that day, in order: the list shown under the calendar, as long as the cell's count.
   */
  lemma DayClickFilters(ms: seq<Memory>, key: string)
    requires key != ""
    ensures DateFilter.FilterByDate(ms, Some(key), Some(key)) == Bucket(ms, DateOf, key)
    ensures |DateFilter.FilterByDate(ms, Some(key), Some(key))| == CountOn(ms, key)
  {
    var p := DateFilter.InRangeOf(Some(key), Some(key));
    forall i | 0 <= i < |ms|
      ensures p(ms[i]) == KeyIs(DateOf, key)(ms[i])
    {
      LexLessTrichotomy(ms[i].date, key);
      assert p(ms[i]) == DateFilter.InRange(ms[i].date, Some(key), Some(key));
      var f: Memory -> string := DateOf;
      assert f(ms[i]) == ms[i].date;
      assert KeyIs(DateOf, key)(ms[i]) == (f(ms[i]) == key);
    }
    FilterCongruent(ms, p, KeyIs(DateOf, key));
  }
}
