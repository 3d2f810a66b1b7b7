/**
 * `filterMemoriesByDate`: keeps the memories whose `date` lies between two optional bounds,
 * both ends included, comparing the `YYYY-MM-DD` strings as strings.
 */
module DateFilter {
  import opened Wrappers
  import opened Seqs
  import opened Text
  import opened Model

  /** A bound is in force when it is truthy: present and not the empty string. */
  predicate Given(bound: Option<string>) {
    bound.Some? && bound.value != ""
  }

  /** Neither `from && d < from` nor `to && d > to`. */
  predicate InRange(d: string, from: Option<string>, to: Option<string>) {
    && !(Given(from) && LexLess(d, from.value))
    && !(Given(to) && LexLess(to.value, d))
  }

  function InRangeOf(from: Option<string>, to: Option<string>): Memory -> bool {
    (m: Memory) => InRange(m.date, from, to)
  }

  /** `filterMemoriesByDate(memories, from, to)`. */
  function FilterByDate(ms: seq<Memory>, from: Option<string>, to: Option<string>): (r: seq<Memory>)
    ensures |r| <= |ms|
    ensures forall i :: 0 <= i < |r| ==> InRange(r[i].date, from, to)
  {
    if !Given(from) && !Given(to) then ms else Filter(ms, InRangeOf(from, to))
  }

  /** With no bound in force the list itself comes back, not a copy with anything dropped. */
  lemma NoBoundsKeepsAll(ms: seq<Memory>, from: Option<string>, to: Option<string>)
    requires !Given(from) && !Given(to)
    ensures FilterByDate(ms, from, to) == ms
    ensures forall i :: 0 <= i < |ms| ==> InRange(ms[i].date, from, to)
  {
  }

  /** The result keeps the input order: it is the input with some memories dropped. */
  lemma FilterByDateIsSubseq(ms: seq<Memory>, from: Option<string>, to: Option<string>)
    ensures IsSubseq(FilterByDate(ms, from, to), ms)
  {
    if Given(from) || Given(to) {
      FilterIsSubseq(ms, InRangeOf(from, to));
    } else {
      FilterKeepsAll(ms, (m: Memory) => true);
      FilterIsSubseq(ms, (m: Memory) => true);
    }
  }

  /**
   * Both bounds are inclusive and each applies on its own: a memory is kept exactly when it
   * is one of the input and `from <= date` (if `from` is given) and `date <= to` (if `to` is).
   */
  lemma FilterByDateKeeps(ms: seq<Memory>, from: Option<string>, to: Option<string>, m: Memory)
    ensures m in FilterByDate(ms, from, to) <==>
      && m in ms
      && (Given(from) ==> LexLe(from.value, m.date))
      && (Given(to) ==> LexLe(m.date, to.value))
  {
    if Given(from) || Given(to) {
      FilterMembers(ms, InRangeOf(from, to), m);
    }
  }

  /** How often each memory survives: as often as in the input when in range, else never. */
  lemma FilterByDateCount(ms: seq<Memory>, from: Option<string>, to: Option<string>, m: Memory)
    ensures multiset(FilterByDate(ms, from, to))[m] ==
      if InRange(m.date, from, to) then multiset(ms)[m] else 0
  {
    if Given(from) || Given(to) {
      FilterMultiset(ms, InRangeOf(from, to), m);
    }
  }

  // ---------------------------------------------------------------------------------------
  // Full dates (RFC 3339, section 5.6) compare chronologically as strings (section 5.1).

  /** `YYYY-MM-DD`: four digits, a dash, two digits, a dash, two digits. */
  predicate FullDate(s: string) {
    && |s| == 10
    && AllDigits(s[..4]) && s[4] == '-'
    && AllDigits(s[5..7]) && s[7] == '-'
    && AllDigits(s[8..])
  }

  function Year(s: string): nat requires FullDate(s) { DigitsValue(s[..4]) }
  function Month(s: string): nat requires FullDate(s) { DigitsValue(s[5..7]) }
  function Day(s: string): nat requires FullDate(s) { DigitsValue(s[8..]) }

  /** Four, two and two digits joined by dashes make a full date with those parts. */
  lemma FullDateOf(y: string, mm: string, dd: string)
    requires |y| == 4 && |mm| == 2 && |dd| == 2
    requires AllDigits(y) && AllDigits(mm) && AllDigits(dd)
    ensures FullDate(y + "-" + mm + "-" + dd)
    ensures Year(y + "-" + mm + "-" + dd) == DigitsValue(y)
    ensures Month(y + "-" + mm + "-" + dd) == DigitsValue(mm)
    ensures Day(y + "-" + mm + "-" + dd) == DigitsValue(dd)
  {
    var s := y + "-" + mm + "-" + dd;
    assert s[..4] == y && s[5..7] == mm && s[8..] == dd;
  }

  /** `a` is an earlier day than `b`: by year, then month, then day. */
  predicate Earlier(a: string, b: string)
    requires FullDate(a) && FullDate(b)
  {
    || Year(a) < Year(b)
    || (Year(a) == Year(b) && Month(a) < Month(b))
    || (Year(a) == Year(b) && Month(a) == Month(b) && Day(a) < Day(b))
  }

  /** Comparing two parts of equal length, then the rest. */
  lemma ComparePart(a: string, b: string, k: nat)
    requires |a| == |b| && k <= |a|
    requires AllDigits(a[..k]) && AllDigits(b[..k])
    ensures LexLess(a, b) <==>
      DigitsValue(a[..k]) < DigitsValue(b[..k])
      || (DigitsValue(a[..k]) == DigitsValue(b[..k]) && LexLess(a[k..], b[k..]))
  {
    assert a == a[..k] + a[k..] && b == b[..k] + b[k..];
    LexLessAppend(a[..k], b[..k], a[k..], b[k..]);
    LexLessDigits(a[..k], b[..k]);
  }

  /** The string order on full dates is the chronological order. */
  lemma FullDateOrder(a: string, b: string)
    requires FullDate(a) && FullDate(b)
    ensures LexLess(a, b) <==> Earlier(a, b)
  {
    ComparePart(a, b, 4);
    MonthDayOrder(a, b);
  }

  /** After the year: the dash, then the month, then the day. */
  lemma MonthDayOrder(a: string, b: string)
    requires FullDate(a) && FullDate(b)
    ensures LexLess(a[4..], b[4..]) <==> Month(a) < Month(b) || (Month(a) == Month(b) && Day(a) < Day(b))
  {
    DashStep(a[4..], b[4..]);
    assert a[4..][1..] == a[5..] && b[4..][1..] == b[5..];
    assert a[5..][..2] == a[5..7];
    assert b[5..][..2] == b[5..7];
    assert a[5..][2..] == a[7..] && b[5..][2..] == b[7..];
    ComparePart(a[5..], b[5..], 2);
    DayOrder(a, b);
  }

  /** After the month: the dash, then the day. */
  lemma DayOrder(a: string, b: string)
    requires FullDate(a) && FullDate(b)
    ensures LexLess(a[7..], b[7..]) <==> Day(a) < Day(b)
  {
    DashStep(a[7..], b[7..]);
    assert a[7..][1..] == a[8..] && b[7..][1..] == b[8..];
    LexLessDigits(a[8..], b[8..]);
  }

  /** Strings that both start with a dash compare as what follows it. */
  lemma DashStep(x: string, y: string)
    requires x != [] && y != [] && x[0] == '-' && y[0] == '-'
    ensures LexLess(x, y) <==> LexLess(x[1..], y[1..])
  {
  }

  /** On full dates the filter keeps exactly the memories whose day lies within the bounds. */
  lemma FullDateInRange(d: string, from: Option<string>, to: Option<string>)
    requires FullDate(d)
    requires Given(from) ==> FullDate(from.value)
    requires Given(to) ==> FullDate(to.value)
    ensures InRange(d, from, to) <==>
      && (Given(from) ==> !Earlier(d, from.value))
      && (Given(to) ==> !Earlier(to.value, d))
  {
    if Given(from) { FullDateOrder(d, from.value); }
    if Given(to) { FullDateOrder(to.value, d); }
  }
}
