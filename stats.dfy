/**
 * The statistics tab: how many memories there are, how many are starred or carry photos,
 * how many fall in each year (in year order) and the five months with the most memories.
 */
module Stats {
  import opened Wrappers
  import opened Seqs
  import opened Text
  import opened Model
  import opened Grouping
  import DateFilter

  // ---------------------------------------------------------------------------------------
  // Keys and counts

  /** `m.date.slice(0, 7)`: the `YYYY-MM` part of a full date. */
  function MonthOf(m: Memory): string {
    if |m.date| <= 7 then m.date else m.date[..7]
  }

  /** `parseInt(m.date.slice(0, 4), 10)`, with `None` for NaN. */
  function YearOf(m: Memory): Option<int> {
    ParseIntPrefix(if |m.date| <= 4 then m.date else m.date[..4])
  }

  /** `m.starred` is truthy. */
  predicate IsStarred(m: Memory) {
    Flag(m.starred)
  }

  /** `m.imageDataUrl || (m.imageDataUrls?.length ?? 0) > 0`. */
  predicate HasImages(m: Memory) {
    || (m.imageDataUrl.Some? && m.imageDataUrl.value != "")
    || (m.imageDataUrls.Some? && |m.imageDataUrls.value| > 0)
  }

  /** `[...map.entries()]` for a tally: each key, in first-insertion order, with its count. */
  function Entries<K(==)>(ms: seq<Memory>, key: Memory -> K): (r: seq<(K, nat)>)
    ensures |r| == |Keys(ms, key)|
  {
    var ks := Keys(ms, key);
    seq(|ks|, i requires 0 <= i < |ks| => (ks[i], |Bucket(ms, key, ks[i])|))
  }

  /** The counts of a list of entries added up. */
  function CountsSum<K>(es: seq<(K, nat)>): nat {
    if es == [] then 0 else es[0].1 + CountsSum(es[1..])
  }

  lemma {:induction false} CountsSumOfKeys<K>(ms: seq<Memory>, key: Memory -> K, ks: seq<K>, es: seq<(K, nat)>)
    requires |es| == |ks|
    requires forall i :: 0 <= i < |es| ==> es[i] == (ks[i], |Bucket(ms, key, ks[i])|)
    ensures CountsSum(es) == SizesSum(ms, key, ks)
    decreases |es|
  {
    if es != [] {
      CountsSumOfKeys(ms, key, ks[1..], es[1..]);
    }
  }

  /** The counts of a tally add up to the number of memories. */
  lemma EntriesSum<K>(ms: seq<Memory>, key: Memory -> K)
    ensures CountsSum(Entries(ms, key)) == |ms|
  {
    var ks := Keys(ms, key);
    CountsSumOfKeys(ms, key, ks, Entries(ms, key));
    SizesSumAll(ms, key);
  }

  /** An entry of a tally is a key met in the memories with the number of memories under it. */
  lemma EntryMeaning<K>(ms: seq<Memory>, key: Memory -> K, e: (K, nat))
    requires e in Entries(ms, key)
    ensures e.1 == |Bucket(ms, key, e.0)| && e.1 > 0
    ensures exists i :: 0 <= i < |ms| && key(ms[i]) == e.0
  {
    KeysSpec(ms, key);
    var b := Bucket(ms, key, e.0);
    BucketMembers(ms, key, e.0, b[0]);
  }

  // ---------------------------------------------------------------------------------------
  // Orders

  /** `(a, b) => b[1] - a[1]` is at most 0: `a` has at least as many memories. */
  function ByCountDesc(a: (string, nat), b: (string, nat)): bool {
    a.1 >= b.1
  }

  /**
   * `(a, b) => a[0] - b[0]` is at most 0: `a`'s year comes first. A NaN year makes the
   * difference NaN, which the sort reads as "equal".
   */
  function ByYearAsc(a: (Option<int>, nat), b: (Option<int>, nat)): bool {
    a.0.None? || b.0.None? || a.0.value <= b.0.value
  }

  /** `.slice(0, 5)`. */
  function Take5<T>(s: seq<T>): (r: seq<T>)
    ensures |r| == if |s| <= 5 then |s| else 5
    ensures r == s[..|r|]
  {
    if |s| <= 5 then s else s[..5]
  }

  lemma {:induction false} CountsSumInsert<K>(x: (K, nat), s: seq<(K, nat)>, le: ((K, nat), (K, nat)) -> bool)
    ensures CountsSum(Insert(x, s, le)) == x.1 + CountsSum(s)
    decreases |s|
  {
    if s != [] && !le(x, s[0]) {
      CountsSumInsert(x, s[1..], le);
    }
  }

  /** Sorting entries keeps their counts' sum. */
  lemma {:induction false} CountsSumSort<K>(s: seq<(K, nat)>, le: ((K, nat), (K, nat)) -> bool)
    ensures CountsSum(SortBy(s, le)) == CountsSum(s)
    decreases |s|
  {
    if s != [] {
      CountsSumSort(s[1..], le);
      CountsSumInsert(s[0], SortBy(s[1..], le), le);
    }
  }

  // ---------------------------------------------------------------------------------------
  // The statistics

  datatype Statistics = Statistics(
    total: nat,
    starred: nat,
    withImages: nat,
    byYear: seq<(Option<int>, nat)>,
    topMonths: seq<(string, nat)>)

  /**
   * The tally loop: one pass over the memories adding one to the month and the year of each.
   * The `Map`s end with the keys in order of first occurrence, each counting its memories.
   */
  method Tally(ms: seq<Memory>)
    returns (months: seq<string>, byMonth: map<string, nat>, years: seq<Option<int>>, byYear: map<Option<int>, nat>)
    ensures Tallied(ms, MonthOf, months, byMonth)
    ensures Tallied(ms, YearOf, years, byYear)
  {
    months, byMonth, years, byYear := [], map[], [], map[];
    for k := 0 to |ms|
      invariant Tallied(ms[..k], MonthOf, months, byMonth)
      invariant Tallied(ms[..k], YearOf, years, byYear)
    {
      months, byMonth := Increment(ms, k, MonthOf, months, byMonth);
      years, byYear := Increment(ms, k, YearOf, years, byYear);
    }
    assert ms[..|ms|] == ms;
  }

  /** The `stats` computation (all but the count of distinct places). */
  method ComputeStats(ms: seq<Memory>) returns (st: Statistics)
    ensures st.total == |ms|
    ensures st.starred == |Filter(ms, IsStarred)|
    ensures st.withImages == |Filter(ms, HasImages)|
    ensures st.byYear == SortBy(Entries(ms, YearOf), ByYearAsc)
    ensures st.topMonths == Take5(SortBy(Entries(ms, MonthOf), ByCountDesc))
  {
    var months, byMonth, years, byYear := Tally(ms);
    var monthEntries := seq(|months|, i requires 0 <= i < |months| => (months[i], byMonth[months[i]]));
    var yearEntries := seq(|years|, i requires 0 <= i < |years| => (years[i], byYear[years[i]]));
    assert monthEntries == Entries(ms, MonthOf) by {
      forall i | 0 <= i < |months|
        ensures monthEntries[i] == Entries(ms, MonthOf)[i]
      {
        assert CountIn(byMonth, months[i]) == byMonth[months[i]];
      }
    }
    assert yearEntries == Entries(ms, YearOf) by {
      forall i | 0 <= i < |years|
        ensures yearEntries[i] == Entries(ms, YearOf)[i]
      {
        assert CountIn(byYear, years[i]) == byYear[years[i]];
      }
    }
    var topMonths := Take5(SortBy(monthEntries, ByCountDesc));
    var starred := |Filter(ms, IsStarred)|;
    var withImages := |Filter(ms, HasImages)|;
    st := Statistics(|ms|, starred, withImages, SortBy(yearEntries, ByYearAsc), topMonths);
  }

  // ---------------------------------------------------------------------------------------
  // What the statistics mean

  /** Every memory falls in exactly one month and one year: both tallies add up to the total. */
  lemma TalliesAddUp(ms: seq<Memory>)
    ensures CountsSum(Entries(ms, MonthOf)) == |ms|
    ensures CountsSum(SortBy(Entries(ms, YearOf), ByYearAsc)) == |ms|
  {
    EntriesSum(ms, MonthOf);
    EntriesSum(ms, YearOf);
    CountsSumSort(Entries(ms, YearOf), ByYearAsc);
  }

  /** The starred memories and the others make up the total; likewise with and without photos. */
  lemma CountsSplit(ms: seq<Memory>)
    ensures |Filter(ms, IsStarred)| + |Filter(ms, (m: Memory) => !IsStarred(m))| == |ms|
    ensures |Filter(ms, HasImages)| + |Filter(ms, (m: Memory) => !HasImages(m))| == |ms|
  {
    var all := (m: Memory) => true;
    FilterKeepsAll(ms, all);
    FilterDisjoint(ms, IsStarred, (m: Memory) => !IsStarred(m), all);
    FilterDisjoint(ms, HasImages, (m: Memory) => !HasImages(m), all);
  }

  /** `le` is transitive and adjacent elements are in order, so every earlier element is `le` a later one. */
  lemma {:induction false} SortedChain<T>(s: seq<T>, le: (T, T) -> bool, i: nat, j: nat)
    requires Sorted(s, le)
    requires forall a, b, c :: le(a, b) && le(b, c) ==> le(a, c)
    requires i <= j < |s| && i < j
    ensures le(s[i], s[j])
    decreases j - i
  {
    if i + 1 < j {
      SortedChain(s, le, i + 1, j);
    }
  }

  /**
   * `topMonths`: at most five entries, five when there are at least five months; each is a
   * month of the tally with its count; and the counts never increase down the list.
   */
  lemma TopMonthsShape(ms: seq<Memory>)
    ensures var top := Take5(SortBy(Entries(ms, MonthOf), ByCountDesc));
      && |top| <= 5
      && (|Keys(ms, MonthOf)| >= 5 ==> |top| == 5)
      && (forall e :: e in top ==> e in Entries(ms, MonthOf))
      && (forall i, j :: 0 <= i < j < |top| ==> top[i].1 >= top[j].1)
  {
    var es := Entries(ms, MonthOf);
    var sorted := SortBy(es, ByCountDesc);
    var top := Take5(sorted);
    SortByPermutation(es, ByCountDesc);
    SortBySorted(es, ByCountDesc);
    forall e | e in top
      ensures e in es
    {
      assert e in multiset(sorted);
    }
    forall i, j | 0 <= i < j < |top|
      ensures top[i].1 >= top[j].1
    {
      SortedChain(sorted, ByCountDesc, i, j);
    }
  }

  /** No month left out of `topMonths` has more memories than a month in it. */
  lemma TopMonthsBusiest(ms: seq<Memory>, e: (string, nat))
    requires e in Entries(ms, MonthOf)
    requires e !in Take5(SortBy(Entries(ms, MonthOf), ByCountDesc))
    ensures forall i :: 0 <= i < |Take5(SortBy(Entries(ms, MonthOf), ByCountDesc))| ==>
      e.1 <= Take5(SortBy(Entries(ms, MonthOf), ByCountDesc))[i].1
  {
    var es := Entries(ms, MonthOf);
    var sorted := SortBy(es, ByCountDesc);
    var top := Take5(sorted);
    SortByPermutation(es, ByCountDesc);
    SortBySorted(es, ByCountDesc);
    assert e in multiset(sorted);
    var j :| 0 <= j < |sorted| && sorted[j] == e;
    forall i | 0 <= i < |top|
      ensures e.1 <= top[i].1
    {
      SortedChain(sorted, ByCountDesc, i, j);
    }
  }

  /** A full date `YYYY-MM-DD` is counted under its four-digit year. */
  lemma YearOfFullDate(m: Memory)
    requires DateFilter.FullDate(m.date)
    ensures YearOf(m) == Some(DateFilter.Year(m.date) as int)
  {
    var y := m.date[..4];
    assert TrimStart(y) == y;
    DigitPrefixOfDigits(y);
  }

  lemma {:induction false} DigitPrefixOfDigits(s: string)
    requires AllDigits(s)
    ensures DigitPrefix(s) == s
    decreases |s|
  {
    if s != [] {
      DigitPrefixOfDigits(s[1..]);
    }
  }

  /**
   * `byYear`: with every year well formed (no NaN), the years come in ascending order, and
   * each entry is a year of the tally with its count.
   */
  lemma ByYearAscending(ms: seq<Memory>)
    requires forall i :: 0 <= i < |ms| ==> YearOf(ms[i]).Some?
    ensures var byYear := SortBy(Entries(ms, YearOf), ByYearAsc);
      && (forall e :: e in byYear ==> e in Entries(ms, YearOf) && e.0.Some?)
      && (forall i, j :: 0 <= i < j < |byYear| ==> byYear[i].0.value <= byYear[j].0.value)
  {
    ByYearEntries(ms);
    var sorted := SortBy(Entries(ms, YearOf), ByYearAsc);
    SortBySorted(Entries(ms, YearOf), ByYearAsc);
    forall i, j | 0 <= i < j < |sorted|
      ensures sorted[i].0.value <= sorted[j].0.value
    {
      AscendingChain(sorted, i, j);
    }
  }

  /** Sorting the entries keeps them entries of the tally, each with a year. */
  lemma ByYearEntries(ms: seq<Memory>)
    requires forall i :: 0 <= i < |ms| ==> YearOf(ms[i]).Some?
    ensures forall e :: e in SortBy(Entries(ms, YearOf), ByYearAsc) ==> e in Entries(ms, YearOf) && e.0.Some?
  {
    var es := Entries(ms, YearOf);
    var sorted := SortBy(es, ByYearAsc);
    SortByPermutation(es, ByYearAsc);
    forall e | e in sorted
      ensures e in es && e.0.Some?
    {
      assert e in multiset(sorted);
      EntryMeaning(ms, YearOf, e);
    }
  }

  lemma {:induction false} AscendingChain(s: seq<(Option<int>, nat)>, i: nat, j: nat)
    requires Sorted(s, ByYearAsc)
    requires forall k :: 0 <= k < |s| ==> s[k].0.Some?
    requires i < j < |s|
    ensures s[i].0.value <= s[j].0.value
    decreases j - i
  {
    assert ByYearAsc(s[i], s[i + 1]);
    if i + 1 < j {
      AscendingChain(s, i + 1, j);
    }
  }
}
