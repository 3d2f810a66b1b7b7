/** The order the sidebar lists memories in, which also numbers the map markers. */
module MemoryOrder {
  import opened Wrappers
  import opened Seqs
  import opened Model

  /**
   * `compareOrderThenCreatedAt`: by `order`, a missing order counting as infinitely large, then
   * by creation time. `timeOf` stands for `new Date(createdAt).getTime()`. Only the sign of the
   * result matters to sorting; the infinite differences are written as -1 and 1.
   */
  function Compare(a: Memory, b: Memory, timeOf: string -> int): (r: int)
    ensures a.order.Some? && b.order.None? ==> r < 0
    ensures a.order.None? && b.order.Some? ==> r > 0
    ensures a.order.Some? && b.order.Some? && a.order != b.order ==>
              (r < 0 <==> a.order.value < b.order.value)
    ensures a.order == b.order ==> (r < 0 <==> timeOf(a.createdAt) < timeOf(b.createdAt))
  {
    match (a.order, b.order)
    case (Some(x), Some(y)) =>
      if x != y then x - y else timeOf(a.createdAt) - timeOf(b.createdAt)
    case (Some(_), None) => -1
    case (None, Some(_)) => 1
    case (None, None) => timeOf(a.createdAt) - timeOf(b.createdAt)
  }

  /** Swapping the arguments flips the sign. */
  lemma CompareAntisymmetric(a: Memory, b: Memory, timeOf: string -> int)
    ensures Compare(a, b, timeOf) == -Compare(b, a, timeOf)
  {
  }

  /** The sort key the comparator orders by: the order (missing last), then the time. */
  lemma CompareIsLexicographic(a: Memory, b: Memory, timeOf: string -> int)
    ensures Compare(a, b, timeOf) <= 0 <==>
      (a.order.Some? && (b.order.None? || a.order.value < b.order.value))
      || (a.order == b.order && timeOf(a.createdAt) <= timeOf(b.createdAt))
  {
  }

  /** The comparator as the relation "comes no later than". */
  function OrderLe(timeOf: string -> int): (Memory, Memory) -> bool {
    (a: Memory, b: Memory) => Compare(a, b, timeOf) <= 0
  }

  lemma OrderLeTotal(timeOf: string -> int)
    ensures Total(OrderLe(timeOf))
  {
    forall a: Memory, b: Memory ensures OrderLe(timeOf)(a, b) || OrderLe(timeOf)(b, a) {
      CompareAntisymmetric(a, b, timeOf);
    }
  }

  /** The memories of the group `gid`, sorted by `le`: one group's run in the sidebar. */
  function GroupSegment(ms: seq<Memory>, le: (Memory, Memory) -> bool, gid: string): seq<Memory> {
    SortBy(MembersOf(ms, gid), le)
  }

  /** A group's run, as a function of the group. */
  function RunOf(ms: seq<Memory>, le: (Memory, Memory) -> bool): Group -> seq<Memory> {
    (g: Group) => GroupSegment(ms, le, g.id)
  }

  /** The runs of the groups `gs`, one after another. */
  function Segments(ms: seq<Memory>, gs: seq<Group>, le: (Memory, Memory) -> bool): seq<Memory> {
    FlatMap(gs, RunOf(ms, le))
  }

  /** The ungrouped memories sorted by `le`, then each group's memories sorted by `le`. */
  function SidebarOrderBy(ms: seq<Memory>, gs: seq<Group>, le: (Memory, Memory) -> bool)
    : seq<Memory>
  {
    SortBy(UngroupedOf(ms), le) + Segments(ms, gs, le)
  }

  /** What `memoriesInSidebarOrder` returns. */
  function SidebarOrder(ms: seq<Memory>, gs: seq<Group>, timeOf: string -> int): seq<Memory> {
    SidebarOrderBy(ms, gs, OrderLe(timeOf))
  }

  /** One more group's run, appended after the runs of the groups before it. */
  lemma SegmentsStep(ms: seq<Memory>, gs: seq<Group>, le: (Memory, Memory) -> bool, i: nat, u: seq<Memory>)
    requires i < |gs|
    ensures u + Segments(ms, gs[..i + 1], le) == (u + Segments(ms, gs[..i], le)) + SortBy(MembersOf(ms, gs[i].id), le)
  {
    FlatMapSnoc(gs, RunOf(ms, le), i);
    assert RunOf(ms, le)(gs[i]) == SortBy(MembersOf(ms, gs[i].id), le);
  }

  /** `memoriesInSidebarOrder`: the ungrouped memories, then one group after another. */
  method MemoriesInSidebarOrder(ms: seq<Memory>, gs: seq<Group>, timeOf: string -> int)
    returns (result: seq<Memory>)
    ensures result == SidebarOrder(ms, gs, timeOf)
  {
    var le := OrderLe(timeOf);
    var ungrouped := SortBy(UngroupedOf(ms), le);
    result := ungrouped;
    for i := 0 to |gs|
      invariant result == ungrouped + Segments(ms, gs[..i], le)
    {
      SegmentsStep(ms, gs, le, i, ungrouped);
      result := result + SortBy(MembersOf(ms, gs[i].id), le);
    }
    assert gs[..|gs|] == gs;
  }

  /** The ungrouped memories come first, sorted. */
  lemma UngroupedFirst(ms: seq<Memory>, gs: seq<Group>, timeOf: string -> int)
    ensures var u := SortBy(UngroupedOf(ms), OrderLe(timeOf));
      SidebarOrder(ms, gs, timeOf)[..|u|] == u && Sorted(u, OrderLe(timeOf))
      && |u| == |UngroupedOf(ms)|
  {
    OrderLeTotal(timeOf);
    SortBySorted(UngroupedOf(ms), OrderLe(timeOf));
  }

  /** Where the run of the group at index `i` starts in the sidebar order. */
  function RunStart(ms: seq<Memory>, gs: seq<Group>, le: (Memory, Memory) -> bool, i: nat): nat
    requires i <= |gs|
  {
    |SortBy(UngroupedOf(ms), le)| + |Segments(ms, gs[..i], le)|
  }

  lemma GroupRun(ms: seq<Memory>, gs: seq<Group>, le: (Memory, Memory) -> bool, i: nat)
    requires i < |gs|
    ensures RunStart(ms, gs, le, i) + |GroupSegment(ms, le, gs[i].id)| <= |SidebarOrderBy(ms, gs, le)|
    ensures SidebarOrderBy(ms, gs, le)[RunStart(ms, gs, le, i)..RunStart(ms, gs, le, i) + |GroupSegment(ms, le, gs[i].id)|]
         == GroupSegment(ms, le, gs[i].id)
  {
    FlatMapAtAfter(SortBy(UngroupedOf(ms), le), gs, RunOf(ms, le), i);
    assert RunOf(ms, le)(gs[i]) == GroupSegment(ms, le, gs[i].id);
  }

  /** A group's run is its memories, sorted and nothing else. */
  lemma RunSorted(ms: seq<Memory>, gid: string, timeOf: string -> int)
    ensures Sorted(GroupSegment(ms, OrderLe(timeOf), gid), OrderLe(timeOf))
    ensures multiset(GroupSegment(ms, OrderLe(timeOf), gid)) == multiset(MembersOf(ms, gid))
  {
    OrderLeTotal(timeOf);
    SortBySorted(MembersOf(ms, gid), OrderLe(timeOf));
    SortByPermutation(MembersOf(ms, gid), OrderLe(timeOf));
  }

  /** Each group's memories appear as one sorted run, after the runs of the groups listed before it. */
  lemma GroupSegmentSorted(ms: seq<Memory>, gs: seq<Group>, timeOf: string -> int, i: nat)
    requires i < |gs|
    ensures var start := RunStart(ms, gs, OrderLe(timeOf), i);
      var run := SortBy(MembersOf(ms, gs[i].id), OrderLe(timeOf));
      && start + |run| <= |SidebarOrder(ms, gs, timeOf)|
      && SidebarOrder(ms, gs, timeOf)[start..start + |run|] == run
      && Sorted(run, OrderLe(timeOf))
      && multiset(run) == multiset(MembersOf(ms, gs[i].id))
  {
    var le := OrderLe(timeOf);
    assert SidebarOrder(ms, gs, timeOf) == SidebarOrderBy(ms, gs, le);
    assert GroupSegment(ms, le, gs[i].id) == SortBy(MembersOf(ms, gs[i].id), le);
    GroupRun(ms, gs, le, i);
    RunSorted(ms, gs[i].id, timeOf);
  }

  /** Group ids are non-empty and distinct. */
  predicate DistinctGroupIds(gs: seq<Group>) {
    && (forall i :: 0 <= i < |gs| ==> gs[i].id != "")
    && (forall i, j :: 0 <= i < j < |gs| ==> gs[i].id != gs[j].id)
  }

  lemma GroupIdsSnoc(gs: seq<Group>)
    requires gs != []
    ensures GroupIds(gs) == GroupIds(gs[..|gs| - 1]) + {gs[|gs| - 1].id}
  {
    var init := gs[..|gs| - 1];
    forall id | id in GroupIds(gs) ensures id in GroupIds(init) + {gs[|gs| - 1].id} {
      var k :| 0 <= k < |gs| && gs[k].id == id;
      if k < |gs| - 1 { assert init[k] == gs[k]; }
    }
    forall id | id in GroupIds(init) ensures id in GroupIds(gs) {
      var k :| 0 <= k < |init| && init[k].id == id;
      assert gs[k] == init[k];
    }
  }

  /** A memory occurs in a group's run as often as in the memories if it is in that group. */
  lemma GroupSegmentCount(ms: seq<Memory>, le: (Memory, Memory) -> bool, gid: string, x: Memory)
    ensures multiset(GroupSegment(ms, le, gid))[x] == if x.groupId == Some(gid) then multiset(ms)[x] else 0
  {
    SortByPermutation(MembersOf(ms, gid), le);
    FilterMultiset(ms, InGroupOf(gid), x);
  }

  /**
   * How often `x` occurs in the runs of distinct groups: as often as in the memories if its
   * group is listed, never otherwise.
   */
  lemma {:induction false} SegmentsCount(ms: seq<Memory>, gs: seq<Group>, le: (Memory, Memory) -> bool, x: Memory)
    requires forall i, j :: 0 <= i < j < |gs| ==> gs[i].id != gs[j].id
    ensures multiset(Segments(ms, gs, le))[x] ==
      if x.groupId.Some? && x.groupId.value in GroupIds(gs) then multiset(ms)[x] else 0
    decreases |gs|
  {
    if gs != [] {
      var init := gs[..|gs| - 1];
      assert Segments(ms, gs, le) == Segments(ms, init, le) + GroupSegment(ms, le, gs[|gs| - 1].id);
      SegmentsCount(ms, init, le, x);
      GroupSegmentCount(ms, le, gs[|gs| - 1].id, x);
      GroupIdsSnoc(gs);
    }
  }

  /** Which memories the sidebar lists: the ungrouped ones and those of a listed group. */
  predicate Listed(gs: seq<Group>, m: Memory) {
    IsUngrouped(m) || m.groupId.value in GroupIds(gs)
  }

  function ListedIn(gs: seq<Group>): Memory -> bool {
    m => Listed(gs, m)
  }

  lemma SidebarOrderCount(ms: seq<Memory>, gs: seq<Group>, le: (Memory, Memory) -> bool, x: Memory)
    requires DistinctGroupIds(gs)
    ensures multiset(SidebarOrderBy(ms, gs, le))[x] == multiset(Filter(ms, ListedIn(gs)))[x]
  {
    SegmentsCount(ms, gs, le, x);
    SortByPermutation(UngroupedOf(ms), le);
    FilterMultiset(ms, IsUngrouped, x);
    CountSplit(ms, gs, SortBy(UngroupedOf(ms), le), Segments(ms, gs, le), x);
  }

  lemma CountSplit(ms: seq<Memory>, gs: seq<Group>, u: seq<Memory>, rest: seq<Memory>, x: Memory)
    requires DistinctGroupIds(gs)
    requires multiset(u)[x] == if IsUngrouped(x) then multiset(ms)[x] else 0
    requires multiset(rest)[x] ==
      if x.groupId.Some? && x.groupId.value in GroupIds(gs) then multiset(ms)[x] else 0
    ensures multiset(u + rest)[x] == multiset(Filter(ms, ListedIn(gs)))[x]
  {
    FilterMultiset(ms, ListedIn(gs), x);
    if x.groupId.Some? && x.groupId.value in GroupIds(gs) {
      var k :| 0 <= k < |gs| && gs[k].id == x.groupId.value;
      assert !IsUngrouped(x);
    }
  }

  /**
   * With distinct, non-empty group ids the sidebar order is a permutation of the listed memories:
   * each one appears exactly as often as in the memories, and a memory of an unlisted group
   * not at all.
   */
  lemma SidebarOrderPermutation(ms: seq<Memory>, gs: seq<Group>, timeOf: string -> int)
    requires DistinctGroupIds(gs)
    ensures multiset(SidebarOrder(ms, gs, timeOf)) == multiset(Filter(ms, ListedIn(gs)))
  {
    forall x ensures multiset(SidebarOrder(ms, gs, timeOf))[x] == multiset(Filter(ms, ListedIn(gs)))[x] {
      SidebarOrderCount(ms, gs, OrderLe(timeOf), x);
    }
  }

  /**
   * A memory is in some group's run exactly when it is stored and its group is among `gs`,
   * whatever the ids of `gs` are (duplicated or empty ones included).
   */
  lemma {:induction false} SegmentsMembers(ms: seq<Memory>, gs: seq<Group>, le: (Memory, Memory) -> bool, x: Memory)
    ensures x in Segments(ms, gs, le) <==> x in ms && x.groupId.Some? && x.groupId.value in GroupIds(gs)
    decreases |gs|
  {
    if gs != [] {
      var init := gs[..|gs| - 1];
      var last := GroupSegment(ms, le, gs[|gs| - 1].id);
      assert Segments(ms, gs, le) == Segments(ms, init, le) + last;
      SegmentsMembers(ms, init, le, x);
      GroupSegmentCount(ms, le, gs[|gs| - 1].id, x);
      assert x in last <==> multiset(last)[x] > 0;
      assert x in ms <==> multiset(ms)[x] > 0;
      GroupIdsSnoc(gs);
    }
  }

  /**
   * The ids of `gs` need not be distinct or non-empty for membership: a memory is listed exactly
   * when it is stored and is ungrouped or its group is among `gs`.
   */
  lemma SidebarOrderMembers(ms: seq<Memory>, gs: seq<Group>, timeOf: string -> int, x: Memory)
    ensures x in SidebarOrder(ms, gs, timeOf) <==> x in ms && Listed(gs, x)
  {
    var le := OrderLe(timeOf);
    var u := SortBy(UngroupedOf(ms), le);
    assert SidebarOrder(ms, gs, timeOf) == u + Segments(ms, gs, le);
    SegmentsMembers(ms, gs, le, x);
    SortByPermutation(UngroupedOf(ms), le);
    assert x in u <==> multiset(u)[x] > 0;
    FilterMembers(ms, IsUngrouped, x);
  }

  /** With no groups, the sidebar order is the ungrouped memories sorted. */
  lemma NoGroupsSidebarOrder(ms: seq<Memory>, timeOf: string -> int)
    ensures SidebarOrder(ms, [], timeOf) == SortBy(UngroupedOf(ms), OrderLe(timeOf))
  {
  }
}
