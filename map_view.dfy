/**
 * `MapView`: which markers the map draws, and what a click on the map does to the store.
 * A memory is drawn unless it is hidden itself or it belongs to a hidden group; a memory whose
 * group no longer exists is drawn.
 */
module MapView {
  import opened Wrappers
  import opened Seqs
  import opened Model
  import opened Store

  /** `hiddenGroupIds`: the ids of the groups whose `hidden` flag is truthy. */
  function HiddenGroupIds(gs: seq<Group>): set<string> {
    set i | 0 <= i < |gs| && Flag(gs[i].hidden) :: gs[i].id
  }

  /** The two filters of `visibleMemoryIds`: not hidden, and no group id or not a hidden one. */
  predicate PassesFilters(m: Memory, hiddenGroups: set<string>) {
    !Flag(m.hidden) && (m.groupId.None? || m.groupId.value !in hiddenGroups)
  }

  /** `visibleMemoryIds`: the ids of the memories that pass both filters. */
  function VisibleMemoryIds(ms: seq<Memory>, gs: seq<Group>): set<string> {
    set i | 0 <= i < |ms| && PassesFilters(ms[i], HiddenGroupIds(gs)) :: ms[i].id
  }

  function IdIn(ids: set<string>): Memory -> bool {
    (m: Memory) => m.id in ids
  }

  /** `visible`: the memories whose id is visible, in store order; one marker each. */
  function Markers(ms: seq<Memory>, gs: seq<Group>): (r: seq<Memory>)
    ensures |r| <= |ms|
  {
    Filter(ms, IdIn(VisibleMemoryIds(ms, gs)))
  }

  /**
   * The rule the map follows, stated on the groups themselves: the memory is not hidden, and
   * if it names a group, no group of that id is hidden.
   */
  predicate Visible(m: Memory, gs: seq<Group>) {
    && !Flag(m.hidden)
    && (m.groupId.Some? ==>
          forall i :: 0 <= i < |gs| && gs[i].id == m.groupId.value ==> !Flag(gs[i].hidden))
  }

  /** The filters of `visibleMemoryIds` decide exactly `Visible`. */
  lemma PassesFiltersIsVisible(m: Memory, gs: seq<Group>)
    ensures PassesFilters(m, HiddenGroupIds(gs)) <==> Visible(m, gs)
  {
    if m.groupId.Some? && m.groupId.value in HiddenGroupIds(gs) {
      var i :| 0 <= i < |gs| && Flag(gs[i].hidden) && gs[i].id == m.groupId.value;
    }
  }

  /** An id is visible exactly when some memory with that id is `Visible`. */
  lemma VisibleIdsIff(ms: seq<Memory>, gs: seq<Group>, id: string)
    ensures id in VisibleMemoryIds(ms, gs) <==>
      exists k :: 0 <= k < |ms| && ms[k].id == id && Visible(ms[k], gs)
  {
    if id in VisibleMemoryIds(ms, gs) {
      var k :| 0 <= k < |ms| && PassesFilters(ms[k], HiddenGroupIds(gs)) && ms[k].id == id;
      PassesFiltersIsVisible(ms[k], gs);
    }
    if k :| 0 <= k < |ms| && ms[k].id == id && Visible(ms[k], gs) {
      PassesFiltersIsVisible(ms[k], gs);
    }
  }

  /**
   * Markers are chosen by id: a memory gets one exactly when it is in the store and some
   * memory with its id is `Visible` (itself, when ids are unique).
   */
  lemma MarkersIff(ms: seq<Memory>, gs: seq<Group>, m: Memory)
    ensures m in Markers(ms, gs) <==>
      m in ms && exists k :: 0 <= k < |ms| && ms[k].id == m.id && Visible(ms[k], gs)
  {
    FilterMembers(ms, IdIn(VisibleMemoryIds(ms, gs)), m);
    VisibleIdsIff(ms, gs, m.id);
  }

  /** Markers keep the store order. */
  lemma MarkersInOrder(ms: seq<Memory>, gs: seq<Group>)
    ensures IsSubseq(Markers(ms, gs), ms)
  {
    FilterIsSubseq(ms, IdIn(VisibleMemoryIds(ms, gs)));
  }

  predicate UniqueIds(ms: seq<Memory>) {
    forall i, j :: 0 <= i < j < |ms| ==> ms[i].id != ms[j].id
  }

  function VisibleIn(gs: seq<Group>): Memory -> bool {
    (m: Memory) => Visible(m, gs)
  }

  /** With unique ids the markers are the store's memories filtered by `Visible`. */
  lemma MarkersUniqueIds(ms: seq<Memory>, gs: seq<Group>)
    requires UniqueIds(ms)
    ensures Markers(ms, gs) == Filter(ms, VisibleIn(gs))
  {
    forall i | 0 <= i < |ms|
      ensures IdIn(VisibleMemoryIds(ms, gs))(ms[i]) == VisibleIn(gs)(ms[i])
    {
      VisibleIdsIff(ms, gs, ms[i].id);
    }
    FilterCongruent(ms, IdIn(VisibleMemoryIds(ms, gs)), VisibleIn(gs));
  }

  /** A memory hidden itself has no marker, whatever its group, when ids are unique. */
  lemma HiddenMemoryNotDrawn(ms: seq<Memory>, gs: seq<Group>, m: Memory)
    requires UniqueIds(ms) && Flag(m.hidden)
    ensures m !in Markers(ms, gs)
  {
    MarkersIff(ms, gs, m);
    if m in ms {
      var j :| 0 <= j < |ms| && ms[j] == m;
      forall k | 0 <= k < |ms| && ms[k].id == m.id
        ensures k == j
      {
      }
    }
  }

  /** Hiding a group takes the markers of all its memories off the map (unique ids). */
  lemma HiddenGroupNotDrawn(ms: seq<Memory>, gs: seq<Group>, m: Memory, g: Group)
    requires UniqueIds(ms) && g in gs && Flag(g.hidden) && m.groupId == Some(g.id)
    ensures m !in Markers(ms, gs)
  {
    MarkersIff(ms, gs, m);
    if m in ms {
      var j :| 0 <= j < |ms| && ms[j] == m;
      forall k | 0 <= k < |ms| && ms[k].id == m.id
        ensures k == j
      {
      }
    }
  }

  /**
   * A memory of the store that is not hidden itself is drawn when it has no group, when its
   * group is not hidden, and when no group has its group id (the group was removed).
   */
  lemma ShownMemoryDrawn(ms: seq<Memory>, gs: seq<Group>, m: Memory)
    requires m in ms && !Flag(m.hidden)
    requires m.groupId.Some? ==> forall g :: g in gs && g.id == m.groupId.value ==> !Flag(g.hidden)
    ensures m in Markers(ms, gs)
  {
    MarkersIff(ms, gs, m);
    var j :| 0 <= j < |ms| && ms[j] == m;
    if m.groupId.Some? {
      forall i | 0 <= i < |gs| && gs[i].id == m.groupId.value
        ensures !Flag(gs[i].hidden)
      {
        assert gs[i] in gs;
      }
    }
    assert Visible(ms[j], gs);
  }

  // ---------------------------------------------------------------------------------------
  // A click on the map

  /** `onMapClick`: clear the search highlight, remember the point and open the add flow. */
  function MapClickStep(s: State, at: LatLng): State {
    s.(searchHighlight := NoHighlight, pendingLatLng := Some(at), isAddingMemory := true)
  }

  /** `onMapClick` issued against the store, setter by setter. */
  method MapClick(store: MemoryStore, at: LatLng)
    modifies store
    ensures store.Current() == MapClickStep(old(store.Current()), at)
  {
    store.SetSearchHighlight(NoHighlight);
    store.SetPendingLatLng(Some(at));
    store.SetIsAddingMemory(true);
  }

  /**
   * A click touches nothing that is persisted and blurs the map (`mapBlurred` is
   * `isAddingMemory`); saving the new memory afterwards closes the flow again and forgets
   * the point.
   */
  lemma MapClickThenAdd(s: State, at: LatLng, m: Memory)
    ensures Partialize(MapClickStep(s, at)) == Partialize(s)
    ensures MapClickStep(s, at).isAddingMemory
    ensures var t := AddMemoryStep(MapClickStep(s, at), m);
      && t.memories == s.memories + [m]
      && !t.isAddingMemory && t.pendingLatLng.None? && t.searchHighlight.NoHighlight?
  {
  }
}
