/**
 * The application store (`useMemoryStore`): memories, groups, the selection, the add flow and
 * a few view flags. Every action replaces some fields with values computed from the old state;
 * `State` is the whole store as a value and each action is a transition on it.
 */
module Store {
  import opened Wrappers
  import opened Seqs
  import opened Model

  datatype Theme = Dark | Light

  /** `SearchHighlight`: nothing, a point, or a `[south, north, west, east]` box. */
  datatype SearchHighlight =
    | NoHighlight
    | PointHighlight(lat: int, lng: int)
    | AreaHighlight(south: int, north: int, west: int, east: int)

  datatype State = State(
    memories: seq<Memory>,
    groups: seq<Group>,
    selectedMemory: Option<Memory>,
    editingMemory: Option<Memory>,
    isAddingMemory: bool,
    pendingLatLng: Option<LatLng>,
    searchHighlight: SearchHighlight,
    sidebarOpen: bool,
    searchQuery: string,
    theme: Theme,
    defaultGroupId: Option<string>)

  /** The store's initial value. */
  const Initial := State([], [], None, None, false, None, NoHighlight, true, "", Dark, None)

  /** What the persistence layer writes: the output of `partialize`. */
  datatype PersistedState = PersistedState(
    memories: seq<Memory>, groups: seq<Group>, theme: Theme, defaultGroupId: Option<string>)

  /** `partialize`: the persisted part of the store. */
  function Partialize(s: State): PersistedState {
    PersistedState(s.memories, s.groups, s.theme, s.defaultGroupId)
  }

  /** Selection, add flow, search and sidebar flags never reach storage. */
  lemma PartializeIgnoresTransient(s: State, t: State)
    requires s.memories == t.memories && s.groups == t.groups
    requires s.theme == t.theme && s.defaultGroupId == t.defaultGroupId
    ensures Partialize(s) == Partialize(t)
  {
  }

  /** Persisted states differ exactly when one of the four persisted fields differs. */
  lemma PartializeDistinguishesPersisted(s: State, t: State)
    requires Partialize(s) == Partialize(t)
    ensures s.memories == t.memories && s.groups == t.groups
    ensures s.theme == t.theme && s.defaultGroupId == t.defaultGroupId
  {
  }

  // ---------------------------------------------------------------------------------------
  // The new values the actions compute

  /** `memories.map(m => m.id === id ? { ...m, ...p } : m)`. */
  function UpdateMemories(ms: seq<Memory>, id: string, p: MemoryPatch): (r: seq<Memory>)
    ensures |r| == |ms|
  {
    if ms == [] then []
    else [if ms[0].id == id then MergeMemory(ms[0], p) else ms[0]] + UpdateMemories(ms[1..], id, p)
  }

  /** The test `m => m.id !== id`. */
  function OtherId(id: string): Memory -> bool {
    (m: Memory) => m.id != id
  }

  /** `memories.filter(m => m.id !== id)`. */
  function RemoveMemories(ms: seq<Memory>, id: string): seq<Memory> {
    Filter(ms, OtherId(id))
  }

  /** `memories.map(m => m.groupId === id ? { ...m, groupId: null } : m)`. */
  function DetachGroup(ms: seq<Memory>, id: string): (r: seq<Memory>)
    ensures |r| == |ms|
  {
    if ms == [] then []
    else [if ms[0].groupId == Some(id) then ms[0].(groupId := None) else ms[0]] + DetachGroup(ms[1..], id)
  }

  /** `groups.map(g => g.id === id ? { ...g, ...p } : g)`. */
  function UpdateGroups(gs: seq<Group>, id: string, p: GroupPatch): (r: seq<Group>)
    ensures |r| == |gs|
  {
    if gs == [] then []
    else [if gs[0].id == id then MergeGroup(gs[0], p) else gs[0]] + UpdateGroups(gs[1..], id, p)
  }

  /** The test `g => g.id !== id`. */
  function OtherGroupId(id: string): Group -> bool {
    (g: Group) => g.id != id
  }

  /** `groups.filter(g => g.id !== id)`. */
  function RemoveGroups(gs: seq<Group>, id: string): seq<Group> {
    Filter(gs, OtherGroupId(id))
  }

  // ---------------------------------------------------------------------------------------
  // The actions as transitions

  function AddMemoryStep(s: State, m: Memory): State {
    s.(memories := s.memories + [m], isAddingMemory := false, pendingLatLng := None)
  }

  function UpdateMemoryStep(s: State, id: string, p: MemoryPatch): State {
    s.(memories := UpdateMemories(s.memories, id, p),
       selectedMemory :=
         if s.selectedMemory.Some? && s.selectedMemory.value.id == id
         then Some(MergeMemory(s.selectedMemory.value, p))
         else s.selectedMemory)
  }

  function RemoveMemoryStep(s: State, id: string): State {
    s.(memories := RemoveMemories(s.memories, id),
       selectedMemory :=
         if s.selectedMemory.Some? && s.selectedMemory.value.id == id then None else s.selectedMemory)
  }

  function AddGroupStep(s: State, g: Group): State {
    s.(groups := s.groups + [g], defaultGroupId := Some(g.id))
  }

  function RemoveGroupStep(s: State, id: string): State {
    s.(groups := RemoveGroups(s.groups, id),
       memories := DetachGroup(s.memories, id),
       defaultGroupId := if s.defaultGroupId == Some(id) then None else s.defaultGroupId)
  }

  function UpdateGroupStep(s: State, id: string, p: GroupPatch): State {
    s.(groups := UpdateGroups(s.groups, id, p))
  }

  // ---------------------------------------------------------------------------------------
  // What the actions promise

  /** `addMemory` puts the memory last, keeps the others and closes the add flow. */
  lemma AddMemoryAppends(s: State, m: Memory)
    ensures var t := AddMemoryStep(s, m);
      && |t.memories| == |s.memories| + 1 && t.memories[|s.memories|] == m
      && t.memories[..|s.memories|] == s.memories
      && !t.isAddingMemory && t.pendingLatLng.None?
      && t.(memories := s.memories, isAddingMemory := s.isAddingMemory,
            pendingLatLng := s.pendingLatLng) == s
  {
  }

  /** `updateMemory` merges into exactly the memories with that id, in place. */
  lemma {:induction false} UpdateMemoriesMerges(ms: seq<Memory>, id: string, p: MemoryPatch)
    ensures var r := UpdateMemories(ms, id, p);
      forall i :: 0 <= i < |ms| ==>
        r[i] == (if ms[i].id == id then MergeMemory(ms[i], p) else ms[i])
  {
    if ms != [] {
      UpdateMemoriesMerges(ms[1..], id, p);
      var r := UpdateMemories(ms, id, p);
      assert r[1..] == UpdateMemories(ms[1..], id, p);
    }
  }

  /** An id no memory has leaves the list as it was. */
  lemma {:induction false} UpdateMemoriesUnknownId(ms: seq<Memory>, id: string, p: MemoryPatch)
    requires forall i :: 0 <= i < |ms| ==> ms[i].id != id
    ensures UpdateMemories(ms, id, p) == ms
  {
    if ms != [] {
      UpdateMemoriesUnknownId(ms[1..], id, p);
    }
  }

  /** The selected copy is merged exactly when it has that id. */
  lemma UpdateMemorySelected(s: State, id: string, p: MemoryPatch)
    ensures var t := UpdateMemoryStep(s, id, p);
      && (s.selectedMemory.Some? && s.selectedMemory.value.id == id ==>
            t.selectedMemory == Some(MergeMemory(s.selectedMemory.value, p)))
      && (s.selectedMemory.None? || s.selectedMemory.value.id != id ==>
            t.selectedMemory == s.selectedMemory)
      && t.(memories := s.memories, selectedMemory := s.selectedMemory) == s
  {
  }

  /**
   * `removeMemory` drops every copy of a memory with that id and keeps every other memory,
   * as often as it occurred and in its order.
   */
  lemma RemoveMemoriesKeepsOthers(ms: seq<Memory>, id: string, m: Memory)
    ensures forall i :: 0 <= i < |RemoveMemories(ms, id)| ==> RemoveMemories(ms, id)[i].id != id
    ensures multiset(RemoveMemories(ms, id))[m] == if m.id != id then multiset(ms)[m] else 0
    ensures IsSubseq(RemoveMemories(ms, id), ms)
  {
    FilterMultiset(ms, OtherId(id), m);
    FilterIsSubseq(ms, OtherId(id));
  }

  /** The selection is cleared only when it had that id; the memory being edited is kept. */
  lemma RemoveMemorySelection(s: State, id: string)
    ensures var t := RemoveMemoryStep(s, id);
      && (t.selectedMemory.None? <==> s.selectedMemory.None? || s.selectedMemory.value.id == id)
      && (t.selectedMemory.Some? ==> t.selectedMemory == s.selectedMemory)
      && t.editingMemory == s.editingMemory
      && t.(memories := s.memories, selectedMemory := s.selectedMemory) == s
  {
  }

  /** `addGroup` puts the group last and makes it the default for new memories. */
  lemma AddGroupMakesDefault(s: State, g: Group)
    ensures var t := AddGroupStep(s, g);
      && t.groups == s.groups + [g] && t.defaultGroupId == Some(g.id)
      && t.(groups := s.groups, defaultGroupId := s.defaultGroupId) == s
  {
  }

  /** Detaching a group clears exactly its members' group and touches nothing else. */
  lemma {:induction false} DetachGroupCascade(ms: seq<Memory>, id: string)
    ensures var r := DetachGroup(ms, id);
      forall i :: 0 <= i < |ms| ==>
        && r[i].groupId == (if ms[i].groupId == Some(id) then None else ms[i].groupId)
        && r[i].(groupId := ms[i].groupId) == ms[i]
  {
    if ms != [] {
      DetachGroupCascade(ms[1..], id);
      var r := DetachGroup(ms, id);
      assert r[1..] == DetachGroup(ms[1..], id);
    }
  }

  /**
   * `removeGroup` deletes the group, deletes no memory, leaves no memory pointing at it and
   * clears the default group exactly when it was that group.
   */
  lemma RemoveGroupCascade(s: State, id: string)
    ensures var t := RemoveGroupStep(s, id);
      && |t.memories| == |s.memories|
      && (forall i :: 0 <= i < |t.memories| ==> t.memories[i].groupId != Some(id))
      && (forall i :: 0 <= i < |t.memories| ==> t.memories[i].id == s.memories[i].id)
      && (forall i :: 0 <= i < |t.groups| ==> t.groups[i].id != id)
      && (forall i :: 0 <= i < |s.groups| && s.groups[i].id != id ==> s.groups[i] in t.groups)
      && (t.defaultGroupId.None? <==> s.defaultGroupId.None? || s.defaultGroupId == Some(id))
      && (t.defaultGroupId.Some? ==> t.defaultGroupId == s.defaultGroupId)
  {
    DetachGroupCascade(s.memories, id);
    forall i | 0 <= i < |s.groups| && s.groups[i].id != id
      ensures s.groups[i] in RemoveGroups(s.groups, id)
    {
      FilterMembers(s.groups, OtherGroupId(id), s.groups[i]);
    }
  }

  /** `updateGroup` merges into exactly the groups with that id. */
  lemma {:induction false} UpdateGroupsMerges(gs: seq<Group>, id: string, p: GroupPatch)
    ensures var r := UpdateGroups(gs, id, p);
      forall i :: 0 <= i < |gs| ==>
        r[i] == (if gs[i].id == id then MergeGroup(gs[i], p) else gs[i])
  {
    if gs != [] {
      UpdateGroupsMerges(gs[1..], id, p);
      var r := UpdateGroups(gs, id, p);
      assert r[1..] == UpdateGroups(gs[1..], id, p);
    }
  }

  /** `updateGroup` changes only `groups`. */
  lemma UpdateGroupOnlyGroups(s: State, id: string, p: GroupPatch)
    ensures UpdateGroupStep(s, id, p).(groups := s.groups) == s
  {
  }

  // ---------------------------------------------------------------------------------------

  /** The store object. Each method is one action of `useMemoryStore`. */
  class MemoryStore {
    var memories: seq<Memory>
    var groups: seq<Group>
    var selectedMemory: Option<Memory>
    var editingMemory: Option<Memory>
    var isAddingMemory: bool
    var pendingLatLng: Option<LatLng>
    var searchHighlight: SearchHighlight
    var sidebarOpen: bool
    var searchQuery: string
    var theme: Theme
    var defaultGroupId: Option<string>

    /** The whole store as a value. */
    function Current(): State
      reads this
    {
      State(memories, groups, selectedMemory, editingMemory, isAddingMemory, pendingLatLng,
            searchHighlight, sidebarOpen, searchQuery, theme, defaultGroupId)
    }

    constructor ()
      ensures Current() == Initial
    {
      memories, groups := [], [];
      selectedMemory, editingMemory := None, None;
      isAddingMemory, pendingLatLng := false, None;
      searchHighlight, sidebarOpen, searchQuery := NoHighlight, true, "";
      theme, defaultGroupId := Dark, None;
    }

    method SetMemories(ms: seq<Memory>)
      modifies this
      ensures Current() == old(Current()).(memories := ms)
    {
      memories := ms;
    }

    method AddMemory(m: Memory)
      modifies this
      ensures Current() == AddMemoryStep(old(Current()), m)
    {
      memories := memories + [m];
      isAddingMemory := false;
      pendingLatLng := None;
    }

    method UpdateMemory(id: string, p: MemoryPatch)
      modifies this
      ensures Current() == UpdateMemoryStep(old(Current()), id, p)
    {
      memories := UpdateMemories(memories, id, p);
      if selectedMemory.Some? && selectedMemory.value.id == id {
        selectedMemory := Some(MergeMemory(selectedMemory.value, p));
      }
    }

    method RemoveMemory(id: string)
      modifies this
      ensures Current() == RemoveMemoryStep(old(Current()), id)
    {
      memories := RemoveMemories(memories, id);
      if selectedMemory.Some? && selectedMemory.value.id == id {
        selectedMemory := None;
      }
    }

    method SetSelectedMemory(m: Option<Memory>)
      modifies this
      ensures Current() == old(Current()).(selectedMemory := m)
    {
      selectedMemory := m;
    }

    method SetTheme(t: Theme)
      modifies this
      ensures Current() == old(Current()).(theme := t)
    {
      theme := t;
    }

    method SetDefaultGroupId(id: Option<string>)
      modifies this
      ensures Current() == old(Current()).(defaultGroupId := id)
    {
      defaultGroupId := id;
    }

    method AddGroup(g: Group)
      modifies this
      ensures Current() == AddGroupStep(old(Current()), g)
    {
      groups := groups + [g];
      defaultGroupId := Some(g.id);
    }

    method RemoveGroup(id: string)
      modifies this
      ensures Current() == RemoveGroupStep(old(Current()), id)
    {
      groups := RemoveGroups(groups, id);
      memories := DetachGroup(memories, id);
      if defaultGroupId == Some(id) {
        defaultGroupId := None;
      }
    }

    method UpdateGroup(id: string, p: GroupPatch)
      modifies this
      ensures Current() == UpdateGroupStep(old(Current()), id, p)
    {
      groups := UpdateGroups(groups, id, p);
    }

    method SetEditingMemory(m: Option<Memory>)
      modifies this
      ensures Current() == old(Current()).(editingMemory := m)
    {
      editingMemory := m;
    }

    method SetIsAddingMemory(b: bool)
      modifies this
      ensures Current() == old(Current()).(isAddingMemory := b)
    {
      isAddingMemory := b;
    }

    method SetPendingLatLng(p: Option<LatLng>)
      modifies this
      ensures Current() == old(Current()).(pendingLatLng := p)
    {
      pendingLatLng := p;
    }

    method SetSearchHighlight(h: SearchHighlight)
      modifies this
      ensures Current() == old(Current()).(searchHighlight := h)
    {
      searchHighlight := h;
    }

    method SetSidebarOpen(b: bool)
      modifies this
      ensures Current() == old(Current()).(sidebarOpen := b)
    {
      sidebarOpen := b;
    }

    method SetSearchQuery(q: string)
      modifies this
      ensures Current() == old(Current()).(searchQuery := q)
    {
      searchQuery := q;
    }
  }
}
