/**
 * `Sidebar`: the search match and highlight of the memory list, the Ungrouped and per-group
 * sections, the hide and collapse toggles, group creation and the rename guard of a section.
 */
module Sidebar {
  import opened Wrappers
  import opened Seqs
  import opened Text
  import opened Model
  import opened Store
  import MapView

  // ---------------------------------------------------------------------------------------
  // Search

  /** `q` occurs in `t` at position `j` when letter case is ignored. */
  predicate FoundAt(t: string, q: string, j: nat) {
    j + |q| <= |t| && forall k :: 0 <= k < |q| ==> LowerChar(t[j + k]) == LowerChar(q[k])
  }

  /** `memoryMatchesSearch(m, q)`: a blank query matches; otherwise title, notes or date contain it. */
  predicate MatchesSearch(m: Memory, q: string) {
    || Trim(q) == ""
    || Contains(Lower(m.title), Lower(q))
    || Contains(Lower(m.notes), Lower(q))
    || Contains(Lower(m.date), Lower(q))
  }

  lemma LowerOccursAt(t: string, q: string, j: nat)
    ensures OccursAt(Lower(t), Lower(q), j) <==> FoundAt(t, q, j)
  {
    if j + |q| <= |t| {
      if FoundAt(t, q, j) {
        assert Lower(t)[j..j + |q|] == Lower(q);
      }
      if OccursAt(Lower(t), Lower(q), j) {
        forall k | 0 <= k < |q|
          ensures LowerChar(t[j + k]) == LowerChar(q[k])
        {
          assert Lower(t)[j..j + |q|][k] == Lower(q)[k];
        }
      }
    }
  }

  /** `lower(t).includes(lower(q))` is a case-insensitive occurrence of `q` in `t`. */
  lemma ContainsLower(t: string, q: string)
    ensures Contains(Lower(t), Lower(q)) <==> exists j :: FoundAt(t, q, j)
  {
    var r := IndexOf(Lower(t), Lower(q));
    if r.Some? {
      LowerOccursAt(t, q, r.value);
    }
    if j :| FoundAt(t, q, j) {
      LowerOccursAt(t, q, j);
    }
  }

  /** An empty or all-blank query matches every memory. */
  lemma BlankQueryMatchesAll(m: Memory, q: string)
    requires AllSpace(q)
    ensures MatchesSearch(m, q)
  {
  }

  /**
   * A query with a non-blank character matches exactly when it occurs, ignoring case and
   * untrimmed, in the title, the notes or the date.
   */
  lemma MatchesSearchIff(m: Memory, q: string)
    requires !AllSpace(q)
    ensures MatchesSearch(m, q) <==>
      exists j :: FoundAt(m.title, q, j) || FoundAt(m.notes, q, j) || FoundAt(m.date, q, j)
  {
    ContainsLower(m.title, q);
    ContainsLower(m.notes, q);
    ContainsLower(m.date, q);
  }

  lemma LowerIdempotent(s: string)
    ensures Lower(Lower(s)) == Lower(s)
  {
  }

  /** The case of the query does not matter. */
  lemma MatchesSearchIgnoresCase(m: Memory, q: string)
    ensures MatchesSearch(m, q) == MatchesSearch(m, Lower(q))
  {
    LowerIdempotent(q);
    assert AllSpace(q) <==> AllSpace(Lower(q)) by {
      forall i | 0 <= i < |q| ensures IsSpace(q[i]) <==> IsSpace(Lower(q)[i]) {}
    }
  }

  // ---------------------------------------------------------------------------------------
  // Highlight

  /** What `highlightMatch` renders: the text as is, or a before / marked / after split. */
  datatype Highlight = Plain(text: string) | Marked(before: string, marked: string, after: string)

  lemma SplitAt(s: string, i: nat, j: nat)
    requires i <= j <= |s|
    ensures s[..i] + s[i..j] + s[j..] == s
  {
  }

  lemma LowerSlice(s: string, i: nat, j: nat)
    requires i <= j <= |s|
    ensures Lower(s[i..j]) == Lower(s)[i..j]
  {
  }

  /** `highlightMatch(text, query)`: marks the first case-insensitive occurrence of the query. */
  function HighlightMatch(text: string, query: string): (r: Highlight)
    ensures r.Plain? ==> r.text == text
    ensures r.Marked? ==>
      && r.before + r.marked + r.after == text
      && |r.marked| == |query| && Lower(r.marked) == Lower(query)
  {
    if Trim(query) == "" then Plain(text)
    else
      match IndexOf(Lower(text), Lower(query))
      case None => Plain(text)
      case Some(i) =>
        SplitAt(text, i, i + |query|);
        LowerSlice(text, i, i + |query|);
        Marked(text[..i], text[i..i + |query|], text[i + |query|..])
  }

  /**
   * The text is split exactly when the query is not blank and occurs in it ignoring case,
   * and then the split is at the first such occurrence.
   */
  lemma HighlightMatchFirst(text: string, query: string)
    ensures HighlightMatch(text, query).Marked? <==>
      !AllSpace(query) && exists j :: FoundAt(text, query, j)
    ensures var r := HighlightMatch(text, query);
      r.Marked? ==>
        && FoundAt(text, query, |r.before|)
        && forall j :: 0 <= j < |r.before| ==> !FoundAt(text, query, j)
  {
    ContainsLower(text, query);
    var r := HighlightMatch(text, query);
    if r.Marked? {
      var i := IndexOf(Lower(text), Lower(query)).value;
      assert |r.before| == i;
      LowerOccursAt(text, query, i);
      forall j | 0 <= j < i
        ensures !FoundAt(text, query, j)
      {
        LowerOccursAt(text, query, j);
      }
    }
  }

  /** A title that gets a highlight is one the search matches. */
  lemma HighlightedTitleMatches(m: Memory, q: string)
    requires m.title != "" && HighlightMatch(m.title, q).Marked?
    ensures MatchesSearch(m, q)
  {
    HighlightMatchFirst(m.title, q);
    MatchesSearchIff(m, q);
  }

  // ---------------------------------------------------------------------------------------
  // Sections

  /** The sections in display order: Ungrouped, then one per group in the order of `groups`. */
  function Sections(ms: seq<Memory>, gs: seq<Group>): (r: seq<seq<Memory>>)
    ensures |r| == |gs| + 1
  {
    [UngroupedOf(ms)] + Map(gs, (g: Group) => MembersOf(ms, g.id))
  }

  /**
   * Ungrouped holds exactly the memories with a falsy `groupId`, and the section of group
   * `gs[i]` exactly those whose `groupId` is that group's id, each in store order.
   */
  lemma SectionsIff(ms: seq<Memory>, gs: seq<Group>, m: Memory)
    ensures m in Sections(ms, gs)[0] <==> m in ms && IsUngrouped(m)
    ensures forall i :: 0 <= i < |gs| ==>
      (m in Sections(ms, gs)[i + 1] <==> m in ms && m.groupId == Some(gs[i].id))
  {
    FilterMembers(ms, IsUngrouped, m);
    forall i | 0 <= i < |gs|
      ensures m in Sections(ms, gs)[i + 1] <==> m in ms && m.groupId == Some(gs[i].id)
    {
      FilterMembers(ms, InGroupOf(gs[i].id), m);
    }
  }

  /** A memory whose non-empty `groupId` names no group appears in no section. */
  lemma DanglingInNoSection(ms: seq<Memory>, gs: seq<Group>, m: Memory)
    requires m.groupId.Some? && m.groupId.value != "" && m.groupId.value !in GroupIds(gs)
    ensures forall k :: 0 <= k < |Sections(ms, gs)| ==> m !in Sections(ms, gs)[k]
  {
    SectionsIff(ms, gs, m);
    forall i | 0 <= i < |gs|
      ensures m.groupId != Some(gs[i].id)
    {
      assert gs[i].id in GroupIds(gs);
    }
  }

  // ---------------------------------------------------------------------------------------
  // Toggles

  /** `{ hidden: !(m.hidden ?? false) }`. */
  function ToggleHiddenPatch(m: Memory): MemoryPatch {
    NoMemoryChanges.(hidden := Some(Some(!Flag(m.hidden))))
  }

  /** `{ collapsed: !g.collapsed }`. */
  function ToggleCollapsedPatch(g: Group): GroupPatch {
    NoGroupChanges.(collapsed := Some(!g.collapsed))
  }

  /** `{ hidden: !(g.hidden ?? false) }`. */
  function ToggleGroupHiddenPatch(g: Group): GroupPatch {
    NoGroupChanges.(hidden := Some(Some(!Flag(g.hidden))))
  }

  /**
   * Each toggle sets its flag to the negation of its current reading (absent reads as
   * false), changes nothing else, and two toggles give back the original reading.
   */
  lemma TogglesFlip(m: Memory, g: Group)
    ensures MergeMemory(m, ToggleHiddenPatch(m)) == m.(hidden := Some(!Flag(m.hidden)))
    ensures MergeGroup(g, ToggleCollapsedPatch(g)) == g.(collapsed := !g.collapsed)
    ensures MergeGroup(g, ToggleGroupHiddenPatch(g)) == g.(hidden := Some(!Flag(g.hidden)))
    ensures var m1 := MergeMemory(m, ToggleHiddenPatch(m));
      Flag(MergeMemory(m1, ToggleHiddenPatch(m1)).hidden) == Flag(m.hidden)
    ensures var g1 := MergeGroup(g, ToggleGroupHiddenPatch(g));
      Flag(MergeGroup(g1, ToggleGroupHiddenPatch(g1)).hidden) == Flag(g.hidden)
  {
  }

  /** Hiding a shown memory takes it off the map. */
  lemma HideTakesOffMap(m: Memory, gs: seq<Group>)
    requires !Flag(m.hidden)
    ensures !MapView.Visible(MergeMemory(m, ToggleHiddenPatch(m)), gs)
  {
  }

  /** The eye button of a memory row: `updateMemory(m.id, { hidden: !(m.hidden ?? false) })`. */
  method ToggleMemoryHide(store: MemoryStore, m: Memory)
    modifies store
    ensures store.Current() == UpdateMemoryStep(old(store.Current()), m.id, ToggleHiddenPatch(m))
  {
    store.UpdateMemory(m.id, ToggleHiddenPatch(m));
  }

  /** The chevron of a group section. */
  method ToggleGroupCollapse(store: MemoryStore, g: Group)
    modifies store
    ensures store.Current() == UpdateGroupStep(old(store.Current()), g.id, ToggleCollapsedPatch(g))
  {
    store.UpdateGroup(g.id, ToggleCollapsedPatch(g));
  }

  /** The eye button of a group section. */
  method ToggleGroupHide(store: MemoryStore, g: Group)
    modifies store
    ensures store.Current() == UpdateGroupStep(old(store.Current()), g.id, ToggleGroupHiddenPatch(g))
  {
    store.UpdateGroup(g.id, ToggleGroupHiddenPatch(g));
  }

  /** The delete button of a group section: the group goes only if the user confirms. */
  method DeleteGroup(store: MemoryStore, g: Group, confirmed: bool)
    modifies store
    ensures store.Current() ==
      if confirmed then RemoveGroupStep(old(store.Current()), g.id) else old(store.Current())
  {
    if confirmed {
      store.RemoveGroup(g.id);
    }
  }

  // ---------------------------------------------------------------------------------------
  // Renaming a group

  /** The name a blur writes: the trimmed edit, when it is not blank and not the current name. */
  function RenameTo(editValue: string, name: string): (r: Option<string>)
    ensures r.Some? ==> r.value != "" && r.value != name && Trimmed(r.value)
    ensures r.None? <==> AllSpace(editValue) || Trim(editValue) == name
  {
    var t := Trim(editValue);
    if t != "" && t != name then Some(t) else None
  }

  /** A blur with an edit that has been written, or with an unchanged name, writes nothing. */
  lemma RenameSettles(editValue: string, name: string)
    requires RenameTo(editValue, name).Some?
    ensures var t := RenameTo(editValue, name).value;
      RenameTo(editValue, t).None? && RenameTo(t, t).None?
  {
    TrimOfTrimmed(RenameTo(editValue, name).value);
  }

  /** The Sidebar's own state: the Ungrouped section's collapse flag and the group opened for renaming. */
  class SidebarView {
    var ungroupedCollapsed: bool
    var openForRenameId: Option<string>

    constructor ()
      ensures !ungroupedCollapsed && openForRenameId.None?
    {
      ungroupedCollapsed := false;
      openForRenameId := None;
    }

    /** The chevron of the Ungrouped section, whose state is local. */
    method ToggleUngroupedCollapsed()
      modifies this
      ensures ungroupedCollapsed == !old(ungroupedCollapsed)
      ensures openForRenameId == old(openForRenameId)
    {
      ungroupedCollapsed := !ungroupedCollapsed;
    }

    /** `createNewGroup`: add an expanded 'New group' under a fresh id and open it for renaming. */
    method CreateNewGroup(store: MemoryStore, id: string)
      modifies this, store
      ensures store.Current() == AddGroupStep(old(store.Current()), Group(id, "New group", false, None))
      ensures openForRenameId == Some(id)
      ensures ungroupedCollapsed == old(ungroupedCollapsed)
    {
      store.AddGroup(Group(id, "New group", false, None));
      openForRenameId := Some(id);
    }

    /** `onClearOpenForRename`. */
    method ClearOpenForRename()
      modifies this
      ensures openForRenameId.None? && ungroupedCollapsed == old(ungroupedCollapsed)
    {
      openForRenameId := None;
    }
  }

  /** A new group is the last group, the default group and the one open for renaming. */
  lemma NewGroupIsDefault(s: State, id: string)
    ensures var t := AddGroupStep(s, Group(id, "New group", false, None));
      && t.groups[|t.groups| - 1] == Group(id, "New group", false, None)
      && t.defaultGroupId == Some(id)
      && t.memories == s.memories
  {
  }

  /** The local state of one group section: whether its name is being edited, and the edit. */
  class GroupSection {
    var editingName: bool
    var editValue: string

    /** The section starts with the group's name and, if asked, in rename mode. */
    constructor (name: string, openForRename: bool)
      ensures editingName == openForRename && editValue == name
    {
      editingName := openForRename;
      editValue := name;
    }

    /** Typing in the name field. */
    method Edit(value: string)
      modifies this
      ensures editValue == value && editingName == old(editingName)
    {
      editValue := value;
    }

    /**
     * The effect on the `name` prop: whenever the group's name changes (a rename written by
     * `HandleBlur`, or one made elsewhere, such as by an import), the field shows the new name.
     */
    method SyncName(name: string)
      modifies this
      ensures editValue == name && editingName == old(editingName)
    {
      editValue := name;
    }

    /** Clicking the group's name: any group but Ungrouped enters rename mode. */
    method StartRename(isUngrouped: bool)
      modifies this
      ensures editingName == (old(editingName) || !isUngrouped)
      ensures editValue == old(editValue)
    {
      if !isUngrouped {
        editingName := true;
      }
    }

    /** The effect on the `openForRename` prop: a rename request switches rename mode on. */
    method SyncOpenForRename(openForRename: bool)
      modifies this
      ensures editingName == (old(editingName) || openForRename)
      ensures editValue == old(editValue)
    {
      if openForRename {
        editingName := true;
      }
    }

    /**
     * `handleBlur`: leave rename mode, release the Sidebar's rename request, then either
     * write the trimmed name to the group or put the current name back into the field. After a
     * write the field still holds the text typed; `SyncName` with the new name then replaces it.
     */
    method HandleBlur(store: MemoryStore, view: SidebarView, id: string, name: string)
      modifies this, store, view
      ensures !editingName
      ensures view.openForRenameId.None? && view.ungroupedCollapsed == old(view.ungroupedCollapsed)
      ensures match RenameTo(old(editValue), name)
        case Some(t) =>
          && store.Current() == UpdateGroupStep(old(store.Current()), id, NoGroupChanges.(name := Some(t)))
          && editValue == old(editValue)
        case None => store.Current() == old(store.Current()) && editValue == name
    {
      editingName := false;
      view.ClearOpenForRename();
      var t := Trim(editValue);
      if t != "" && t != name {
        store.UpdateGroup(id, NoGroupChanges.(name := Some(t)));
      } else {
        editValue := name;
      }
    }
  }
}
