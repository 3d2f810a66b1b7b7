/**
 * `AddMemoryModal`: the form for a new or an edited memory. The tag, link and image lists are
 * edited in place; saving normalises the fields and either merges them into the edited memory
 * or adds a new memory at the pending point.
 */
module AddMemory {
  import opened Wrappers
  import opened Seqs
  import opened Text
  import opened Model
  import opened Store

  // ---------------------------------------------------------------------------------------
  // List edits

  /** `addTag`'s new list: the trimmed, lower-cased input is appended when new and not blank. */
  function AddTagTo(tags: seq<string>, input: string): seq<string> {
    var t := Lower(Trim(input));
    if t != "" && t !in tags then tags + [t] else tags
  }

  /** `addLink`'s new list: the trimmed input, case kept, is appended when new and not blank. */
  function AddLinkTo(links: seq<string>, input: string): seq<string> {
    var u := Trim(input);
    if u != "" && u !in links then links + [u] else links
  }

  predicate NoDuplicates(s: seq<string>) {
    forall i, j :: 0 <= i < j < |s| ==> s[i] != s[j]
  }

  /**
   * A tag is added at the end exactly when its normal form is not blank and not yet listed;
   * afterwards it is listed, the list stays free of duplicates, and adding it again changes nothing.
   */
  lemma AddTagToSpec(tags: seq<string>, input: string)
    ensures var t := Lower(Trim(input));
      && (AddTagTo(tags, input) == tags + [t] <==> t != "" && t !in tags)
      && (AddTagTo(tags, input) != tags + [t] ==> AddTagTo(tags, input) == tags)
      && (t != "" ==> t in AddTagTo(tags, input))
      && AddTagTo(AddTagTo(tags, input), input) == AddTagTo(tags, input)
      && (NoDuplicates(tags) ==> NoDuplicates(AddTagTo(tags, input)))
  {
    var t := Lower(Trim(input));
    if t != "" && t !in tags {
      assert (tags + [t])[|tags|] == t;
    }
  }

  /** The same for links, whose case is kept. */
  lemma AddLinkToSpec(links: seq<string>, input: string)
    ensures var u := Trim(input);
      && (AddLinkTo(links, input) == links + [u] <==> u != "" && u !in links)
      && (AddLinkTo(links, input) != links + [u] ==> AddLinkTo(links, input) == links)
      && (u != "" ==> u in AddLinkTo(links, input))
      && AddLinkTo(AddLinkTo(links, input), input) == AddLinkTo(links, input)
      && (NoDuplicates(links) ==> NoDuplicates(AddLinkTo(links, input)))
  {
    var u := Trim(input);
    if u != "" && u !in links {
      assert (links + [u])[|links|] == u;
    }
  }

  /** `list.filter((_, i) => i !== index)`, walking the list with the index counted down. */
  function RemoveAt(s: seq<string>, index: int): (r: seq<string>)
    ensures |r| <= |s|
  {
    if s == [] then [] else (if index == 0 then [] else [s[0]]) + RemoveAt(s[1..], index - 1)
  }

  /**
   * Removing at a position of the list drops exactly that element and keeps the rest in
   * order; any other index leaves the list as it was.
   */
  lemma {:induction false} RemoveAtSpec(s: seq<string>, index: int)
    ensures RemoveAt(s, index) == if 0 <= index < |s| then s[..index] + s[index + 1..] else s
    decreases |s|
  {
    if s != [] {
      RemoveAtSpec(s[1..], index - 1);
      if 0 < index < |s| {
        assert s[1..][..index - 1] == s[1..index];
        assert [s[0]] + s[1..index] == s[..index];
        assert s[1..][index..] == s[index + 1..];
      } else if index == 0 {
        assert s[1..] == s[..0] + s[1..];
      }
    }
  }

  /** `tags.filter(x => x !== t)`. */
  function RemoveTag(tags: seq<string>, t: string): seq<string> {
    Filter(tags, (x: string) => x != t)
  }

  /** Removing a tag drops every copy of it and nothing else. */
  lemma RemoveTagSpec(tags: seq<string>, t: string, x: string)
    ensures t !in RemoveTag(tags, t)
    ensures x in RemoveTag(tags, t) <==> x in tags && x != t
    ensures IsSubseq(RemoveTag(tags, t), tags)
  {
    FilterMembers(tags, (y: string) => y != t, x);
    FilterMembers(tags, (y: string) => y != t, t);
    FilterIsSubseq(tags, (y: string) => y != t);
  }

  // ---------------------------------------------------------------------------------------
  // Saving

  /** The values of the form when Save is pressed. */
  datatype FormValues = FormValues(
    title: string, notes: string, date: string, imageDataUrls: seq<string>,
    groupId: Option<string>, customLabel: string, tags: seq<string>, links: seq<string>)

  /** `title.trim() || 'Untitled'`. */
  function SavedTitle(title: string): string {
    if Trim(title) == "" then "Untitled" else Trim(title)
  }

  /** `groupId || null`: the empty id counts as no group. */
  function ChosenGroup(groupId: Option<string>): Option<string> {
    if groupId.Some? && groupId.value != "" then groupId else None
  }

  /** `customLabel.trim() || undefined`. */
  function SavedLabel(customLabel: string): Option<string> {
    if Trim(customLabel) == "" then None else Some(Trim(customLabel))
  }

  /** `list.length ? list : undefined`. */
  function ListOrAbsent(xs: seq<string>): Option<seq<string>> {
    if |xs| > 0 then Some(xs) else None
  }

  /** `imageDataUrls[0] ?? null`. */
  function FirstImage(images: seq<string>): Option<string> {
    if |images| > 0 then Some(images[0]) else None
  }

  /** The update that saving an edit merges into the memory. */
  function EditPatch(v: FormValues): MemoryPatch {
    NoMemoryChanges.(
      title := Some(SavedTitle(v.title)),
      date := Some(v.date),
      notes := Some(Trim(v.notes)),
      imageDataUrls := Some(ListOrAbsent(v.imageDataUrls)),
      imageDataUrl := Some(FirstImage(v.imageDataUrls)),
      groupId := Some(ChosenGroup(v.groupId)),
      customLabel := Some(SavedLabel(v.customLabel)),
      tags := Some(ListOrAbsent(v.tags)),
      links := Some(ListOrAbsent(v.links)))
  }

  /** The memory that saving a new entry adds; `hidden`, `order` and `starred` are absent. */
  function NewMemory(v: FormValues, id: string, at: LatLng, now: string): Memory {
    Memory(id, at.lat, at.lng, SavedTitle(v.title), v.date, Trim(v.notes),
           FirstImage(v.imageDataUrls), ListOrAbsent(v.imageDataUrls), now,
           ChosenGroup(v.groupId), None, None, SavedLabel(v.customLabel),
           ListOrAbsent(v.tags), None, ListOrAbsent(v.links))
  }

  /**
   * The shape of every saved memory: a trimmed, non-blank title; trimmed notes; no empty
   * group id, label or list; the single image is the first of the list.
   */
  predicate Normalised(m: Memory) {
    && m.title != "" && Trimmed(m.title)
    && Trimmed(m.notes)
    && m.groupId != Some("")
    && (m.customLabel.Some? ==> m.customLabel.value != "" && Trimmed(m.customLabel.value))
    && (m.imageDataUrls.Some? ==> |m.imageDataUrls.value| > 0)
    && m.imageDataUrl == (if m.imageDataUrls.Some? then Some(m.imageDataUrls.value[0]) else None)
    && (m.tags.Some? ==> |m.tags.value| > 0)
    && (m.links.Some? ==> |m.links.value| > 0)
  }

  /** The placeholder title is trimmed and not blank. */
  lemma UntitledNormalised()
    ensures "Untitled" != "" && Trimmed("Untitled")
  {
    var u := "Untitled";
    assert u[0] == 'U' && u[|u| - 1] == 'd';
  }

  /** The saved title is trimmed and not blank. */
  lemma SavedTitleNormalised(title: string)
    ensures SavedTitle(title) != "" && Trimmed(SavedTitle(title))
  {
    if Trim(title) == "" {
      UntitledNormalised();
    }
  }

  /** A saved label is trimmed and not blank. */
  lemma SavedLabelNormalised(customLabel: string)
    ensures SavedLabel(customLabel).Some? ==> SavedLabel(customLabel).value != "" && Trimmed(SavedLabel(customLabel).value)
  {
    var t := Trim(customLabel);
    assert SavedLabel(customLabel).Some? ==> SavedLabel(customLabel).value == t;
  }

  /** The saved text fields are trimmed, and the title and label are not blank. */
  lemma SavedTextNormalised(v: FormValues)
    ensures SavedTitle(v.title) != "" && Trimmed(SavedTitle(v.title))
    ensures Trimmed(Trim(v.notes))
    ensures SavedLabel(v.customLabel).Some? ==>
      SavedLabel(v.customLabel).value != "" && Trimmed(SavedLabel(v.customLabel).value)
  {
    SavedTitleNormalised(v.title);
    SavedLabelNormalised(v.customLabel);
  }

  /** What merging the edit update does to each field. */
  lemma EditPatchFields(m: Memory, v: FormValues)
    ensures MergeMemory(m, EditPatch(v)) ==
      m.(title := SavedTitle(v.title), date := v.date, notes := Trim(v.notes),
         imageDataUrls := ListOrAbsent(v.imageDataUrls), imageDataUrl := FirstImage(v.imageDataUrls),
         groupId := ChosenGroup(v.groupId), customLabel := SavedLabel(v.customLabel),
         tags := ListOrAbsent(v.tags), links := ListOrAbsent(v.links))
  {
  }

  /** A memory with the given id, position and creation time and nothing else. */
  function Blank(id: string, at: LatLng, now: string): Memory {
    Memory(id, at.lat, at.lng, "", "", "", None, None, now, None, None, None, None, None, None, None)
  }

  /** A new memory is what saving the same form as an edit of a blank memory gives. */
  lemma NewMemoryIsEditedBlank(v: FormValues, id: string, at: LatLng, now: string)
    ensures NewMemory(v, id, at, now) == MergeMemory(Blank(id, at, now), EditPatch(v))
  {
    EditPatchFields(Blank(id, at, now), v);
  }

  /** A new memory is normalised. */
  lemma NewMemoryNormalised(v: FormValues, id: string, at: LatLng, now: string)
    ensures Normalised(NewMemory(v, id, at, now))
  {
    NewMemoryIsEditedBlank(v, id, at, now);
    EditNormalises(Blank(id, at, now), v);
  }

  /** A new memory stands at the pending point with the given id and time, visible, unordered and unstarred. */
  lemma NewMemoryPlaced(v: FormValues, id: string, at: LatLng, now: string)
    ensures var m := NewMemory(v, id, at, now);
      && m.id == id && m.lat == at.lat && m.lng == at.lng && m.createdAt == now
      && m.hidden.None? && m.order.None? && m.starred.None?
  {
  }

  /**
   * Saving an edit normalises the memory and keeps its id, position, creation time,
   * visibility, order and star.
   */
  lemma EditNormalises(m: Memory, v: FormValues)
    ensures var r := MergeMemory(m, EditPatch(v));
      && Normalised(r)
      && r.id == m.id && r.lat == m.lat && r.lng == m.lng && r.createdAt == m.createdAt
      && r.hidden == m.hidden && r.order == m.order && r.starred == m.starred
  {
    EditPatchFields(m, v);
    SavedTextNormalised(v);
  }

  // ---------------------------------------------------------------------------------------
  // The dialog's initial values

  /** The group selected when the dialog opens: the memory's own group, or the default for a new one. */
  function InitialGroup(editing: Option<Memory>, defaultGroupId: Option<string>): (r: Option<string>)
    ensures editing.Some? ==> r == editing.value.groupId
    ensures editing.None? ==> r == defaultGroupId
  {
    if editing.Some? then editing.value.groupId else defaultGroupId
  }

  /** The form filled from an edited memory; `images` is what the memory's image list reads as. */
  function InitialValues(editing: Option<Memory>, defaultGroupId: Option<string>,
                         images: seq<string>, today: string): FormValues
  {
    if editing.Some? then
      var m := editing.value;
      FormValues(m.title, m.notes, m.date, images, InitialGroup(editing, defaultGroupId),
                 m.customLabel.GetOr(""), m.tags.GetOr([]), m.links.GetOr([]))
    else
      FormValues("", "", today, [], InitialGroup(editing, defaultGroupId), "", [], [])
  }

  lemma FirstImageOf(m: Memory, images: seq<string>)
    requires Normalised(m) && ListOrAbsent(images) == m.imageDataUrls
    ensures FirstImage(images) == m.imageDataUrl
  {
  }

  /**
   * Opening a normalised memory for editing and saving without a change leaves it as it was,
   * when its image list reads back as the list it stores.
   */
  lemma EditWithoutChangeKeeps(m: Memory, defaultGroupId: Option<string>, images: seq<string>, today: string)
    requires Normalised(m)
    requires ListOrAbsent(images) == m.imageDataUrls
    ensures MergeMemory(m, EditPatch(InitialValues(Some(m), defaultGroupId, images, today))) == m
  {
    var v := InitialValues(Some(m), defaultGroupId, images, today);
    assert SavedTitle(v.title) == m.title by {
      TrimOfTrimmed(m.title);
    }
    assert Trim(v.notes) == m.notes by {
      TrimOfTrimmed(m.notes);
    }
    assert SavedLabel(v.customLabel) == m.customLabel by {
      if m.customLabel.Some? {
        TrimOfTrimmed(m.customLabel.value);
      }
    }
    assert FirstImage(images) == m.imageDataUrl by {
      FirstImageOf(m, images);
    }
    assert ChosenGroup(v.groupId) == m.groupId;
    assert ListOrAbsent(v.tags) == m.tags;
    assert ListOrAbsent(v.links) == m.links;
    assert v.date == m.date && ListOrAbsent(v.imageDataUrls) == m.imageDataUrls;
    EditPatchFields(m, v);
  }

  // ---------------------------------------------------------------------------------------
  // The store effects of Save and Delete

  /**
   * `handleSave` on the store: merge into the edited memory and leave edit mode; or add the
   * new memory at the pending point and make its group the default when one was chosen; or
   * nothing, with neither.
   */
  function SaveStep(s: State, v: FormValues, pending: Option<LatLng>, editing: Option<Memory>,
                    id: string, now: string): State
  {
    if editing.Some? then
      UpdateMemoryStep(s, editing.value.id, EditPatch(v)).(editingMemory := None)
    else if pending.Some? then
      var t := AddMemoryStep(s, NewMemory(v, id, pending.value, now));
      if ChosenGroup(v.groupId).Some? then t.(defaultGroupId := ChosenGroup(v.groupId)) else t
    else s
  }

  /**
   * Saving a new memory appends it, closes the add flow, and changes the default group
   * exactly when a non-empty group was chosen, to that group.
   */
  lemma SaveNewMemory(s: State, v: FormValues, at: LatLng, id: string, now: string)
    ensures var t := SaveStep(s, v, Some(at), None, id, now);
      && t.memories == s.memories + [NewMemory(v, id, at, now)]
      && !t.isAddingMemory && t.pendingLatLng.None?
      && t.groups == s.groups && t.selectedMemory == s.selectedMemory
      && t.defaultGroupId == (if v.groupId.Some? && v.groupId.value != "" then v.groupId else s.defaultGroupId)
  {
  }

  /** Saving an edit changes only the memories with the edited id and leaves edit mode. */
  lemma SaveEdit(s: State, v: FormValues, m: Memory, id: string, now: string, pending: Option<LatLng>)
    ensures var t := SaveStep(s, v, pending, Some(m), id, now);
      && |t.memories| == |s.memories|
      && (forall i :: 0 <= i < |s.memories| && s.memories[i].id != m.id ==> t.memories[i] == s.memories[i])
      && (forall i :: 0 <= i < |s.memories| && s.memories[i].id == m.id ==>
            t.memories[i] == MergeMemory(s.memories[i], EditPatch(v)))
      && t.editingMemory.None? && t.groups == s.groups && t.defaultGroupId == s.defaultGroupId
  {
    UpdateMemoriesMerges(s.memories, m.id, EditPatch(v));
  }

  /** The form's own state, one field per `useState` of the values the model covers. */
  class MemoryForm {
    var title: string
    var notes: string
    var date: string
    var imageDataUrls: seq<string>
    var groupId: Option<string>
    var customLabel: string
    var tags: seq<string>
    var tagInput: string
    var links: seq<string>
    var linkInput: string

    function Values(): FormValues
      reads this
    {
      FormValues(title, notes, date, imageDataUrls, groupId, customLabel, tags, links)
    }

    /** The dialog opens with the edited memory's values, or empty ones dated `today`. */
    constructor (editing: Option<Memory>, defaultGroupId: Option<string>, images: seq<string>, today: string)
      ensures Values() == InitialValues(editing, defaultGroupId, images, today)
      ensures tagInput == "" && linkInput == ""
    {
      var v := InitialValues(editing, defaultGroupId, images, today);
      title, notes, date := v.title, v.notes, v.date;
      imageDataUrls, groupId, customLabel := v.imageDataUrls, v.groupId, v.customLabel;
      tags, links := v.tags, v.links;
      tagInput, linkInput := "", "";
    }

    method SetTagInput(s: string)
      modifies this
      ensures Values() == old(Values()) && tagInput == s && linkInput == old(linkInput)
    {
      tagInput := s;
    }

    method SetLinkInput(s: string)
      modifies this
      ensures Values() == old(Values()) && linkInput == s && tagInput == old(tagInput)
    {
      linkInput := s;
    }

    /** `addTag`: maybe add the typed tag, and clear the input either way. */
    method AddTag()
      modifies this
      ensures Values() == old(Values()).(tags := AddTagTo(old(tags), old(tagInput)))
      ensures tagInput == "" && linkInput == old(linkInput)
    {
      var t := Lower(Trim(tagInput));
      if t != "" && t !in tags {
        tags := tags + [t];
      }
      tagInput := "";
    }

    /** `addLink`: maybe add the typed link, and clear the input either way. */
    method AddLink()
      modifies this
      ensures Values() == old(Values()).(links := AddLinkTo(old(links), old(linkInput)))
      ensures linkInput == "" && tagInput == old(tagInput)
    {
      var u := Trim(linkInput);
      linkInput := "";
      if u != "" && u !in links {
        links := links + [u];
      }
    }

    /** The images read from dropped or chosen files are appended. */
    method AddImages(toAdd: seq<string>)
      modifies this
      ensures Values() == old(Values()).(imageDataUrls := old(imageDataUrls) + toAdd)
      ensures tagInput == old(tagInput) && linkInput == old(linkInput)
    {
      if |toAdd| > 0 {
        imageDataUrls := imageDataUrls + toAdd;
      }
    }

    /** `removeImageAt(index)`. */
    method RemoveImageAt(index: int)
      modifies this
      ensures Values() == old(Values()).(imageDataUrls := RemoveAt(old(imageDataUrls), index))
      ensures tagInput == old(tagInput) && linkInput == old(linkInput)
    {
      imageDataUrls := RemoveAt(imageDataUrls, index);
    }

    /** The × of a tag. */
    method RemoveTagChip(t: string)
      modifies this
      ensures Values() == old(Values()).(tags := RemoveTag(old(tags), t))
      ensures tagInput == old(tagInput) && linkInput == old(linkInput)
    {
      tags := RemoveTag(tags, t);
    }

    /** The × of the link at position `i`. */
    method RemoveLinkAt(i: int)
      modifies this
      ensures Values() == old(Values()).(links := RemoveAt(old(links), i))
      ensures tagInput == old(tagInput) && linkInput == old(linkInput)
    {
      links := RemoveAt(links, i);
    }

    /** Picking Ungrouped (`None`) or a group in the dropdown. */
    method ChooseGroup(g: Option<string>)
      modifies this
      ensures Values() == old(Values()).(groupId := g)
      ensures tagInput == old(tagInput) && linkInput == old(linkInput)
    {
      groupId := g;
    }

    /**
     * The dropdown's "+ New group": add an expanded 'New group' under a fresh id, choose it in
     * the form and make it the default for new memories.
     */
    method CreateGroupInDropdown(store: MemoryStore, id: string)
      modifies this, store
      ensures store.Current() == AddGroupStep(old(store.Current()), Group(id, "New group", false, None))
      ensures Values() == old(Values()).(groupId := Some(id))
      ensures tagInput == old(tagInput) && linkInput == old(linkInput)
    {
      store.AddGroup(Group(id, "New group", false, None));
      groupId := Some(id);
      store.SetDefaultGroupId(Some(id));
    }

    /** `handleSave`, with the fresh id and the current time passed in. */
    method HandleSave(store: MemoryStore, pending: Option<LatLng>, editing: Option<Memory>,
                      id: string, now: string)
      modifies store
      ensures store.Current() == SaveStep(old(store.Current()), Values(), pending, editing, id, now)
    {
      var v := Values();
      if editing.Some? {
        store.UpdateMemory(editing.value.id, EditPatch(v));
        store.SetEditingMemory(None);
      } else if pending.Some? {
        store.AddMemory(NewMemory(v, id, pending.value, now));
        var chosen := ChosenGroup(v.groupId);
        if chosen.Some? {
          store.SetDefaultGroupId(chosen);
        }
      }
    }
  }

  /** `handleDeleteConfirm`: remove the edited memory and leave edit mode; nothing when adding. */
  method HandleDeleteConfirm(store: MemoryStore, editing: Option<Memory>)
    modifies store
    ensures editing.Some? ==>
      store.Current() == RemoveMemoryStep(old(store.Current()), editing.value.id).(editingMemory := None)
    ensures editing.None? ==> store.Current() == old(store.Current())
  {
    if editing.Some? {
      store.RemoveMemory(editing.value.id);
      store.SetEditingMemory(None);
    }
  }
}
