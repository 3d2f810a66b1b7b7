/**
 * The entities of Memory Atlas: a pinned `Memory`, a `Group` of memories, and the partial
 * updates (`Partial<Memory>`, `Partial<Group>`) that the store merges into them.
 * `null` and `undefined` are both `None`; coordinates are opaque integers.
 */
module Model {
  import opened Wrappers
  import opened Seqs

  datatype LatLng = LatLng(lat: int, lng: int)

  datatype Memory = Memory(
    id: string,
    lat: int,
    lng: int,
    title: string,
    date: string,
    notes: string,
    imageDataUrl: Option<string>,        // deprecated single image
    imageDataUrls: Option<seq<string>>,
    createdAt: string,
    groupId: Option<string>,
    hidden: Option<bool>,
    order: Option<int>,
    customLabel: Option<string>,
    tags: Option<seq<string>>,
    starred: Option<bool>,
    links: Option<seq<string>>)

  datatype Group = Group(id: string, name: string, collapsed: bool, hidden: Option<bool>)

  /** The outcome of importing a file: the memories and groups read, or an error message. */
  datatype ImportResult = Imported(memories: seq<Memory>, groups: seq<Group>) | ImportFailed(error: string)

  /**
   * `Partial<Memory>`: `None` means the key is absent and the field keeps its value;
   * for an optional field `Some(None)` is an explicit `undefined`/`null`, which overwrites.
   */
  datatype MemoryPatch = MemoryPatch(
    id: Option<string>,
    lat: Option<int>,
    lng: Option<int>,
    title: Option<string>,
    date: Option<string>,
    notes: Option<string>,
    imageDataUrl: Option<Option<string>>,
    imageDataUrls: Option<Option<seq<string>>>,
    createdAt: Option<string>,
    groupId: Option<Option<string>>,
    hidden: Option<Option<bool>>,
    order: Option<Option<int>>,
    customLabel: Option<Option<string>>,
    tags: Option<Option<seq<string>>>,
    starred: Option<Option<bool>>,
    links: Option<Option<seq<string>>>)

  /** The empty update `{}`. */
  const NoMemoryChanges := MemoryPatch(None, None, None, None, None, None, None, None,
                                       None, None, None, None, None, None, None, None)

  datatype GroupPatch = GroupPatch(id: Option<string>, name: Option<string>,
                                   collapsed: Option<bool>, hidden: Option<Option<bool>>)

  const NoGroupChanges := GroupPatch(None, None, None, None)

  /** `{ ...m, ...p }`. */
  function MergeMemory(m: Memory, p: MemoryPatch): Memory {
    Memory(
      p.id.GetOr(m.id), p.lat.GetOr(m.lat), p.lng.GetOr(m.lng), p.title.GetOr(m.title),
      p.date.GetOr(m.date), p.notes.GetOr(m.notes), p.imageDataUrl.GetOr(m.imageDataUrl),
      p.imageDataUrls.GetOr(m.imageDataUrls), p.createdAt.GetOr(m.createdAt),
      p.groupId.GetOr(m.groupId), p.hidden.GetOr(m.hidden), p.order.GetOr(m.order),
      p.customLabel.GetOr(m.customLabel), p.tags.GetOr(m.tags), p.starred.GetOr(m.starred),
      p.links.GetOr(m.links))
  }

  /** `{ ...g, ...p }`. */
  function MergeGroup(g: Group, p: GroupPatch): Group {
    Group(p.id.GetOr(g.id), p.name.GetOr(g.name), p.collapsed.GetOr(g.collapsed),
          p.hidden.GetOr(g.hidden))
  }

  /** Two successive spreads: the later patch wins key by key. */
  function ThenMemory(p: MemoryPatch, q: MemoryPatch): MemoryPatch {
    MemoryPatch(
      if q.id.Some? then q.id else p.id, if q.lat.Some? then q.lat else p.lat,
      if q.lng.Some? then q.lng else p.lng, if q.title.Some? then q.title else p.title,
      if q.date.Some? then q.date else p.date, if q.notes.Some? then q.notes else p.notes,
      if q.imageDataUrl.Some? then q.imageDataUrl else p.imageDataUrl,
      if q.imageDataUrls.Some? then q.imageDataUrls else p.imageDataUrls,
      if q.createdAt.Some? then q.createdAt else p.createdAt,
      if q.groupId.Some? then q.groupId else p.groupId,
      if q.hidden.Some? then q.hidden else p.hidden, if q.order.Some? then q.order else p.order,
      if q.customLabel.Some? then q.customLabel else p.customLabel,
      if q.tags.Some? then q.tags else p.tags, if q.starred.Some? then q.starred else p.starred,
      if q.links.Some? then q.links else p.links)
  }

  /** Merging an update that names no field leaves the memory as it was. */
  lemma MergeNothing(m: Memory)
    ensures MergeMemory(m, NoMemoryChanges) == m
  {
  }

  /** Merging the same update twice is merging it once. */
  lemma MergeIdempotent(m: Memory, p: MemoryPatch)
    ensures MergeMemory(MergeMemory(m, p), p) == MergeMemory(m, p)
  {
  }

  /** Two merges in a row are one merge of the combined update. */
  lemma MergeTwice(m: Memory, p: MemoryPatch, q: MemoryPatch)
    ensures MergeMemory(MergeMemory(m, p), q) == MergeMemory(m, ThenMemory(p, q))
  {
  }

  // ---------------------------------------------------------------------------------------
  // Readings of optional fields shared by several views

  /** `b ?? false`, which is also the truthiness of an optional boolean. */
  function Flag(b: Option<bool>): bool {
    b.GetOr(false)
  }

  /** `!(m.groupId ?? null)`: no group, or the empty (falsy) group id. */
  predicate IsUngrouped(m: Memory) {
    m.groupId.None? || m.groupId == Some("")
  }

  /** `(m.groupId ?? null) === gid`. */
  predicate InGroup(m: Memory, gid: string) {
    m.groupId == Some(gid)
  }

  /** The memories of the Ungrouped bucket, in store order. */
  function UngroupedOf(ms: seq<Memory>): (r: seq<Memory>)
    ensures forall i :: 0 <= i < |r| ==> IsUngrouped(r[i])
  {
    Filter(ms, IsUngrouped)
  }

  /** `m => (m.groupId ?? null) === gid`. */
  function InGroupOf(gid: string): Memory -> bool {
    m => InGroup(m, gid)
  }

  /** The memories of the bucket of group `gid`, in store order. */
  function MembersOf(ms: seq<Memory>, gid: string): (r: seq<Memory>)
    ensures forall i :: 0 <= i < |r| ==> InGroup(r[i], gid)
  {
    Filter(ms, InGroupOf(gid))
  }

  /** The ids of a list of groups, as a set. */
  function GroupIds(gs: seq<Group>): set<string> {
    set i | 0 <= i < |gs| :: gs[i].id
  }
}
