/**
 * JSON backup export and import. A backup is an object holding a version number, the export
 * time and the arrays of memories and groups. Import keeps every entry it can read, fills in
 * defaults for missing or mistyped fields and drops entries that are not objects or whose
 * coordinates are not numbers.
 */
module JsonImport {
  import opened Wrappers
  import opened Seqs
  import opened Text
  import opened Model

  /** A JSON value. Numbers are integers in this model. */
  datatype Json =
    | JNull
    | JBool(b: bool)
    | JNum(n: int)
    | JStr(s: string)
    | JArr(items: seq<Json>)
    | JObj(fields: map<string, Json>)

  /** The outcome of `JSON.parse`: a value, or the message of the syntax error it threw. */
  datatype Parsed = ParsedOk(value: Json) | SyntaxError(message: string)

  const ExportJsonVersion: int := 1

  /** What `parseExportJson` returns: the entries are still unchecked JSON values. */
  datatype ExportData = ExportData(version: int, exportedAt: string, memories: seq<Json>,
                                   groups: seq<Json>)

  /** `typeof v === 'object' && v !== null`: objects and arrays. */
  predicate IsObject(v: Json) {
    v.JObj? || v.JArr?
  }

  /** `o[key]`, with `None` for `undefined`. Arrays have none of the keys read here. */
  function Field(v: Json, key: string): Option<Json> {
    if v.JObj? && key in v.fields then Some(v.fields[key]) else None
  }

  /** `typeof o[key] === 'string' ? o[key] : ...`. */
  function StrField(v: Json, key: string): Option<string> {
    match Field(v, key)
    case Some(JStr(s)) => Some(s)
    case _ => None
  }

  /** `typeof o[key] === 'number' ? o[key] : ...`. */
  function NumField(v: Json, key: string): Option<int> {
    match Field(v, key)
    case Some(JNum(n)) => Some(n)
    case _ => None
  }

  /** `o[key] === true`. */
  predicate IsTrue(v: Json, key: string) {
    Field(v, key) == Some(JBool(true))
  }

  /** `Array.isArray(o[key]) ? o[key] : ...`. */
  function ArrField(v: Json, key: string): Option<seq<Json>> {
    match Field(v, key)
    case Some(JArr(a)) => Some(a)
    case _ => None
  }

  /** `items.filter(x => typeof x === 'string')`. */
  function StringsOf(items: seq<Json>): (r: seq<string>)
    ensures |r| <= |items|
  {
    if items == [] then []
    else (if items[0].JStr? then [items[0].s] else []) + StringsOf(items[1..])
  }

  /** The string elements are kept, in order, and only they. */
  lemma {:induction false} StringsOfKeepsStrings(items: seq<Json>)
    ensures StringsOf(items) == Map(Filter(items, (j: Json) => j.JStr?), (j: Json) => if j.JStr? then j.s else "")
  {
    if items != [] {
      var isStr := (j: Json) => j.JStr?;
      var text := (j: Json) => if j.JStr? then j.s else "";
      StringsOfKeepsStrings(items[1..]);
      var rest := Filter(items[1..], isStr);
      if items[0].JStr? {
        var kept := [items[0]] + rest;
        assert Filter(items, isStr) == kept;
        assert kept[1..] == rest;
        assert Map(kept, text) == [items[0].s] + Map(rest, text);
      } else {
        assert Filter(items, isStr) == rest;
      }
    }
  }

  /** `String(v)` for an array element, as `Array.prototype.join` writes it. */
  function ElementString(v: Json): string
    decreases v, 1
  {
    match v
    case JNull => ""
    case JBool(b) => if b then "true" else "false"
    case JNum(n) => IntToString(n)
    case JStr(s) => s
    case JArr(a) => ArrayString(a, v)
    case JObj(_) => "[object Object]"
  }

  /** `a.join(',')` for the items `a` of the array `whole`. */
  function ArrayString(a: seq<Json>, ghost whole: Json): string
    requires whole.JArr? && |a| <= |whole.items| && a == whole.items[|whole.items| - |a|..]
    decreases whole, 0, |a|
  {
    if a == [] then ""
    else
      assert a[0] == whole.items[|whole.items| - |a|];
      if |a| == 1 then ElementString(a[0])
      else ElementString(a[0]) + "," + ArrayString(a[1..], whole)
  }

  /** `Number(v)`: `None` for `NaN`; a missing value is `undefined`, which is `NaN`. */
  function ToNumber(v: Option<Json>): Option<int> {
    match v
    case None => None
    case Some(JNull) => Some(0)
    case Some(JBool(b)) => Some(if b then 1 else 0)
    case Some(JNum(n)) => Some(n)
    case Some(JStr(s)) => NumberOf(s)
    case Some(JArr(a)) => NumberOf(ArrayString(a, JArr(a)))
    case Some(JObj(_)) => None
  }

  /** `typeof o[key] === 'number' ? o[key] : Number(o[key])`. */
  function Coordinate(v: Json, key: string): Option<int> {
    match NumField(v, key)
    case Some(n) => Some(n)
    case None => ToNumber(Field(v, key))
  }

  /** The image list: a non-empty array's strings, else the single image if it is non-empty. */
  function ImageList(v: Json): Option<seq<string>> {
    match ArrField(v, "imageDataUrls")
    case Some(a) =>
      if |a| > 0 then Some(StringsOf(a))
      else ImageFromSingle(v)
    case None => ImageFromSingle(v)
  }

  function ImageFromSingle(v: Json): Option<seq<string>> {
    match StrField(v, "imageDataUrl")
    case Some(u) => if u != "" then Some([u]) else None
    case None => None
  }

  /**
   * `normalizeMemory`. `freshId` stands for the random id used when the entry has none;
   * `today` and `now` for the current date and time.
   */
  function NormalizeMemory(v: Json, freshId: string, today: string, now: string): (r: Option<Memory>)
    ensures r.None? <==> !IsObject(v) || Coordinate(v, "lat").None? || Coordinate(v, "lng").None?
  {
    if !IsObject(v) then None
    else
      var lat := Coordinate(v, "lat");
      var lng := Coordinate(v, "lng");
      if lat.None? || lng.None? then None
      else Some(Memory(
        id := StrField(v, "id").GetOr(freshId),
        lat := lat.value,
        lng := lng.value,
        title := StrField(v, "title").GetOr("Untitled"),
        date := StrField(v, "date").GetOr(today),
        notes := StrField(v, "notes").GetOr(""),
        imageDataUrl := StrField(v, "imageDataUrl"),
        imageDataUrls := ImageList(v),
        createdAt := StrField(v, "createdAt").GetOr(now),
        groupId := StrField(v, "groupId"),
        hidden := Some(IsTrue(v, "hidden")),
        order := NumField(v, "order"),
        customLabel := StrField(v, "customLabel"),
        tags := match ArrField(v, "tags") case Some(a) => Some(StringsOf(a)) case None => None,
        starred := Some(IsTrue(v, "starred")),
        links := match ArrField(v, "links") case Some(a) => Some(StringsOf(a)) case None => None))
  }

  /** `normalizeGroup`. */
  function NormalizeGroup(v: Json, freshId: string): (r: Option<Group>)
    ensures r.None? <==> !IsObject(v)
    ensures r.Some? ==> r.value.hidden.Some?
  {
    if !IsObject(v) then None
    else Some(Group(
      id := StrField(v, "id").GetOr(freshId),
      name := StrField(v, "name").GetOr("Imported group"),
      collapsed := IsTrue(v, "collapsed"),
      hidden := Some(IsTrue(v, "hidden"))))
  }

  /** The shape every imported memory has: both flags set, and a non-empty single image listed. */
  predicate NormalMemory(m: Memory) {
    && m.hidden.Some? && m.starred.Some?
    && (m.imageDataUrls.None? ==> m.imageDataUrl.None? || m.imageDataUrl == Some(""))
  }

  /** The memories that survive export and import unchanged: normal, and no empty image list. */
  predicate Reimportable(m: Memory) {
    NormalMemory(m) && m.imageDataUrls != Some([])
  }

  predicate NormalGroup(g: Group) {
    g.hidden.Some?
  }

  /** Every memory `normalizeMemory` returns has the normal shape. */
  lemma NormalizeMemoryIsNormal(v: Json, freshId: string, today: string, now: string)
    requires NormalizeMemory(v, freshId, today, now).Some?
    ensures NormalMemory(NormalizeMemory(v, freshId, today, now).value)
  {
  }

  // ---------------------------------------------------------------------------------------
  // Export

  /** `fields` with `key` set when the value is present (`JSON.stringify` drops `undefined`). */
  function Put(fields: map<string, Json>, key: string, v: Option<Json>): map<string, Json> {
    if v.Some? then fields[key := v.value] else fields
  }

  function OptStr(o: Option<string>): Option<Json> {
    if o.Some? then Some(JStr(o.value)) else None
  }

  function OptBool(o: Option<bool>): Option<Json> {
    if o.Some? then Some(JBool(o.value)) else None
  }

  function OptNum(o: Option<int>): Option<Json> {
    if o.Some? then Some(JNum(o.value)) else None
  }

  function StrArray(xs: seq<string>): (r: Json)
    ensures r.JArr? && |r.items| == |xs|
    ensures forall i :: 0 <= i < |xs| ==> r.items[i] == JStr(xs[i])
  {
    JArr(Map(xs, (x: string) => JStr(x)))
  }

  function OptStrs(o: Option<seq<string>>): Option<Json> {
    if o.Some? then Some(StrArray(o.value)) else None
  }

  /** The keys of a memory object, in the order the type declares them. */
  const MemoryKeys: seq<string> := ["id", "lat", "lng", "title", "date", "notes", "imageDataUrl",
    "imageDataUrls", "createdAt", "groupId", "hidden", "order", "customLabel", "tags", "starred",
    "links"]

  /** The value `JSON.stringify` writes for one key of a memory; `None` for `undefined`. */
  function MemoryField(m: Memory, key: string): Option<Json> {
    if key == "id" then Some(JStr(m.id))
    else if key == "lat" then Some(JNum(m.lat))
    else if key == "lng" then Some(JNum(m.lng))
    else if key == "title" then Some(JStr(m.title))
    else if key == "date" then Some(JStr(m.date))
    else if key == "notes" then Some(JStr(m.notes))
    else if key == "imageDataUrl" then OptStr(m.imageDataUrl)
    else if key == "imageDataUrls" then OptStrs(m.imageDataUrls)
    else if key == "createdAt" then Some(JStr(m.createdAt))
    else if key == "groupId" then OptStr(m.groupId)
    else if key == "hidden" then OptBool(m.hidden)
    else if key == "order" then OptNum(m.order)
    else if key == "customLabel" then OptStr(m.customLabel)
    else if key == "tags" then OptStrs(m.tags)
    else if key == "starred" then OptBool(m.starred)
    else if key == "links" then OptStrs(m.links)
    else None
  }

  /** A memory as `JSON.stringify` writes it: every key whose value is not `undefined`. */
  function MemoryToJson(m: Memory): Json {
    JObj(map key | key in MemoryKeys && MemoryField(m, key).Some? :: MemoryField(m, key).value)
  }

  // Reading an exported memory back, a few keys at a time: each predicate says that `v` holds
  // some of the fields of `m` as import reads them.

  /** `v` holds the fields every memory has of `m`. */
  predicate RequiredRead(v: Json, m: Memory) {
    && StrField(v, "id") == Some(m.id)
    && NumField(v, "lat") == Some(m.lat)
    && NumField(v, "lng") == Some(m.lng)
    && StrField(v, "title") == Some(m.title)
    && StrField(v, "date") == Some(m.date)
    && StrField(v, "notes") == Some(m.notes)
    && StrField(v, "createdAt") == Some(m.createdAt)
  }

  /** `v` holds the image fields of `m`. */
  predicate ImagesRead(v: Json, m: Memory) {
    && StrField(v, "imageDataUrl") == m.imageDataUrl
    && Field(v, "imageDataUrls") == OptStrs(m.imageDataUrls)
  }

  /** `v` holds the group, visibility and order fields of `m`. */
  predicate PlacementRead(v: Json, m: Memory) {
    && StrField(v, "groupId") == m.groupId
    && Field(v, "hidden") == OptBool(m.hidden)
    && NumField(v, "order") == m.order
  }

  /** `v` holds the label, tag, star and link fields of `m`. */
  predicate ExtrasRead(v: Json, m: Memory) {
    && StrField(v, "customLabel") == m.customLabel
    && Field(v, "tags") == OptStrs(m.tags)
    && Field(v, "starred") == OptBool(m.starred)
    && Field(v, "links") == OptStrs(m.links)
  }

  lemma IdWritten(m: Memory)
    ensures StrField(MemoryToJson(m), "id") == Some(m.id)
  {
  }

  lemma LatWritten(m: Memory)
    ensures NumField(MemoryToJson(m), "lat") == Some(m.lat)
  {
  }

  lemma LngWritten(m: Memory)
    ensures NumField(MemoryToJson(m), "lng") == Some(m.lng)
  {
  }

  lemma TitleWritten(m: Memory)
    ensures StrField(MemoryToJson(m), "title") == Some(m.title)
  {
  }

  lemma DateWritten(m: Memory)
    ensures StrField(MemoryToJson(m), "date") == Some(m.date)
  {
  }

  lemma NotesWritten(m: Memory)
    ensures StrField(MemoryToJson(m), "notes") == Some(m.notes)
  {
  }

  lemma CreatedAtWritten(m: Memory)
    ensures StrField(MemoryToJson(m), "createdAt") == Some(m.createdAt)
  {
  }

  lemma ImageUrlWritten(m: Memory)
    ensures StrField(MemoryToJson(m), "imageDataUrl") == m.imageDataUrl
  {
  }

  lemma ImageUrlsWritten(m: Memory)
    ensures Field(MemoryToJson(m), "imageDataUrls") == OptStrs(m.imageDataUrls)
  {
  }

  lemma GroupIdWritten(m: Memory)
    ensures StrField(MemoryToJson(m), "groupId") == m.groupId
  {
  }

  lemma HiddenWritten(m: Memory)
    ensures Field(MemoryToJson(m), "hidden") == OptBool(m.hidden)
  {
  }

  lemma OrderWritten(m: Memory)
    ensures NumField(MemoryToJson(m), "order") == m.order
  {
  }

  lemma LabelWritten(m: Memory)
    ensures StrField(MemoryToJson(m), "customLabel") == m.customLabel
  {
  }

  lemma TagsWritten(m: Memory)
    ensures Field(MemoryToJson(m), "tags") == OptStrs(m.tags)
  {
  }

  lemma StarredWritten(m: Memory)
    ensures Field(MemoryToJson(m), "starred") == OptBool(m.starred)
  {
  }

  lemma LinksWritten(m: Memory)
    ensures Field(MemoryToJson(m), "links") == OptStrs(m.links)
  {
  }

  /** Reading the required fields back from `MemoryToJson`. */
  lemma RequiredFieldsBack(m: Memory)
    ensures RequiredRead(MemoryToJson(m), m)
  {
    IdWritten(m);
    LatWritten(m);
    LngWritten(m);
    TitleWritten(m);
    DateWritten(m);
    NotesWritten(m);
    CreatedAtWritten(m);
  }

  /** Reading the image fields back from `MemoryToJson`. */
  lemma ImageFieldsBack(m: Memory)
    ensures ImagesRead(MemoryToJson(m), m)
  {
    ImageUrlWritten(m);
    ImageUrlsWritten(m);
  }

  /** Reading the group, visibility and order back from `MemoryToJson`. */
  lemma PlacementFieldsBack(m: Memory)
    ensures PlacementRead(MemoryToJson(m), m)
  {
    GroupIdWritten(m);
    HiddenWritten(m);
    OrderWritten(m);
  }

  /** Reading the label, tags, star and links back from `MemoryToJson`. */
  lemma ExtraFieldsBack(m: Memory)
    ensures ExtrasRead(MemoryToJson(m), m)
  {
    LabelWritten(m);
    TagsWritten(m);
    StarredWritten(m);
    LinksWritten(m);
  }

  function GroupToJson(g: Group): Json {
    JObj(Put(map["id" := JStr(g.id), "name" := JStr(g.name), "collapsed" := JBool(g.collapsed)],
             "hidden", OptBool(g.hidden)))
  }

  /** `JSON.stringify(buildExportData(memories, groups))`, with `now` the export time. */
  function ExportJson(ms: seq<Memory>, gs: seq<Group>, now: string): Json {
    JObj(map["version" := JNum(ExportJsonVersion), "exportedAt" := JStr(now),
             "memories" := JArr(Map(ms, MemoryToJson)), "groups" := JArr(Map(gs, GroupToJson))])
  }

  // ---------------------------------------------------------------------------------------
  // Import

  /** `parseExportJson`: the syntax error, or the message for a value that is not an object. */
  function ParseExportJson(p: Parsed): (r: Result)
    ensures p.SyntaxError? ==> r == Failure(p.message)
    ensures p.ParsedOk? && !IsObject(p.value) ==> r == Failure("Invalid export file")
    ensures p.ParsedOk? && IsObject(p.value) ==> r.Success?
    ensures r.Success? && ArrField(p.value, "memories").None? ==> r.data.memories == []
    ensures r.Success? && ArrField(p.value, "memories").Some? ==> r.data.memories == ArrField(p.value, "memories").value
    ensures r.Success? && ArrField(p.value, "groups").None? ==> r.data.groups == []
    ensures r.Success? && ArrField(p.value, "groups").Some? ==> r.data.groups == ArrField(p.value, "groups").value
    ensures r.Success? && NumField(p.value, "version").None? ==> r.data.version == 1
  {
    match p
    case SyntaxError(msg) => Failure(msg)
    case ParsedOk(v) =>
      if !IsObject(v) then Failure("Invalid export file")
      else Success(ExportData(
        version := NumField(v, "version").GetOr(1),
        exportedAt := StrField(v, "exportedAt").GetOr(""),
        memories := ArrField(v, "memories").GetOr([]),
        groups := ArrField(v, "groups").GetOr([])))
  }

  datatype Result = Success(data: ExportData) | Failure(error: string)

  /** `items.map(normalizeMemory).filter(m => m != null)` from index `i` on. */
  function NormalizeMemories(items: seq<Json>, i: nat, freshId: nat -> string, today: string,
                             now: string): (r: seq<Memory>)
    requires i <= |items|
    ensures |r| <= |items| - i
    decreases |items| - i
  {
    if i == |items| then []
    else
      var rest := NormalizeMemories(items, i + 1, freshId, today, now);
      match NormalizeMemory(items[i], freshId(i), today, now)
      case Some(m) => [m] + rest
      case None => rest
  }

  function NormalizeGroups(items: seq<Json>, i: nat, freshId: nat -> string): (r: seq<Group>)
    requires i <= |items|
    ensures |r| <= |items| - i
    decreases |items| - i
  {
    if i == |items| then []
    else
      var rest := NormalizeGroups(items, i + 1, freshId);
      match NormalizeGroup(items[i], freshId(i))
      case Some(g) => [g] + rest
      case None => rest
  }

  /** `m != null`: the test of the `filter` that follows the `map`. */
  predicate Kept<T>(o: Option<T>) {
    o.Some?
  }

  function Wrap<T>(x: T): Option<T> {
    Some(x)
  }

  /** `items.map(normalizeMemory)`: the normalisation of each entry, at its index. */
  function MemoryEntries(items: seq<Json>, freshId: nat -> string, today: string, now: string)
    : (r: seq<Option<Memory>>)
    ensures |r| == |items|
    ensures forall k :: 0 <= k < |items| ==> r[k] == NormalizeMemory(items[k], freshId(k), today, now)
  {
    seq(|items|, k requires 0 <= k < |items| => NormalizeMemory(items[k], freshId(k), today, now))
  }

  /** `items.map(normalizeGroup)`. */
  function GroupEntries(items: seq<Json>, freshId: nat -> string): (r: seq<Option<Group>>)
    ensures |r| == |items|
    ensures forall k :: 0 <= k < |items| ==> r[k] == NormalizeGroup(items[k], freshId(k))
  {
    seq(|items|, k requires 0 <= k < |items| => NormalizeGroup(items[k], freshId(k)))
  }

  /**
   * From index `i` on, the memories kept are the readable entries' normalisations, in the
   * entries' order: wrapped back, they are exactly the entries the `filter` keeps.
   */
  lemma {:induction false} NormalizeMemoriesFilters(items: seq<Json>, i: nat, freshId: nat -> string,
                                                    today: string, now: string)
    requires i <= |items|
    ensures Map(NormalizeMemories(items, i, freshId, today, now), Wrap)
         == Filter(MemoryEntries(items, freshId, today, now)[i..], Kept)
    decreases |items| - i
  {
    var es := MemoryEntries(items, freshId, today, now);
    if i < |items| {
      NormalizeMemoriesFilters(items, i + 1, freshId, today, now);
      assert es[i..][1..] == es[i + 1..];
      var rest := NormalizeMemories(items, i + 1, freshId, today, now);
      match es[i]
      case Some(m) =>
        assert Map([m] + rest, Wrap) == [Wrap(m)] + Map(rest, Wrap);
      case None =>
    }
  }

  /** The same for groups. */
  lemma {:induction false} NormalizeGroupsFilters(items: seq<Json>, i: nat, freshId: nat -> string)
    requires i <= |items|
    ensures Map(NormalizeGroups(items, i, freshId), Wrap) == Filter(GroupEntries(items, freshId)[i..], Kept)
    decreases |items| - i
  {
    var es := GroupEntries(items, freshId);
    if i < |items| {
      NormalizeGroupsFilters(items, i + 1, freshId);
      assert es[i..][1..] == es[i + 1..];
      var rest := NormalizeGroups(items, i + 1, freshId);
      match es[i]
      case Some(g) =>
        assert Map([g] + rest, Wrap) == [Wrap(g)] + Map(rest, Wrap);
      case None =>
    }
  }

  /**
   * `importFromJson`. `freshMemoryId(i)` and `freshGroupId(i)` stand for the random ids used for
   * the entry at index `i` when it has none; `today` and `now` for the current date and time.
   */
  function ImportFromJson(p: Parsed, freshMemoryId: nat -> string, freshGroupId: nat -> string,
                          today: string, now: string): (r: ImportResult)
    ensures r.ImportFailed? <==> ParseExportJson(p).Failure?
    ensures r.Imported? ==> |r.memories| <= |ParseExportJson(p).data.memories|
    ensures r.Imported? ==> |r.groups| <= |ParseExportJson(p).data.groups|
  {
    match ParseExportJson(p)
    case Failure(e) => ImportFailed(e)
    case Success(data) =>
      Imported(NormalizeMemories(data.memories, 0, freshMemoryId, today, now),
               NormalizeGroups(data.groups, 0, freshGroupId))
  }

  /**
   * What an import holds: the normalisations of the backup's entries, in the backup's order,
   * with exactly the unreadable entries left out.
   */
  lemma ImportedInOrder(p: Parsed, freshMemoryId: nat -> string, freshGroupId: nat -> string,
                        today: string, now: string)
    requires ParseExportJson(p).Success?
    ensures var data := ParseExportJson(p).data;
      var r := ImportFromJson(p, freshMemoryId, freshGroupId, today, now);
      && r.Imported?
      && Map(r.memories, Wrap) == Filter(MemoryEntries(data.memories, freshMemoryId, today, now), Kept)
      && Map(r.groups, Wrap) == Filter(GroupEntries(data.groups, freshGroupId), Kept)
  {
    var data := ParseExportJson(p).data;
    NormalizeMemoriesFilters(data.memories, 0, freshMemoryId, today, now);
    NormalizeGroupsFilters(data.groups, 0, freshGroupId);
    assert MemoryEntries(data.memories, freshMemoryId, today, now)[0..]
        == MemoryEntries(data.memories, freshMemoryId, today, now);
    assert GroupEntries(data.groups, freshGroupId)[0..] == GroupEntries(data.groups, freshGroupId);
  }

  /** An imported memory is the normalisation of some entry of the backup, and each readable entry's is imported. */
  lemma ImportedMemoryMembers(p: Parsed, freshMemoryId: nat -> string, freshGroupId: nat -> string,
                              today: string, now: string, m: Memory)
    requires ParseExportJson(p).Success?
    ensures var items := ParseExportJson(p).data.memories;
      m in ImportFromJson(p, freshMemoryId, freshGroupId, today, now).memories <==>
      exists k :: 0 <= k < |items| && NormalizeMemory(items[k], freshMemoryId(k), today, now) == Some(m)
  {
    var items := ParseExportJson(p).data.memories;
    var es := MemoryEntries(items, freshMemoryId, today, now);
    var ms := ImportFromJson(p, freshMemoryId, freshGroupId, today, now).memories;
    ImportedInOrder(p, freshMemoryId, freshGroupId, today, now);
    FilterMembers(es, Kept, Some(m));
    if m in ms {
      var j :| 0 <= j < |ms| && ms[j] == m;
      assert Map(ms, Wrap)[j] == Some(m);
    }
    if Some(m) in Map(ms, Wrap) {
      var j :| 0 <= j < |ms| && Map(ms, Wrap)[j] == Some(m);
      assert ms[j] == m;
    }
    if Some(m) in es {
      var k :| 0 <= k < |es| && es[k] == Some(m);
      assert NormalizeMemory(items[k], freshMemoryId(k), today, now) == Some(m);
    }
  }

  /** Every field rule of `normalizeMemory` for an entry it keeps, whatever the entry holds. */
  lemma NormalizeMemoryFields(v: Json, freshId: string, today: string, now: string)
    requires NormalizeMemory(v, freshId, today, now).Some?
    ensures var m := NormalizeMemory(v, freshId, today, now).value;
      && m.hidden == Some(Field(v, "hidden") == Some(JBool(true)))
      && m.starred == Some(Field(v, "starred") == Some(JBool(true)))
      && (m.groupId.Some? <==> Field(v, "groupId").Some? && Field(v, "groupId").value.JStr?)
      && (m.groupId.Some? ==> Field(v, "groupId") == Some(JStr(m.groupId.value)))
      && (Field(v, "id").Some? && Field(v, "id").value.JStr? ==> m.id == Field(v, "id").value.s)
      && (!(Field(v, "id").Some? && Field(v, "id").value.JStr?) ==> m.id == freshId)
      && (!(Field(v, "title").Some? && Field(v, "title").value.JStr?) ==> m.title == "Untitled")
      && (var list, single := ArrField(v, "imageDataUrls"), StrField(v, "imageDataUrl");
          && (list.Some? && list.value != [] ==> m.imageDataUrls == Some(StringsOf(list.value)))
          && (list in {None, Some([])} && single.Some? && single.value != "" ==> m.imageDataUrls == Some([single.value]))
          && (list in {None, Some([])} && single in {None, Some("")} ==> m.imageDataUrls.None?))
  {
  }

  // ---------------------------------------------------------------------------------------
  // Round trips

  /** The image list of a reimportable memory is read back as it was. */
  lemma ImageListRead(v: Json, m: Memory)
    requires ImagesRead(v, m) && Reimportable(m)
    ensures ImageList(v) == m.imageDataUrls
  {
    if m.imageDataUrls.Some? {
      StringsOfStrArray(m.imageDataUrls.value);
    }
  }

  /** A string list written as an array is read back as it was. */
  lemma StringListBack(v: Json, key: string, xs: Option<seq<string>>)
    requires Field(v, key) == OptStrs(xs)
    ensures (match ArrField(v, key) case Some(a) => Some(StringsOf(a)) case None => None) == xs
  {
    if xs.Some? {
      StringsOfStrArray(xs.value);
    }
  }

  /** An object holding the fields of a reimportable memory normalises to that memory. */
  lemma NormalizeRead(v: Json, m: Memory, freshId: string, today: string, now: string)
    requires v.JObj? && Reimportable(m)
    requires RequiredRead(v, m) && ImagesRead(v, m) && PlacementRead(v, m) && ExtrasRead(v, m)
    ensures NormalizeMemory(v, freshId, today, now) == Some(m)
  {
    ImageListRead(v, m);
    StringListBack(v, "tags", m.tags);
    StringListBack(v, "links", m.links);
  }

  /** A reimportable memory survives being written out and read back. */
  lemma MemoryRoundTrip(m: Memory, freshId: string, today: string, now: string)
    requires Reimportable(m)
    ensures NormalizeMemory(MemoryToJson(m), freshId, today, now) == Some(m)
  {
    RequiredFieldsBack(m);
    ImageFieldsBack(m);
    PlacementFieldsBack(m);
    ExtraFieldsBack(m);
    NormalizeRead(MemoryToJson(m), m, freshId, today, now);
  }

  lemma {:induction false} StringsOfStrArray(xs: seq<string>)
    ensures StringsOf(StrArray(xs).items) == xs
  {
    if xs != [] {
      StringsOfStrArray(xs[1..]);
      assert StrArray(xs).items[1..] == StrArray(xs[1..]).items;
    }
  }

  /** A group with its hidden flag set survives being written out and read back. */
  lemma GroupRoundTrip(g: Group, freshId: string)
    requires NormalGroup(g)
    ensures NormalizeGroup(GroupToJson(g), freshId) == Some(g)
  {
    var v := GroupToJson(g);
    assert Field(v, "id") == Some(JStr(g.id));
    assert Field(v, "name") == Some(JStr(g.name));
    assert Field(v, "collapsed") == Some(JBool(g.collapsed));
    assert Field(v, "hidden") == Some(JBool(g.hidden.value));
  }

  /** Normalising a normalised memory again changes nothing, unless its image list came out empty. */
  lemma NormalizeMemoryIdempotent(v: Json, freshId: string, freshId': string, today: string,
                                  now: string)
    requires NormalizeMemory(v, freshId, today, now).Some?
    requires NormalizeMemory(v, freshId, today, now).value.imageDataUrls != Some([])
    ensures var m := NormalizeMemory(v, freshId, today, now).value;
      NormalizeMemory(MemoryToJson(m), freshId', today, now) == Some(m)
  {
    NormalizeMemoryIsNormal(v, freshId, today, now);
    MemoryRoundTrip(NormalizeMemory(v, freshId, today, now).value, freshId', today, now);
  }

  lemma NormalizeMemoriesCons(items: seq<Json>, i: nat, freshId: nat -> string, today: string,
                              now: string, m: Memory)
    requires i < |items| && NormalizeMemory(items[i], freshId(i), today, now) == Some(m)
    ensures NormalizeMemories(items, i, freshId, today, now)
         == [m] + NormalizeMemories(items, i + 1, freshId, today, now)
  {
  }

  lemma {:induction false} NormalizeMemoriesOfExport(ms: seq<Memory>, i: nat, freshId: nat -> string,
                                                     today: string, now: string)
    requires i <= |ms|
    requires forall k :: 0 <= k < |ms| ==> Reimportable(ms[k])
    ensures NormalizeMemories(Map(ms, MemoryToJson), i, freshId, today, now) == ms[i..]
    decreases |ms| - i
  {
    if i < |ms| {
      assert ms[i..] == [ms[i]] + ms[i + 1..];
      NormalizeMemoriesOfExport(ms, i + 1, freshId, today, now);
      MemoryRoundTrip(ms[i], freshId(i), today, now);
      NormalizeMemoriesCons(Map(ms, MemoryToJson), i, freshId, today, now, ms[i]);
    }
  }

  lemma {:induction false} NormalizeGroupsOfExport(gs: seq<Group>, i: nat, freshId: nat -> string)
    requires i <= |gs|
    requires forall k :: 0 <= k < |gs| ==> NormalGroup(gs[k])
    ensures NormalizeGroups(Map(gs, GroupToJson), i, freshId) == gs[i..]
    decreases |gs| - i
  {
    if i < |gs| {
      assert gs[i..] == [gs[i]] + gs[i + 1..];
      NormalizeGroupsOfExport(gs, i + 1, freshId);
      GroupRoundTrip(gs[i], freshId(i));
    }
  }

  /** Importing an exported backup gives back its memories and groups, in order. */
  lemma ImportExportRoundTrip(ms: seq<Memory>, gs: seq<Group>, now: string,
                              freshMemoryId: nat -> string, freshGroupId: nat -> string,
                              today: string, now': string)
    requires forall k :: 0 <= k < |ms| ==> Reimportable(ms[k])
    requires forall k :: 0 <= k < |gs| ==> NormalGroup(gs[k])
    ensures ImportFromJson(ParsedOk(ExportJson(ms, gs, now)), freshMemoryId, freshGroupId, today, now')
         == Imported(ms, gs)
  {
    var v := ExportJson(ms, gs, now);
    assert ArrField(v, "memories") == Some(Map(ms, MemoryToJson));
    assert ArrField(v, "groups") == Some(Map(gs, GroupToJson));
    NormalizeMemoriesOfExport(ms, 0, freshMemoryId, today, now');
    NormalizeGroupsOfExport(gs, 0, freshGroupId);
    assert ms[0..] == ms && gs[0..] == gs;
  }

  /** The exported backup records its version and export time. */
  lemma ExportHeader(ms: seq<Memory>, gs: seq<Group>, now: string)
    ensures ParseExportJson(ParsedOk(ExportJson(ms, gs, now))).data.version == ExportJsonVersion
    ensures ParseExportJson(ParsedOk(ExportJson(ms, gs, now))).data.exportedAt == now
  {
    var v := ExportJson(ms, gs, now);
    assert Field(v, "version") == Some(JNum(ExportJsonVersion));
    assert Field(v, "exportedAt") == Some(JStr(now));
  }

  lemma {:induction false} StringsOfNoStrings(items: seq<Json>)
    requires forall j :: 0 <= j < |items| ==> !items[j].JStr?
    ensures StringsOf(items) == []
  {
    if items != [] {
      StringsOfNoStrings(items[1..]);
    }
  }

  /**
   * An image array holding no strings normalises to an empty list, which is written out as `[]`
   * and then read back as no list at all when there is no single image.
   */
  lemma EmptyImageListNotReimported(v: Json, freshId: string, today: string, now: string)
    requires NormalizeMemory(v, freshId, today, now).Some?
    requires ArrField(v, "imageDataUrls").Some? && ArrField(v, "imageDataUrls").value != []
    requires forall j :: 0 <= j < |ArrField(v, "imageDataUrls").value| ==>
               !ArrField(v, "imageDataUrls").value[j].JStr?
    requires StrField(v, "imageDataUrl").None?
    ensures var m := NormalizeMemory(v, freshId, today, now).value;
      && m.imageDataUrls == Some([])
      && NormalizeMemory(MemoryToJson(m), freshId, today, now).Some?
      && NormalizeMemory(MemoryToJson(m), freshId, today, now).value.imageDataUrls.None?
  {
    StringsOfNoStrings(ArrField(v, "imageDataUrls").value);
    var m := NormalizeMemory(v, freshId, today, now).value;
    RequiredFieldsBack(m);
    ImageFieldsBack(m);
    assert StrArray([]).items == [];
  }

  /** A backup missing its arrays or its version reads as empty arrays and version 1. */
  lemma MissingFieldsDefault(fields: map<string, Json>)
    requires "memories" !in fields && "groups" !in fields && "version" !in fields
    ensures ParseExportJson(ParsedOk(JObj(fields))) == Success(ExportData(1, StrField(JObj(fields), "exportedAt").GetOr(""), [], []))
  {
  }

  /** An entry whose coordinate cannot be read as a number is dropped. */
  lemma NonNumericCoordinateDropped(fields: map<string, Json>, freshId: string, today: string,
                                    now: string)
    requires "lat" !in fields
    ensures NormalizeMemory(JObj(fields), freshId, today, now).None?
  {
  }

  /** `Number("7")` is 7. */
  lemma NumberOfSeven()
    ensures NumberOf("7") == Some(7)
  {
    var s := "7";
    assert s[..0] == [] && s[0] == '7';
    assert DigitsValue(s) == 7;
    NumberOfDigits(s);
  }

  /** `Number` reads `null` as 0, `[]` as 0, `["7"]` as 7 and an object as `NaN`. */
  lemma NumberCoercions()
    ensures ToNumber(Some(JNull)) == Some(0)
    ensures ToNumber(Some(JArr([]))) == Some(0)
    ensures ToNumber(Some(JArr([JStr("7")]))) == Some(7)
    ensures ToNumber(Some(JObj(map[]))) == None
  {
    assert ArrayString([], JArr([])) == "";
    assert NumberOf("") == Some(0);
    assert ArrayString([JStr("7")], JArr([JStr("7")])) == "7";
    NumberOfSeven();
  }
}
