# Memory Atlas V3 — a verified model of the core

Memory Atlas keeps a personal map of memories. A memory is a pinned place with:
- a title, a date, notes and photos;
- an optional group, tags, links and a star.

This project models in Dafny the parts of the application that decide what the data is and how it changes:

- **Store** (`store.dfy`). This is the application store: memories, groups, the selection, the add flow and the view flags. `State` is the whole store as a value, and each action is a transition on it. `MemoryStore` is a class whose fields the actions update in place. `Partialize` is the part that gets persisted.
- **Storage** (`storage.dfy`). This is the key-value persistence adapter. The IndexedDB store and the legacy localStorage store are maps, and every fault is a parameter. The one-time migration copies the saved state out of the legacy store.
- **Memory order, labels, date filter** (`memory_order.dfy`, `memory_label.dfy`, `date_filter.dfy`):
  - the sidebar order: ungrouped memories first, then each group's memories, each run sorted;
  - the A, B, …, Z, A1, … marker labels;
  - the inclusive date-range filter.
- **CSV and JSON** (`csv.dfy`, `json_import.dfy`). These cover CSV export and import, and JSON backup export and import. Import fills defaults, drops unreadable entries and reports parse errors.
- **Components** (`add_memory.dfy`, `sidebar.dfy`, `map_view.dfy`, `memory_viewer.dfy`, `calendar.dfy`, `stats.dfy`). These hold the rules the views apply:
  - tag, link and photo list edits, and what saving the memory form writes;
  - search, highlight, sections, toggles, group creation and renaming;
  - which markers the map draws, and what a map click does;
  - HTML escaping, the safe link, the photo carousel, the file name and the star;
  - the calendar's month cursor, day cells and per-day lists;
  - the statistics.
- **Shared definitions**:
  - `model.dfy`: the entities, the update patches and `{ ...m, ...p }`;
  - `grouping.dfy`: grouping into a `Map` in insertion order;
  - `seqs.dfy`: filter, map, flat-map and a stable sort;
  - `text.dfy`: the string built-ins the code relies on;
  - `wrappers.dfy`: `Option`.

The project follows these conventions:
- JavaScript `Map`s become a list of keys in insertion order plus a Dafny `map`.
- `null` and `undefined` are both `None`.
- A patch (`Partial<Memory>`) has one `Option` per field, so an explicit `undefined` overwrites the field.
- Randomness, the clock and `new Date(createdAt).getTime()` are parameters (`freshId`, `today`, `now`, `timeOf`).

## Model

| member | source | states |
|---|---|---|
| Store.PartializeIgnoresTransient | src/store/memoryStore.ts:126-131 | Two states with the same memories, groups, theme and default group persist identically: the selection, the add flow, the search and the sidebar flags never reach storage |
| Store.PartializeDistinguishesPersisted | src/store/memoryStore.ts:126-131 | If two states persist identically, their memories, groups, theme and default group are all equal |
| Store.MemoryStore.constructor | src/store/memoryStore.ts:46-56 | The store starts with no memories or groups, nothing selected, edited or pending, no highlight, the sidebar open, an empty query, the dark theme and no default group |
| Store.MemoryStore.SetMemories | src/store/memoryStore.ts:58 | Replaces the memories and nothing else |
| Store.MemoryStore.AddMemory | src/store/memoryStore.ts:60-65 | The new state is the `addMemory` transition of the old one |
| Store.AddMemoryAppends | src/store/memoryStore.ts:60-65 | The memory is appended last, earlier memories keep their places, `isAddingMemory` becomes false and the pending point is cleared |
| Store.MemoryStore.UpdateMemory | src/store/memoryStore.ts:67-76 | The new state is the `updateMemory` transition of the old one |
| Store.UpdateMemoriesMerges | src/store/memoryStore.ts:69-71 | Each memory with the id is replaced in place by its merge with the update; every other memory is unchanged; the length is kept |
| Store.UpdateMemoriesUnknownId | src/store/memoryStore.ts:69-71 | An id that no memory has leaves the list unchanged |
| Store.UpdateMemorySelected | src/store/memoryStore.ts:72-75 | The selected memory is merged exactly when its id is the updated id |
| Store.MemoryStore.RemoveMemory | src/store/memoryStore.ts:78-82 | The new state is the `removeMemory` transition of the old one |
| Store.RemoveMemoriesKeepsOthers | src/store/memoryStore.ts:80 | No memory with the id remains; every other memory keeps its multiplicity and relative order |
| Store.RemoveMemorySelection | src/store/memoryStore.ts:81 | The selection is cleared exactly when it had the id; the memory being edited is untouched |
| Store.MemoryStore.SetSelectedMemory | src/store/memoryStore.ts:84 | Replaces the selection and nothing else |
| Store.MemoryStore.SetTheme | src/store/memoryStore.ts:86 | Replaces the theme and nothing else |
| Store.MemoryStore.SetDefaultGroupId | src/store/memoryStore.ts:88 | Replaces the default group and nothing else |
| Store.MemoryStore.AddGroup | src/store/memoryStore.ts:90-94 | The new state is the `addGroup` transition of the old one |
| Store.AddGroupMakesDefault | src/store/memoryStore.ts:90-94 | The group is appended last and becomes the default group |
| Store.MemoryStore.RemoveGroup | src/store/memoryStore.ts:96-103 | The new state is the `removeGroup` transition of the old one |
| Store.DetachGroupCascade | src/store/memoryStore.ts:99-101 | Exactly the members of the group lose their group id; every other memory and every other field is unchanged |
| Store.RemoveGroupCascade | src/store/memoryStore.ts:96-103 | The group is gone, no memory is deleted, no memory still points at the group, and the default group is cleared exactly when it was that group |
| Store.MemoryStore.UpdateGroup | src/store/memoryStore.ts:105-110 | The new state is the `updateGroup` transition of the old one |
| Store.UpdateGroupsMerges | src/store/memoryStore.ts:107-109 | Each group with the id is merged in place with the update; the others are unchanged |
| Store.UpdateGroupOnlyGroups | src/store/memoryStore.ts:105-110 | `updateGroup` changes only the groups |
| Store.MemoryStore.SetEditingMemory | src/store/memoryStore.ts:112 | Replaces the memory being edited and nothing else |
| Store.MemoryStore.SetIsAddingMemory | src/store/memoryStore.ts:114 | Replaces the add-flow flag and nothing else |
| Store.MemoryStore.SetPendingLatLng | src/store/memoryStore.ts:116 | Replaces the pending point and nothing else |
| Store.MemoryStore.SetSearchHighlight | src/store/memoryStore.ts:118 | Replaces the search highlight and nothing else |
| Store.MemoryStore.SetSidebarOpen | src/store/memoryStore.ts:120 | Replaces the sidebar flag and nothing else |
| Store.MemoryStore.SetSearchQuery | src/store/memoryStore.ts:122 | Replaces the search query and nothing else |
| Model.MergeNothing | src/store/memoryStore.ts:70 | Spreading an empty update over a memory gives the memory back |
| Model.MergeIdempotent | src/store/memoryStore.ts:70 | Merging the same update twice is the same as merging it once |
| Model.MergeTwice | src/store/memoryStore.ts:70 | Two successive merges are one merge of the combined update, in which the later update wins field by field |
| Storage.Lookup | src/utils/idbStorage.ts:20-35 | A read gives a value exactly when the key has a row, and then it gives that row's value |
| Storage.PersistStorage.constructor | src/utils/idbStorage.ts:101-108 | The adapter starts over the given primary and legacy stores |
| Storage.PersistStorage.MigrateFromLegacy | src/utils/idbStorage.ts:68-88 | The value returned and both stores afterwards are those of the migration function, for every combination of faults |
| Storage.PrimaryWins | src/utils/idbStorage.ts:69-70 | A non-empty saved state in the primary store is returned, and neither store changes |
| Storage.MigrationMovesState | src/utils/idbStorage.ts:71-81 | With no usable primary value and a non-empty legacy value, the legacy value is copied to the primary store, removed from the legacy store and returned |
| Storage.EmptyPrimaryIsReplaced | src/utils/idbStorage.ts:70-74 | An empty string in the primary store counts as nothing saved, and a legacy state is migrated over it |
| Storage.MigrateIdempotent | src/utils/idbStorage.ts:68-88 | After a migration that met no fault or returned a state, a second migration returns the same outcome and changes nothing |
| Storage.MigrateLosesNothing | src/utils/idbStorage.ts:68-88 | Whatever the faults, a saved primary key is kept; a legacy state ends up in the primary store or stays in the legacy store; a returned state is in the primary store |
| Storage.MigrateOnlyStateKey | src/utils/idbStorage.ts:68-88 | The migration reads and writes no key other than the state key |
| Storage.FailedCopyChangesNothing | src/utils/idbStorage.ts:74 | A failed write to the primary store leaves both stores unchanged |
| Storage.NothingToMigrate | src/utils/idbStorage.ts:69-87 | When neither store holds a non-empty state, or the legacy read throws, the primary store's value (`null` or empty) is returned and neither store changes |
| Storage.FailedRemoveIgnored | src/utils/idbStorage.ts:74-80 | When the legacy delete throws, the copied state is still returned and is in the primary store, and the legacy copy stays |
| Storage.PersistStorage.GetItem | src/utils/idbStorage.ts:102-105 | The state key goes through the migration; any other key is a plain primary read and changes nothing |
| Storage.PersistStorage.SetItem | src/utils/idbStorage.ts:106 | A successful write sets the key in the primary store; a failed one changes nothing; the legacy store is never touched |
| Storage.PersistStorage.RemoveItem | src/utils/idbStorage.ts:107 | A successful remove deletes the key from the primary store; a failed one changes nothing; the legacy store is never touched |
| Storage.WriteThenRead | src/utils/idbStorage.ts:102-106 | After a successful write of a non-empty state, reading the state key returns it without migrating; any key reads back as the value written |
| MemoryOrder.Compare | src/utils/memoryOrder.ts:4-9 | The comparator orders by `order`, a missing order counting as larger than any, then by creation time |
| MemoryOrder.CompareAntisymmetric | src/utils/memoryOrder.ts:4-9 | Swapping the arguments negates the result |
| MemoryOrder.CompareIsLexicographic | src/utils/memoryOrder.ts:4-9 | The result is negative, zero or positive exactly as the (order with missing last, time) key is smaller, equal or larger |
| MemoryOrder.OrderLeTotal | src/utils/memoryOrder.ts:4-9 | The comparator induces a total preorder, as a sort requires |
| MemoryOrder.MemoriesInSidebarOrder | src/utils/memoryOrder.ts:12-24 | The loop returns the sorted ungrouped memories followed by each group's sorted memories, one group after another in the order of `groups` |
| MemoryOrder.UngroupedFirst | src/utils/memoryOrder.ts:13-16 | The result begins with the ungrouped memories, sorted |
| MemoryOrder.GroupSegmentSorted | src/utils/memoryOrder.ts:17-22 | Each group's memories appear as one contiguous sorted run, placed after the runs of the groups listed before it |
| MemoryOrder.RunSorted | src/utils/memoryOrder.ts:18-20 | A group's run is exactly its memories, sorted and adjacent-ordered by the comparator |
| MemoryOrder.SidebarOrderPermutation | src/utils/memoryOrder.ts:12-24 | With distinct, non-empty group ids, every memory that is ungrouped or in a listed group appears exactly as often as in the input, and any other memory never appears |
| MemoryOrder.SidebarOrderMembers | src/utils/memoryOrder.ts:12-24 | For any group list, duplicated or empty ids included, a memory is listed exactly when it is in the input and is ungrouped or belongs to one of the groups |
| MemoryOrder.SegmentsMembers | src/utils/memoryOrder.ts:17-22 | For any group list, a memory is in the concatenated group runs exactly when it is in the input and its group id is one of the groups' ids |
| MemoryOrder.NoGroupsSidebarOrder | src/utils/memoryOrder.ts:13-16 | With no groups, the result is the ungrouped memories, sorted |
| MemoryOrder.SidebarOrderCount | src/utils/memoryOrder.ts:12-24 | With distinct, non-empty group ids, each memory occurs in the result as often as among the input memories that are ungrouped or in a listed group |
| MemoryOrder.GroupSegmentCount | src/utils/memoryOrder.ts:18-20 | A memory occurs in a group's run as often as in the input when it belongs to the group, and otherwise never |
| MemoryOrder.SegmentsCount | src/utils/memoryOrder.ts:17-22 | Over distinct group ids, a memory occurs in the concatenated runs as often as in the input when its group is listed, and otherwise never |
| Model.UngroupedOf | src/utils/memoryOrder.ts:13-14 | Every memory kept has a missing or empty (falsy) group id |
| Model.MembersOf | src/utils/memoryOrder.ts:18-19 | Every memory kept has exactly the group's id |
| MemoryLabel.Letter | src/utils/memoryLabel.ts:6 | The letter is an upper-case Latin letter |
| MemoryLabel.Label | src/utils/memoryLabel.ts:5-9 | A label is that letter followed by nothing but digits |
| MemoryLabel.LabelRoundTrip | src/utils/memoryLabel.ts:5-9 | The label read back as letter position plus 26 times its number gives the index: labels encode indices without loss |
| MemoryLabel.LabelInjective | src/utils/memoryLabel.ts:5-9 | Different indices get different labels |
| MemoryLabel.LabelShape | src/utils/memoryLabel.ts:5-9 | Indices 0-25 get one letter `A`+index; from 26 on the letter of `index % 26` is followed by the decimal form of `index / 26`, which never starts with 0 |
| DateFilter.FilterByDate | src/utils/dateFilter.ts:4-16 | The result is never longer than the input, and every memory in it is within the given bounds |
| DateFilter.NoBoundsKeepsAll | src/utils/dateFilter.ts:9 | With neither bound given (or both empty), the input comes back unchanged |
| DateFilter.FilterByDateIsSubseq | src/utils/dateFilter.ts:10-15 | The result is the input with some memories dropped, in input order |
| DateFilter.FilterByDateKeeps | src/utils/dateFilter.ts:10-15 | A memory is kept exactly when it is in the input, `from <= date` if `from` is given, and `date <= to` if `to` is given (both inclusive) |
| DateFilter.FilterByDateCount | src/utils/dateFilter.ts:10-15 | Each memory keeps its multiplicity when in range, and never appears otherwise |
| DateFilter.FullDateOrder | src/utils/dateFilter.ts:3 | On `YYYY-MM-DD` strings, string order is chronological order: it agrees with (year, month, day) order |
| DateFilter.FullDateInRange | src/utils/dateFilter.ts:3-16 | On full dates, the filter keeps exactly the memories whose (year, month, day) lies within the bounds |
| Grouping.BucketMembers | src/components/CalendarView.tsx:42-50 | An element lies in the bucket of its own key and in no other |
| Grouping.KeysSpec | src/components/CalendarView.tsx:42-50 | The `Map`'s keys are distinct and are exactly the keys of the elements |
| Grouping.Increment | src/components/StatsDashboard.tsx:21 | `map.set(k, (map.get(k) ?? 0) + 1)` turns a tally of the first `i` elements into one of the first `i + 1` |
| Grouping.SizesSumAll | src/components/CalendarView.tsx:42-50 | The buckets of all keys together hold each element once: their sizes add up to the number of elements |
| Csv.EscapeCell | src/utils/exportImport.ts:51-55 | A cell without `"`, `,`, CR or LF is written as it is; any other cell is enclosed in double quotes |
| Csv.ParseCsvRow | src/utils/exportImport.ts:192-216 | The character loop computes the row scan, and always yields at least one cell |
| Csv.ScanQuoted | src/utils/exportImport.ts:198-206 | Inside quotes, a doubled quote adds one quote to the cell and a single quote ends the quoting |
| Csv.ScanEscaped | src/utils/exportImport.ts:51-55 | An escaped cell followed by a comma or the end of the line is read back as the original cell |
| Csv.ParseRowText | src/utils/exportImport.ts:51-55 | Round trip: parsing the comma-join of escaped cells gives back exactly the cells |
| Csv.ParseCsvLine | src/utils/exportImport.ts:62-75 | Each exported line parses back into the memory's twelve values, in header order |
| Csv.HeaderLineParses | src/utils/exportImport.ts:36-49 | The header line parses back into the twelve column names |
| Csv.FlagCell | src/utils/exportImport.ts:69 | A flag is written `1` exactly when it is set |
| Csv.OrderCell | src/utils/exportImport.ts:73 | The order cell is empty exactly when the memory has no order |
| Csv.ExportToCsv | src/utils/exportImport.ts:58-78 | The export is the header line and one line per memory, joined by CRLF |
| Csv.BuildLines | src/utils/exportImport.ts:60-77 | The export loop pushes one line per memory, in order |
| Csv.SplitLines | src/utils/exportImport.ts:151 | Splitting on `\r?\n` yields at least one line |
| Csv.SplitAtNewlinesJoin | src/utils/exportImport.ts:151 | The pieces between line feeds hold no line feed, and joined with line feeds they give back the text |
| Csv.SplitLinesStripsCr | src/utils/exportImport.ts:151 | The `\r?\n` split is the split at line feeds with one carriage return dropped from the end of every piece but the last |
| Csv.SplitLinesNoBreak | src/utils/exportImport.ts:151 | No line of the split holds a line feed |
| Csv.SplitCrlfJoin | src/utils/exportImport.ts:151 | Lines without line feeds, joined by CRLF, split back into exactly those lines |
| Csv.CsvTextLines | src/utils/exportImport.ts:58-78 | An export whose lines hold no line feed splits back into the header line followed by one line per memory, in order |
| Csv.FirstIndex | src/utils/exportImport.ts:155-158 | `indexOf` gives the first position holding the value, or -1 when no position does |
| Csv.NormalizeHeader | src/utils/exportImport.ts:154 | Each header cell is lower-cased and trimmed, with positions kept |
| Csv.HeaderMatchesCaseInsensitively | src/utils/exportImport.ts:154-158 | A column is found whatever its case and surrounding white space |
| Csv.ParseCsvToMemories | src/utils/exportImport.ts:150-190 | The method computes one memory per data line, built from that line under the first line's header |
| Csv.BuildMemories | src/utils/exportImport.ts:169-188 | The import loop pushes one memory per data line, in order |
| Csv.CsvToMemoriesAt | src/utils/exportImport.ts:169-188 | The `k`-th imported memory comes from data line `k + 1` under the normalised header |
| Csv.CsvToMemoriesCount | src/utils/exportImport.ts:151-152 | Fewer than two non-empty lines give no memories; otherwise there is one memory per data line |
| Csv.RowToMemoryDefaults | src/utils/exportImport.ts:173-186 | The id, title, date and creation time are never empty, and the title defaults to `Untitled`; `hidden` is set exactly when the cell is `1`; an order of 0 or none becomes no order; no empty group or label; no images |
| Csv.MissingCoordinateIsZero | src/utils/exportImport.ts:163-167 | A missing or non-numeric number cell reads as 0 |
| Csv.NoCustomLabelColumn | src/utils/exportImport.ts:186 | Without a `customlabel` column, no imported memory has a custom label |
| Csv.CollapseWithoutQuotes | src/utils/exportImport.ts:161 | `get` reads a cell without double quotes exactly as parsed |
| Csv.GetDropsLeadingQuote | src/utils/exportImport.ts:161 | `get` unquotes a second time: the title `"a` is exported and parsed back as `"a`, and then read as `a` |
| Csv.ImportFromCsv | src/utils/exportImport.ts:239-249 | CSV import always succeeds, with no groups and one memory per data line |
| JsonImport.ParseExportJson | src/utils/exportImport.ts:88-100 | A syntax error is reported with its message; a non-object value fails with `Invalid export file`; any object or array succeeds, with `memories` and `groups` read as the arrays they hold and as `[]` when they are missing or not arrays, and `version` as 1 when it is not a number |
| JsonImport.MissingFieldsDefault | src/utils/exportImport.ts:92-96 | A backup missing its arrays or its version reads as empty arrays and version 1 |
| JsonImport.StringsOf | src/utils/exportImport.ts:112 | Filtering to strings never lengthens the list |
| JsonImport.StringsOfKeepsStrings | src/utils/exportImport.ts:112 | Filtering keeps exactly the string elements, in order |
| JsonImport.NormalizeMemory | src/utils/exportImport.ts:103-134 | An entry is dropped exactly when it is not an object or one of its coordinates is not a number |
| JsonImport.NormalizeMemoryIsNormal | src/utils/exportImport.ts:116-133 | Every memory returned has `hidden` and `starred` set, and an image list whenever it has a non-empty single image |
| JsonImport.NonNumericCoordinateDropped | src/utils/exportImport.ts:107-109 | An entry whose coordinate reads as NaN is dropped |
| JsonImport.NumberCoercions | src/utils/exportImport.ts:107-108 | `Number` reads `null` as 0, `[]` as 0, `["7"]` as 7 and an object as NaN |
| JsonImport.NormalizeGroup | src/utils/exportImport.ts:137-147 | An entry is dropped exactly when it is not an object; every group returned has its hidden flag set |
| JsonImport.ImportFromJson | src/utils/exportImport.ts:224-236 | Import fails exactly when parsing fails; on success there are no more memories or groups than entries |
| JsonImport.NormalizeMemoriesFilters | src/utils/exportImport.ts:227 | The memories kept from index `i` on are, in order, exactly the entries whose normalisation succeeds, each replaced by that normalisation |
| JsonImport.NormalizeGroupsFilters | src/utils/exportImport.ts:228 | The groups kept from index `i` on are, in order, exactly the entries whose normalisation succeeds, each replaced by that normalisation |
| JsonImport.ImportedInOrder | src/utils/exportImport.ts:224-229 | A successful import holds the normalisations of the backup's memory and group entries, in the backup's order, with exactly the unreadable entries left out |
| JsonImport.ImportedMemoryMembers | src/utils/exportImport.ts:224-229 | A memory is imported exactly when it is the normalisation of some entry of the backup |
| JsonImport.NormalizeMemoryFields | src/utils/exportImport.ts:106-133 | For any entry that is kept: `hidden` and `starred` are true exactly for a literal `true`; `groupId` is kept exactly when it is a string; a missing or non-string `id` gets the fresh id and a missing `title` becomes `Untitled`; a non-empty image array gives its strings, otherwise a non-empty single image gives a one-element list, otherwise there is no list |
| JsonImport.MemoryRoundTrip | src/utils/exportImport.ts:13-20 | A reimportable memory written into a backup and normalised again is the same memory |
| JsonImport.GroupRoundTrip | src/utils/exportImport.ts:137-147 | A group with its hidden flag set survives export and import |
| JsonImport.ImportExportRoundTrip | src/utils/exportImport.ts:224-229 | Importing an exported backup of reimportable memories and normal groups gives back those memories and groups, in order |
| JsonImport.NormalizeMemoryIdempotent | src/utils/exportImport.ts:103-134 | Normalising a normalised memory again changes nothing, unless its image list is empty |
| JsonImport.EmptyImageListNotReimported | src/utils/exportImport.ts:110-115 | An image array with no strings normalises to an empty list, which is exported as `[]` and read back as no list when there is no single image |
| JsonImport.ExportHeader | src/utils/exportImport.ts:13-20 | An exported backup records version 1 and the export time |
| JsonImport.NormalizeRead | src/utils/exportImport.ts:103-134 | An object holding the fields of a reimportable memory normalises to that memory |
| AddMemory.AddTagToSpec | src/components/AddMemoryModal.tsx:101-105 | The trimmed, lower-cased tag is appended exactly when it is non-empty and not yet listed; afterwards it is listed, the list has no duplicates, and adding it again changes nothing |
| AddMemory.AddLinkToSpec | src/components/AddMemoryModal.tsx:107-111 | Same as for tags, with the link's case kept |
| AddMemory.RemoveAtSpec | src/components/AddMemoryModal.tsx:97-99 | Removing at a valid position drops exactly that element and keeps the rest in order; any other index leaves the list unchanged |
| AddMemory.RemoveTagSpec | src/components/AddMemoryModal.tsx:520 | The tag chip's × drops every copy of the tag and keeps all other tags, in order |
| AddMemory.MemoryForm.constructor | src/components/AddMemoryModal.tsx:34-50 | The form opens with the edited memory's values, or with empty values dated today and the default group |
| AddMemory.InitialGroup | src/components/AddMemoryModal.tsx:43-45 | The initial group is the edited memory's own group (or none), or the default group for a new memory |
| AddMemory.MemoryForm.SetTagInput | src/components/AddMemoryModal.tsx:532 | Typing a tag changes only the tag input |
| AddMemory.MemoryForm.SetLinkInput | src/components/AddMemoryModal.tsx:573 | Typing a link changes only the link input |
| AddMemory.MemoryForm.AddTag | src/components/AddMemoryModal.tsx:101-105 | The tags become the add-tag result and the input is cleared |
| AddMemory.MemoryForm.AddLink | src/components/AddMemoryModal.tsx:107-111 | The links become the add-link result and the input is cleared |
| AddMemory.MemoryForm.AddImages | src/components/AddMemoryModal.tsx:82 | The processed images are appended after the current ones |
| AddMemory.MemoryForm.RemoveImageAt | src/components/AddMemoryModal.tsx:97-99 | Only the image list changes, by removal at the index |
| AddMemory.MemoryForm.RemoveTagChip | src/components/AddMemoryModal.tsx:520 | Only the tags change, by removing the tag |
| AddMemory.MemoryForm.RemoveLinkAt | src/components/AddMemoryModal.tsx:561 | Only the links change, by removal at the index |
| AddMemory.MemoryForm.ChooseGroup | src/components/AddMemoryModal.tsx:458-474 | Picking Ungrouped or a group changes only the form's group |
| AddMemory.MemoryForm.CreateGroupInDropdown | src/components/AddMemoryModal.tsx:484-490 | Adds an expanded `New group` as the last and default group, and selects it in the form |
| AddMemory.MemoryForm.HandleSave | src/components/AddMemoryModal.tsx:113-151 | The store changes exactly by the save transition: an edit is merged, a new memory is added, and nothing happens without either |
| AddMemory.SavedTextNormalised | src/components/AddMemoryModal.tsx:120-126 | The saved title is trimmed and never blank (`Untitled` otherwise); the notes are trimmed; a saved label is trimmed and non-blank |
| AddMemory.EditPatchFields | src/components/AddMemoryModal.tsx:118-129 | Merging the edit update sets each edited field: title, date, notes, the image list (absent if empty) with its first image, the group (none if empty), the label, and the tags and links (absent if empty); id, position, creation time, visibility, order and star are kept |
| AddMemory.EditNormalises | src/components/AddMemoryModal.tsx:118-130 | Saving an edit yields a normalised memory with the same id, position, creation time, visibility, order and star |
| AddMemory.NewMemoryPlaced | src/components/AddMemoryModal.tsx:131-146 | A new memory stands at the pending point with the given id and time, and has no hidden flag, order or star |
| AddMemory.NewMemoryNormalised | src/components/AddMemoryModal.tsx:131-146 | A new memory is normalised |
| AddMemory.NewMemoryIsEditedBlank | src/components/AddMemoryModal.tsx:118-146 | A new memory is what an edit save of a blank memory at the same point would produce |
| AddMemory.EditWithoutChangeKeeps | src/components/AddMemoryModal.tsx:34-50 | Opening a normalised memory and saving without changes leaves it as it was, when its photos read back as its stored list |
| AddMemory.SaveNewMemory | src/components/AddMemoryModal.tsx:131-148 | Saving a new memory appends it and closes the add flow; the default group changes exactly when a non-empty group was chosen, and then to that group |
| AddMemory.SaveEdit | src/components/AddMemoryModal.tsx:118-130 | Saving an edit merges the edit update into exactly the memories with the edited id, keeps every other memory, the groups and the default group, and leaves edit mode |
| AddMemory.HandleDeleteConfirm | src/components/AddMemoryModal.tsx:153-160 | When editing, the memory is removed and edit mode is left; otherwise nothing changes |
| Sidebar.ContainsLower | src/components/Sidebar.tsx:24-28 | `lower(t).includes(lower(q))` holds exactly when `q` occurs in `t` ignoring letter case |
| Sidebar.BlankQueryMatchesAll | src/components/Sidebar.tsx:23 | An empty or all-blank query matches every memory |
| Sidebar.MatchesSearchIff | src/components/Sidebar.tsx:22-30 | A non-blank query matches exactly when it occurs, ignoring case and untrimmed, in the title, the notes or the date |
| Sidebar.MatchesSearchIgnoresCase | src/components/Sidebar.tsx:24 | Queries that differ only in letter case match the same memories |
| Sidebar.HighlightMatch | src/components/Sidebar.tsx:32-45 | Either the text is returned whole, or its three parts join back into the text and the marked part is the query up to letter case |
| Sidebar.HighlightMatchFirst | src/components/Sidebar.tsx:32-45 | The text is split exactly when the query is not blank and occurs in it ignoring case, and then at the first such occurrence |
| Sidebar.HighlightedTitleMatches | src/components/Sidebar.tsx:84 | A title that gets a highlight belongs to a memory the search matches |
| Sidebar.Sections | src/components/Sidebar.tsx:301 | There is one section for Ungrouped plus one per group |
| Sidebar.SectionsIff | src/components/Sidebar.tsx:301 | Ungrouped holds exactly the memories with a falsy group id; the section of each group holds exactly the memories with that group's id |
| Sidebar.DanglingInNoSection | src/components/Sidebar.tsx:301 | A memory whose non-empty group id names no group appears in no section |
| Sidebar.TogglesFlip | src/components/Sidebar.tsx:314 | Each toggle sets its flag to the negation of its reading (absent reads as false) and changes nothing else; toggling twice restores the reading |
| Sidebar.HideTakesOffMap | src/components/Sidebar.tsx:314 | Hiding a shown memory takes it off the map |
| Sidebar.ToggleMemoryHide | src/components/Sidebar.tsx:312-315 | The store changes by `updateMemory` with the flipped hidden flag |
| Sidebar.ToggleGroupCollapse | src/components/Sidebar.tsx:370 | The store changes by `updateGroup` with the flipped collapsed flag |
| Sidebar.ToggleGroupHide | src/components/Sidebar.tsx:371 | The store changes by `updateGroup` with the flipped hidden flag |
| Sidebar.DeleteGroup | src/components/Sidebar.tsx:372-376 | The group is removed if the user confirms; otherwise nothing changes |
| Sidebar.SidebarView.constructor | src/components/Sidebar.tsx:289-290 | The Ungrouped section starts expanded, and no group is open for renaming |
| Sidebar.SidebarView.ToggleUngroupedCollapsed | src/components/Sidebar.tsx:354 | Flips the local collapse flag and nothing else |
| Sidebar.SidebarView.CreateNewGroup | src/components/Sidebar.tsx:302-310 | Adds an expanded `New group` under the fresh id, and opens it for renaming |
| Sidebar.SidebarView.ClearOpenForRename | src/components/Sidebar.tsx:381 | Releases the rename request |
| Sidebar.NewGroupIsDefault | src/components/Sidebar.tsx:302-310 | The new group is the last group and the default group |
| Sidebar.GroupSection.constructor | src/components/Sidebar.tsx:148-154 | The section starts with the group's name and, if asked, in rename mode |
| Sidebar.GroupSection.Edit | src/components/Sidebar.tsx:149 | Typing changes only the edited value |
| Sidebar.GroupSection.HandleBlur | src/components/Sidebar.tsx:156-164 | Leaves rename mode and releases the request; writes the trimmed name to the group when it is non-blank and differs from the current name, leaving the typed text in the field until the name changes, and otherwise changes nothing in the store and restores the current name in the field |
| Sidebar.GroupSection.StartRename | src/components/Sidebar.tsx:206 | Clicking a group's name enters rename mode, except for the Ungrouped section; the field is untouched |
| Sidebar.GroupSection.SyncName | src/components/Sidebar.tsx:151 | When the group's name changes, whether by this section's rename or from elsewhere, the field shows the new name and rename mode is kept |
| Sidebar.GroupSection.SyncOpenForRename | src/components/Sidebar.tsx:152-154 | A rename request switches rename mode on; without one, the mode is kept; the field is untouched |
| Sidebar.RenameTo | src/components/Sidebar.tsx:159 | The name written is non-empty, trimmed and different from the current name; nothing is written exactly when the edit is blank or its trim equals the current name |
| Sidebar.RenameSettles | src/components/Sidebar.tsx:156-164 | After a rename, a second blur with the same edit writes nothing |
| MapView.Markers | src/components/MapView.tsx:137 | There are never more markers than memories |
| MapView.PassesFiltersIsVisible | src/components/MapView.tsx:232-243 | The two filters of `visibleMemoryIds` decide exactly that a memory is not hidden and no group with its id is hidden |
| MapView.VisibleIdsIff | src/components/MapView.tsx:235-243 | An id is visible exactly when some memory with that id passes the filters |
| MapView.MarkersIff | src/components/MapView.tsx:137 | A memory gets a marker exactly when it is in the store and some memory with its id is visible |
| MapView.MarkersInOrder | src/components/MapView.tsx:137 | Markers keep the store order |
| MapView.MarkersUniqueIds | src/components/MapView.tsx:137 | With unique ids, the markers are exactly the visible memories, in store order |
| MapView.HiddenMemoryNotDrawn | src/components/MapView.tsx:237 | A memory hidden itself has no marker, whatever its group |
| MapView.HiddenGroupNotDrawn | src/components/MapView.tsx:238-241 | Hiding a group removes the markers of all its memories |
| MapView.ShownMemoryDrawn | src/components/MapView.tsx:235-243 | A store memory that is not itself hidden is drawn if it has no group, its group is not hidden, or no group has its id |
| MapView.MapClick | src/components/MapView.tsx:255-263 | A map click clears the highlight, sets the pending point and opens the add flow |
| MapView.MapClickThenAdd | src/components/MapView.tsx:255-263 | A click changes nothing that is persisted and blurs the map; saving the new memory afterwards closes the flow and forgets the point |
| MemoryViewer.UnescapeEscapeHtml | src/components/MemoryViewer.tsx:11-13 | Decoding the four entities of escaped text gives back the text |
| MemoryViewer.EscapeHtmlNoMarkup | src/components/MemoryViewer.tsx:11-13 | Escaped text contains no `<`, `>` or `"` |
| MemoryViewer.EscapeHtmlAmpersands | src/components/MemoryViewer.tsx:12 | Every `&` in escaped text starts `&amp;`, `&lt;`, `&gt;` or `&quot;` |
| MemoryViewer.EscapeHtmlAppend | src/components/MemoryViewer.tsx:12 | Escaping works character by character: the escape of a concatenation is the concatenation of the escapes |
| MemoryViewer.SafeLinkHref | src/components/MemoryViewer.tsx:16-20 | The result always starts with `http://` or `https://` (ignoring case), is trimmed, and is the trimmed link with or without `https://` in front |
| MemoryViewer.SafeLinkHrefKeeps | src/components/MemoryViewer.tsx:17-19 | A link with the prefix is returned trimmed; any other link gets `https://` in front of its trimmed text |
| MemoryViewer.SafeLinkHrefIdempotent | src/components/MemoryViewer.tsx:16-20 | Making a safe link safe again changes nothing |
| MemoryViewer.ExportedHref | src/components/MemoryViewer.tsx:36 | The exported `href` cannot end the attribute early, and it decodes to an http or https address |
| MemoryViewer.PrevImage | src/components/MemoryViewer.tsx:265 | The previous index stays within the photos |
| MemoryViewer.NextImage | src/components/MemoryViewer.tsx:275 | The next index stays within the photos |
| MemoryViewer.CarouselWraps | src/components/MemoryViewer.tsx:265-275 | On a valid index the buttons step one photo back or on modulo the count, and each undoes the other |
| MemoryViewer.CollapseSpacesNoSpace | src/components/MemoryViewer.tsx:43 | After `replace(/\s+/g, '-')` no white space is left |
| MemoryViewer.CollapseSpacesContent | src/components/MemoryViewer.tsx:43 | The characters other than white space come through in order; only the runs are replaced |
| MemoryViewer.CollapseSpacesKeeps | src/components/MemoryViewer.tsx:43 | Text without white space is left unchanged |
| MemoryViewer.FileStem | src/components/MemoryViewer.tsx:43 | The stem is at most 30 characters |
| MemoryViewer.FileStemShape | src/components/MemoryViewer.tsx:43 | The stem is never empty and has no white space; a title of at most 30 characters without white space is its own stem; the stem of a stem is itself |
| MemoryViewer.StarFlips | src/components/MemoryViewer.tsx:193 | The star flips (absent reads as false), nothing else changes, and a second press restores it |
| MemoryViewer.ToggleStar | src/components/MemoryViewer.tsx:193 | The store changes by `updateMemory` with the flipped star |
| Calendar.PrevMonth | src/components/CalendarView.tsx:52-56 | A valid month cursor stays valid |
| Calendar.NextMonth | src/components/CalendarView.tsx:57-61 | A valid month cursor stays valid |
| Calendar.MonthSteps | src/components/CalendarView.tsx:52-61 | The buttons move exactly one month back or on; January goes to December of the previous year, December to January of the next; each undoes the other |
| Calendar.Pad2 | src/components/CalendarView.tsx:35 | `padStart(2, '0')` keeps a string of two or more characters, and left-pads a shorter one with zeros to exactly two |
| Calendar.Pad2Digits | src/components/CalendarView.tsx:35 | A number below 100, padded, is two digits of that value |
| Calendar.Pad2Injective | src/components/CalendarView.tsx:35 | Different numbers below 100 stay different once padded |
| Calendar.DayKeyIsFullDate | src/components/CalendarView.tsx:35 | For a four-digit year, a valid month and a day of the month, the key is a full `YYYY-MM-DD` date with that year, month + 1 and day |
| Calendar.DayKeyInjective | src/components/CalendarView.tsx:35 | Within a month, different days have different keys |
| Calendar.MonthKeysDistinct | src/components/CalendarView.tsx:34-38 | The day keys of a month are pairwise distinct |
| Calendar.BuildDays | src/components/CalendarView.tsx:33-38 | There is one cell per day of the month, numbered from 1, keyed by its date and counting the memories of that date; the cells together count the memories dated in that month |
| Calendar.MonthTotal | src/components/CalendarView.tsx:34-38 | The cells of the month together count the memories dated within it |
| Calendar.CountOnPositive | src/components/CalendarView.tsx:36 | A cell is highlighted (count > 0) exactly when some memory carries its date |
| Calendar.MemoriesByDate | src/components/CalendarView.tsx:42-50 | The keys are the dates in order of first occurrence, and each date's list holds its memories in input order; an absent date reads as the empty list |
| Calendar.DayListsPartition | src/components/CalendarView.tsx:42-50 | Each memory is in the list of its own date and of no other, and the list sizes add up to the number of memories |
| Calendar.DayClickFilters | src/components/CalendarView.tsx:110 | Clicking a day sets both bounds to its key, and the date filter then keeps exactly that day's memories, in order: the list shown under the calendar, as long as the cell's count |
| Stats.Tally | src/components/StatsDashboard.tsx:19-24 | After the loop, each map's keys are the months (or years) in order of first occurrence, each counting its memories |
| Stats.ComputeStats | src/components/StatsDashboard.tsx:14-38 | `total` is the number of memories; `starred` and `withImages` count the starred memories and those with photos; `byYear` is the year entries sorted ascending; `topMonths` is the first five month entries sorted by count |
| Stats.Entries | src/components/StatsDashboard.tsx:25 | There is one entry per key of the tally |
| Stats.EntryMeaning | src/components/StatsDashboard.tsx:19-25 | An entry is a key met in the memories, with the number of memories under it |
| Stats.EntriesSum | src/components/StatsDashboard.tsx:19-24 | The counts of a tally add up to the number of memories |
| Stats.TalliesAddUp | src/components/StatsDashboard.tsx:15-24 | Both the month tally and the sorted year tally add up to `total` |
| Stats.CountsSplit | src/components/StatsDashboard.tsx:28-29 | Starred and unstarred memories make up the total, and so do memories with and without photos |
| Stats.TopMonthsShape | src/components/StatsDashboard.tsx:25-27 | There are at most five top months, and five when there are at least five months; each is a tally entry; counts never increase down the list |
| Stats.TopMonthsBusiest | src/components/StatsDashboard.tsx:25-27 | No month left out of the top months has more memories than a month in it |
| Stats.CountsSumSort | src/components/StatsDashboard.tsx:25-26 | Sorting entries keeps the sum of their counts |
| Stats.YearOfFullDate | src/components/StatsDashboard.tsx:22 | A full `YYYY-MM-DD` date is counted under its four-digit year |
| Stats.ByYearAscending | src/components/StatsDashboard.tsx:35 | With every year well formed, `byYear` is in ascending order of year, and each entry is a year of the tally with its count |
| Text.Trim | src/components/AddMemoryModal.tsx:102 | `trim()` is never longer than its input, leaves no white space at either end, and is empty exactly when the input is all white space |
| Text.IndexOf | src/components/Sidebar.tsx:36 | `indexOf` gives the first position where the query occurs, or -1 when it does not occur |
| Text.NumberOfNat | src/utils/exportImport.ts:165 | `Number(String(n))` is `n` for every natural number |
| Text.LexLessDigits | src/utils/dateFilter.ts:12-13 | On digit strings of equal length, string order is numeric order |
| Seqs.SortByPermutation | src/utils/memoryOrder.ts:15 | Sorting only reorders: each element occurs as often as before |
| Seqs.SortBySorted | src/utils/memoryOrder.ts:15 | With a total comparator, the sorted list is ordered |
| Seqs.FilterMembers | src/utils/dateFilter.ts:10 | `filter` keeps an element exactly when it is in the list and passes the test |

## Left out

- **I/O and the browser.** Not modelled:
  - the IndexedDB open, transaction and promise code;
  - `localStorage` access;
  - zustand's `persist` timing;
  - Blob downloads and the `<a>` click;
  - file reading and image compression (`compressImageToDataUrl`);
  - focus traps, animations, hover cards, fly-to and the emoji picker.
- **Storage faults are parameters.** Each operation is taken to finish before the next one starts. Interleaved asynchronous calls are not modelled.
- **`JSON.parse` and `JSON.stringify`.** Parsing is taken as given: `Parsed` is its value or its syntax error. A backup is the `Json` value export builds; key order and white space are not modelled.
- **Numbers are integers.** Coordinates, `order` and JSON numbers are `int`. Floating point and `Number`'s decimal, exponent and hex forms are not modelled: `NumberOf` reads an optional sign and decimal digits, and anything else as NaN. `placeKey` and the count of distinct places are left out: they round floating-point coordinates. `toFixed` in the exported page is left out.
- **Time and randomness are parameters.** This covers `new Date()`, `toISOString`, `crypto.randomUUID` and `generateId`. The comparator takes `timeOf` for `new Date(createdAt).getTime()`; NaN times are not modelled. The calendar cursor's starting month comes from the clock, and `daysInMonth` is a parameter of `BuildDays`.
- **Strings are ASCII.** `toLowerCase`, `trim` and `\s` are modelled on ASCII letters and white space; Unicode case folding and Unicode white space are not modelled.
- **`getMemoryImages`.** It is imported by the form and the viewer but defined in `src/utils/imageUtils.ts`, which is not part of this model. The form's initial photo list is a parameter.
- **`exportMemoryAsHtml`.** Only what safety depends on is modelled: the escaping, the link `href` and the file name. The rest of the page template is not.
- **CSV lines.** Import splits the text into lines before parsing rows, exactly as the code does. So a quoted cell that holds a line break, which export writes, is not reassembled. The model follows the code here and proves no whole-file CSV round trip.
- **CSV `get`.** It strips quotes and collapses `""` a second time, after `parseCsvRow` has already done so. This is modelled as written: `Csv.GetDropsLeadingQuote` shows a title losing its leading quote on the way through export and import.
- **Sorting.** `Array.prototype.sort` is modelled as a stable insertion sort, since the language requires sort to be stable. Only sortedness and permutation are proved for it.
- Stats.ByYearAscending: requires every year to be a number. A year is `parseInt` of the date's first four characters: the leading digits after optional white space and sign, so `99-01-01` counts under 99. It is NaN (`None`, one shared key, as `Map` keeps a single NaN key) only when no digit follows. The comparator compares `None` as equal to every year, as `a[0] - b[0]` does with NaN. That comparator is inconsistent, so the language leaves the order implementation-defined. The model's stable insertion sort is one possible outcome, and no order is promised when a year is NaN.
- **MapView.MarkersIff.** Markers are chosen by id. Several statements, such as `MapView.HiddenMemoryNotDrawn` and `MapView.HiddenGroupNotDrawn`, assume unique memory ids. Duplicate ids can reach the store: `setMemories` takes imported memories as they come, and both JSON import and CSV import keep the ids written in the file.
- **MemoryLabel.Label.** The index is a `nat`. The code is only ever called with list positions, so negative indices are not modelled.
- **Migration versus its description.** The code leaves the legacy copy in place when the primary store already has a state (`src/utils/idbStorage.ts:70`). It also returns the copied state even when removing the legacy copy fails. The model follows the code in both cases.
- **Sidebar view.** Collapsing a section only hides rows. The search dims rows without removing them. `MatchesSearch` is the rule; how rows render is not modelled.
