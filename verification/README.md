# freebsd_pkg_plugins in Dafny

A verified model of the deterministic core of the pkg(8) plugins in
julp/freebsd_pkg_plugins. The calls into the OS, ZFS and the package
manager are left out. The model covers three parts.

- **The rcorder re-implementation of the services plugin.**
  - `MagicComments`: the rc.d magic-comment parser.
  - `ServicesDb` and `ServicesGraph`: the services database. It holds the
    token handlers, the provide and keyword indexes, link resolution, the
    roots, the `keep_script` filter, the depth-first visit, and the
    package-to-services lookups.
  - `Rcorder`: the keyword options.
  - `ServicesSelection`: the selection table and its two-wave handler.
  - `ServicesResult`: the 2×4 result table.
- **The ZFS integration plugin.**
  - `Retention`: retention parsing, the exported `retention_keep`, and the
    three keep tests, which nothing in the code calls.
  - `Selections`: the sorted selection list.
  - `Snapshots`: the creation-date comparator, copy and destroy.
  - `ZfsIntegration`: backup-method choice, hook-name lookup, the rollback
    pick, and the skip rule of the hook handler.
- **The kissc and shared helpers.**
  - `DLists`: the doubly linked list.
  - `ParseNum`: the `strnto<T>` parsers, as one routine parameterised by
    signedness and width.
  - `Buffers`: `stpcpy_sp`.
  - `Joins`: `path_join`.
  - `Argv`: `argv_copy` and `argv_join`.

## How the model is built

- **Imperative code.** Structures the C code updates in place are classes.
  This covers the services database, the selection tables, the result
  table, the rcorder options, the DList and the selection list.
  - A DList or hashtable becomes a `seq` or `map` field, reassigned by the
    methods.
  - Each method is proved against a specification function of the old
    state (`Added`, `Record`, `ApplyAll`, `Parsed`, `Linked`, `RootsOf`,
    `KeepDecision`, and so on). The properties are proved as lemmas about
    those functions.
- **Scripts.** Scripts live in an arena indexed by id. The children and
  parents lists are sequences of ids, one per script.
  - `visit_script_bis` is a recursive method. It emits ids into a sequence,
    which stands for the callback.
  - Its contract states at-most-once emission, which scripts are emitted,
    pre- or post-order, and that in post-order on an acyclic graph children
    come before parents.
- **Integer widths.** C integer widths are written out where they matter:
  - the `int` narrowing of the snapshot comparator;
  - the `uint64_t` limit of retention;
  - the modulo-2^bits accumulator of `strnto<T>`;
  - `strtoll`'s clamping.

### Rules the model takes from the code

- **keep_script.** The keyword loop (plugins/services/services_db.c:273-278)
  stops at the first keyword mapped to SKIP, so SKIP always wins over KEEP.
  `KeepDecision` states this rule.
- **By-count retention.** `retention_by_count_keep` tests `*state <= limit`
  (plugins/zfs_integration/retention.c:35). The kind's own description at
  plugins/zfs_integration/retention.c:53 says "keep the N most recent
  snapshots". The model follows the test as written. See Findings.
- **Reachability of the keep tests.** The exported `retention_keep`
  (plugins/zfs_integration/retention.c:182-185) ignores its arguments and
  returns true, and the table pairing each kind with its test
  (plugins/zfs_integration/retention.c:48-56) is read nowhere. So none of
  the three keep tests is reached in the code as written. `RetentionKeep`
  models the entry point, and the tests are modelled as written beside it.
- **Letter digits.** `strnto<T>` values letters at `ch - 'A' - 10`
  (kissc/parsenum.c:83-86). This is modelled as written and is the
  `AsWritten` rule. See Findings.

## Model

| member | source | states |
|---|---|---|
| Common.ToUint64 | plugins/zfs_integration/retention.c:145-156 | the result is a uint64_t value, and a value already in range is unchanged (the conversion C applies when `limit` is stored) |
| Common.ToInt32 | plugins/zfs_integration/snapshot.c:18 | the narrowing to `int` yields an int32 value congruent to the input modulo 2^32, and in-range values are unchanged |
| Argv.Args | shared/argv.c:14-16 | the strings before the first NULL: fewer than the vector's slots, the slot at their count is NULL and each earlier slot holds the corresponding string |
| Argv.ArgvCopy | shared/argv.c:9-27 | the copy is a new array with one slot more than there are strings, holding the same strings in the same order and then the NULL terminator |
| Argv.ArgvJoin | shared/argv.c:39-60 | true exactly when the space-separated join fits; on success the buffer starts with the join and a NUL; no arguments means true and an untouched buffer; nothing at or past the end is written |
| Argv.SpaceSeparated | shared/argv.c:44-52 | for every argument list without spaces, the joined line holds exactly one space between each two consecutive arguments from the first non-empty one on, and no other: one space fewer than the arguments left once the leading empty ones are dropped |
| Buffers.Writes | kissc/stpcpy_sp.c:40-47 | what an accepted call writes ends before the limit |
| Buffers.StpcpySp | kissc/stpcpy_sp.c:33-50 | the result is NULL when `to` is NULL or fewer than two bytes remain (buffer untouched), `to - 1` for a NULL source, the index of the written NUL when the string fits and NULL otherwise; the buffer is the old one with exactly the written bytes spliced in at `to` |
| Buffers.CopyLoop | kissc/stpcpy_sp.c:40-43 | the loop stops just after the NUL when the string fits, otherwise at the limit with a non-NUL last byte, having copied the string's prefix of that length |
| Buffers.CopyFits | kissc/stpcpy_sp.c:41-49 | a string that fits is copied whole and followed by a NUL, and the result is the index of that NUL |
| Buffers.CopyTruncates | kissc/stpcpy_sp.c:41-47 | a string that does not fit fills the buffer up to the limit, the byte before the limit becomes a NUL, nothing from the limit on changes and the result is NULL |
| Buffers.WritesOnlyBetween | kissc/stpcpy_sp.c:37-47 | no call writes at or past the limit, nor before `to` |
| Buffers.NullSource | kissc/stpcpy_sp.c:40-49 | with a NULL source nothing is written and the result is `to - 1` |
| Buffers.CopyChains | kissc/stpcpy_sp.c:18-23 | a second copy from the returned NUL appends to the first string, and its result is the index of the new NUL |
| Joins.JoinedIsInterleave | shared/path_join.c:19-34 | what the loop writes equals the components, without the leading empty ones, with one separator between each two |
| Joins.LeadingEmptyAddsNothing | shared/path_join.c:22-28 | a leading empty component changes nothing in the output |
| Joins.NoNormalisation | shared/path_join.c:22-30 | "/" then "x" gives "//x", leading empty components are dropped, a trailing empty one leaves a trailing "/" |
| Joins.Put | shared/path_join.c:29-33 | one copy at the cursor moves it exactly as stpcpy_sp's result does |
| Joins.Run | shared/path_join.c:17-37 | when the whole loop succeeds, the cursor is the length of the joined output and lies before the end |
| Joins.FailureStops | shared/path_join.c:19-34 | once a copy fails, the whole join fails |
| Joins.RunFits | shared/path_join.c:17-37 | the join succeeds when its output plus two bytes fit, and succeeds only if its output and the NUL fit |
| Joins.CopyPart | shared/path_join.c:29-33 | one copy: the result agrees with Put, and on success the buffer holds the old prefix, the string and a NUL; nothing from the end on changes |
| Joins.CopyTurn | shared/path_join.c:20-33 | one turn: a separator only once the cursor has moved, then the component, and a NUL after them |
| Joins.SepJoin | shared/path_join.c:17-37 | true exactly when every copy fits; then the buffer starts with the joined output and a NUL; no components means an untouched buffer; nothing from the end on changes |
| Joins.PathJoin | shared/path_join.c:8-38 | path_join: SepJoin with "/" |
| DLists.AdjacentSortedIsSorted | kissc/dlist.c:342-369 | for a comparison that behaves as an ordering on the values held, having no neighbouring pair out of order means having no pair out of order |
| DLists.Position | kissc/dlist.c:311-326 | a signed position designates an element exactly when it is below the length (n >= 0) or its magnitude is below the length (n < 0), and the index designated is in range |
| DLists.StepKeeps | kissc/dlist.c:355-364 | one compare-and-swap step of a pass keeps the elements, the sorted tail, the partition at the tail and moves the maximum of the visited prefix one step on |
| DLists.DList.Init | kissc/dlist.c:20-27 | a new list is empty, its counter is 0 and it remembers whether it has a destructor |
| DLists.DList.Length | kissc/dlist.c:38-43 | the maintained counter equals the number of elements in the chain |
| DLists.DList.Empty | kissc/dlist.c:213-218 | true exactly when the chain has no element |
| DLists.DList.Append | kissc/dlist.c:69-88 | the element becomes the last one, the earlier ones keep their order, and the counter grows by one |
| DLists.DList.Clear | kissc/dlist.c:50-67 | the list ends up empty with counter 0, and the destructor is called once per element from head to tail (never without a destructor) |
| DLists.DList.FindFirst | kissc/dlist.c:90-104 | the index of the first element comparing equal to the key from the head, or none exactly when no element compares equal |
| DLists.DList.FindLast | kissc/dlist.c:106-120 | the index of the first element comparing equal to the key from the tail, or none exactly when no element compares equal |
| DLists.DList.RemoveHead | kissc/dlist.c:240-260 | a non-empty list loses its first element, which goes to the destructor, and the counter drops by one; an empty list is unchanged |
| DLists.DList.RemoveTail | kissc/dlist.c:289-309 | a non-empty list loses its last element, which goes to the destructor, and the counter drops by one; an empty list is unchanged |
| DLists.DList.RemoveLink | kissc/dlist.c:262-287 | the element is unlinked, the others keep their order, the counter drops by one and no destructor is called |
| DLists.DList.At | kissc/dlist.c:311-340 | an element is found exactly when the signed position designates one, and it is the element |n| steps from the head (n >= 0) or from the tail (n < 0), so -1 is the one before the tail |
| DLists.DList.Sort | kissc/dlist.c:342-369 | the elements are permuted, never lost or duplicated, and when the comparison behaves as an ordering on them the result is sorted |
| DLists.DList.BubblePass | kissc/dlist.c:353-366 | one pass keeps the elements, moves the region's maximum to its last place, and a pass without swaps leaves the region in order |
| Selections.SkipGreater | plugins/zfs_integration/selection.c:75-76 | the number of leading elements the new value compares above, and the element after them (if any) is one it does not compare above |
| Selections.InsertPos | plugins/zfs_integration/selection.c:65-83 | the position is where selection_add links the value: in front when the selection is empty or the value compares below the head, otherwise after the head and every following element it compares above |
| Selections.InsertAt | plugins/zfs_integration/selection.c:77-84 | the new sequence is one longer, holds the value at the position and the old elements around it in order, and its multiset is the old one plus the value |
| Selections.StaleLookup | plugins/zfs_integration/selection.c:124-151 | non-negative positions count from the head; negative ones walk back from the element the tail pointer designates; a walk past a head whose prev pointer was never set is undefined |
| Selections.InsertKeepsSorted | plugins/zfs_integration/selection.c:65-83 | for a comparison that behaves as an ordering, inserting where selection_add does keeps a sorted selection sorted |
| Selections.StaleTailCounterexample | plugins/zfs_integration/selection.c:65-83 | adding 1 then 2 (ascending) leaves the tail pointer on 1, so position -1 finds nothing, although the element before the last one is 1 |
| Selections.FixedTailLookup | plugins/zfs_integration/selection.c:124-137 | with the tail pointer on the last element, the walk finds exactly the element the signed position designates |
| Selections.Selection.New | plugins/zfs_integration/selection.c:19-34 | a new selection is empty, with its comparison, destructor flag and duplication callback |
| Selections.Selection.IsEmpty | plugins/zfs_integration/selection.c:36-41 | true exactly when the selection has no element |
| Selections.Selection.Length | plugins/zfs_integration/selection.c:43-48 | the maintained counter equals the number of elements |
| Selections.Selection.FindSlot | plugins/zfs_integration/selection.c:73-76 | the search loop stops at InsertPos |
| Selections.Selection.Add | plugins/zfs_integration/selection.c:50-88 | succeeds exactly when the duplication (if any) succeeds, and then the value is linked in at InsertPos (so the contents are the old ones plus the value and the length grows by one); on failure nothing changes; the tail pointer and the head's prev pointer move as the code moves them |
| Selections.Selection.AddFixed | plugins/zfs_integration/selection.c:50-88 | the same insertion, keeping the tail pointer on the last element and the head's prev pointer NULL |
| Selections.Selection.Apply | plugins/zfs_integration/selection.c:90-106 | the callback runs on the elements from the head and stops after the first rejection; the result is true exactly when every element is accepted (or there is no callback) |
| Selections.Selection.At | plugins/zfs_integration/selection.c:124-151 | the result is StaleLookup of the current state, and the intended signed-position lookup whenever the tail pointer is on the last element |
| Selections.Selection.Destroy | plugins/zfs_integration/selection.c:228-244 | the destructor is called once per element from head to tail, and never without a destructor |
| Snapshots.CompareByCreationDesc | plugins/zfs_integration/snapshot.c:8-19 | the result is an int; -1 whenever a is strictly newer; the difference b - a when b is newer by less than 2^31 seconds; 0 exactly when b is not older and the gap is a multiple of 2^32 |
| Snapshots.CompareZeroIffSameDate | plugins/zfs_integration/snapshot.c:18 | for dates less than 2^32 seconds apart, the comparison is 0 exactly on equal dates |
| Snapshots.CloseDatesConsistent | plugins/zfs_integration/snapshot.c:18 | over dates less than 2^31 seconds apart the comparison behaves as an ordering, and "not greater" means "not older" |
| Snapshots.WideGapMisorders | plugins/zfs_integration/snapshot.c:18 | with a gap of 2^31 seconds both orders compare "before", so the comparison stops being an ordering |
| Snapshots.SortedStartsNewest | plugins/zfs_integration/snapshot.c:8-19 | a list sorted by the comparison, over close dates, starts with its newest snapshot |
| Snapshots.NewestAfterSort | plugins/zfs_integration/plugin_zfs_integration.c:276-281 | after a sort that permutes the list (and orders it when the dates are close), element 0 is one of the original snapshots and, over close dates, the newest of them |
| Snapshots.Copy | plugins/zfs_integration/snapshot.c:31-39 | the copy has every field of the original, the fs handle included |
| Snapshots.Destroy | plugins/zfs_integration/snapshot.c:41-52 | the fs handle, if any, is closed and the field becomes NULL; the other fields (the record itself) stay |
| ZfsIntegration.AvailableMethods | plugins/zfs_integration/plugin_zfs_integration.c:19-25 | raw ZFS then none close the table, and the boot-environment method is present, first, exactly when built with it |
| ZfsIntegration.FirstDecisive | plugins/zfs_integration/plugin_zfs_integration.c:43-57 | the first method whose callback exists and answers BM_OK or BM_ERROR, every earlier one having none or answering BM_SKIP; none when there is no such method |
| ZfsIntegration.Examined | plugins/zfs_integration/plugin_zfs_integration.c:43-57 | the search looks at no more methods than there are |
| ZfsIntegration.ZintPlugin.constructor | plugins/zfs_integration/plugin_zfs_integration.c:27-31 | no method chosen yet, and the configured `force` |
| ZfsIntegration.ZintPlugin.FindBackupMethod | plugins/zfs_integration/plugin_zfs_integration.c:37-60 | EPKG_FATAL exactly when the first decisive answer is BM_ERROR, EPKG_OK otherwise (every method skipping included); `method` becomes the first BM_OK method and is otherwise left as it was; exactly the methods with a callback up to the decisive one are probed, so none after a BM_ERROR |
| ZfsIntegration.ZintPlugin.HandleHook | plugins/zfs_integration/plugin_zfs_integration.c:337-355 | no snapshot is attempted exactly when there is no job and no `force`, and then the status is EPKG_OK; otherwise the snapshot's outcome decides the status |
| ZfsIntegration.FirstDecisiveAt | plugins/zfs_integration/plugin_zfs_integration.c:43-57 | a decisive method preceded only by non-decisive ones is the one the search picks |
| ZfsIntegration.NoDecisive | plugins/zfs_integration/plugin_zfs_integration.c:43-57 | when no method is decisive the search picks none |
| ZfsIntegration.HookIndex | plugins/zfs_integration/plugin_zfs_integration.c:313-330 | -1 exactly when no entry is the name, otherwise the first index whose entry is the name |
| ZfsIntegration.NameToHook | plugins/zfs_integration/plugin_zfs_integration.c:313-335 | -1 for NULL, HookIndex otherwise, and hook_to_name of a found index gives the name back |
| ZfsIntegration.FirstIndexIsHookIndex | plugins/zfs_integration/plugin_zfs_integration.c:321-326 | the loop's first matching index is HookIndex |
| ZfsIntegration.HookRoundTrip | plugins/zfs_integration/plugin_zfs_integration.c:313-335 | in a table without repeated names, name_to_hook of hook_to_name(h) is h for every named hook h |
| ZfsIntegration.PickNewest | plugins/zfs_integration/plugin_zfs_integration.c:276-281 | the list is permuted in place; nothing is picked exactly when it is empty; the pick is one of its snapshots and, over close dates, the newest |
| ZfsIntegration.Rollback | plugins/zfs_integration/plugin_zfs_integration.c:226-304 | EX_USAGE for a bad option or operand, EPKG_FATAL when listing fails; otherwise EPKG_OK with one newest pick per list up to the first empty list, which reports "no identified previous version" |
| Rcorder.KeepCountUpdate | plugins/services/rcorder.c:55-62 | mapping a keyword to an action changes the number of KEEP keywords by what the keyword stops and starts being |
| Rcorder.KeepCountExamples | plugins/services/rcorder.c:56-62 | re-adding KEEP does not count twice; KEEP then SKIP on a new keyword gives the count back |
| Rcorder.RcorderOptions.constructor | plugins/services/rcorder.c:8-22 | keep_count 0, not reversed, no orphans, an empty keyword map |
| Rcorder.RcorderOptions.SetReverse | plugins/services/rcorder.c:32-37 | sets `reverse` and nothing else |
| Rcorder.RcorderOptions.SetIncludeOrphans | plugins/services/rcorder.c:39-44 | sets `include_orphans` and nothing else |
| Rcorder.RcorderOptions.AddKs | plugins/services/rcorder.c:46-65 | only KEEP or SKIP is accepted; the keyword is mapped to the action, overwriting; the previous action (NONE when there was none) is returned; keep_count stays the number of keywords mapped to KEEP |
| ServicesResult.EmptyTable | plugins/services/services_result.c:64-67 | the new table has two rows of four buckets |
| ServicesResult.EmptyBuckets | plugins/services/services_result.c:55-71 | all eight (action, status) buckets of a new table are empty |
| ServicesResult.Record | plugins/services/services_result.c:36-44 | NONE records nothing; otherwise the name is appended to exactly the bucket of (action, status) and every other bucket is unchanged |
| ServicesResult.ServicesResult.constructor | plugins/services/services_result.c:55-71 | services_result_create: the empty table |
| ServicesResult.ServicesResult.Add | plugins/services/services_result.c:36-44 | the table becomes Record of the old table |
| ServicesResult.ServicesResult.ToIterator | plugins/services/services_result.c:46-53 | only for STOP or RESTART; the names of the (action, status) bucket, in the order they were recorded |
| ServicesSelection.Added | plugins/services/services_selection.c:58-73 | the name joins the table; a new name gets exactly the given action and flags; a known one gets the flags OR-ed in and the action overwritten (last write wins); every other entry is unchanged |
| ServicesSelection.ContainsExactlyAdded | plugins/services/services_selection.c:75-95 | after any sequence of block, add_direct and add_rdep, a name is in the table exactly when it was there before or one of the operations named it |
| ServicesSelection.AllSnoc | plugins/services/services_selection.c:58-73 | one more operation updates the table and, for a new name only, appends it to the iteration order |
| ServicesSelection.AppliedPrefixStep | plugins/services/services_selection.c:58-73 | a loop that has applied a prefix of the operations and performs the next one has applied a prefix one longer |
| ServicesSelection.AllAppend | plugins/services/services_selection.c:58-73 | performing operations a and then b leaves the same table and iteration order as performing a + b |
| ServicesSelection.BlockingSticks | plugins/services/services_selection.c:70-77 | blocking a name resets its action to NONE and sets BLOCKED; once blocked, later additions keep it blocked |
| ServicesSelection.Launched | plugins/services/services_selection.c:172-181 | the entries that get probed are exactly the ones not blocked |
| ServicesSelection.Enabled | plugins/services/services_selection.c:105-115 | the second wave holds exactly the probed entries whose probe exited 0 |
| ServicesSelection.RecordBlocked | plugins/services/services_selection.c:172-176 | recording the blocked entries keeps the table's shape |
| ServicesSelection.RecordProbes | plugins/services/services_selection.c:117-125 | recording the hung probes keeps the table's shape |
| ServicesSelection.RecordActions | plugins/services/services_selection.c:127-145 | recording the second-wave outcomes keeps the table's shape |
| ServicesSelection.HandleResult | plugins/services/services_selection.c:147-215 | the result of handling is a well-formed two-by-four table |
| ServicesSelection.Probes | plugins/services/services_selection.c:163-181 | one "service NAME enabled" command per probed entry, in order |
| ServicesSelection.Actions | plugins/services/services_selection.c:190-198 | one command per second-wave entry, in order, with "stop" for STOP and "restart" otherwise |
| ServicesSelection.BlockedBuckets | plugins/services/services_selection.c:172-176 | the first loop appends the blocked entries' names, in order, to the BLOCKED bucket of their action and nowhere else |
| ServicesSelection.ProbeBuckets | plugins/services/services_selection.c:117-125 | the first wave's callbacks append the hung probes' names, in start order, to the PROBING_FAILED bucket of their action and nowhere else |
| ServicesSelection.ActionBuckets | plugins/services/services_selection.c:127-145 | the second wave's callbacks append each name, in the order of the list given, to SUCCESS on exit 0 and to FAILED on another exit or a hang, under its action |
| ServicesSelection.ActedNamesNone | plugins/services/services_selection.c:127-145 | the second wave never records BLOCKED or PROBING_FAILED |
| ServicesSelection.HandleBucket | plugins/services/services_selection.c:147-215 | each bucket after handling is what the three recording passes appended to it, in that order |
| ServicesSelection.HandleBuckets | plugins/services/services_selection.c:105-198 | BLOCKED holds the blocked entries, PROBING_FAILED the hung probes, SUCCESS and FAILED the second-wave outcomes of the entries whose probe exited 0; each under the entry's action and in table order, the processes being taken to report back in start order |
| ServicesSelection.ActedNamesMembers | plugins/services/services_selection.c:127-145 | a name in a second-wave bucket belongs to a second-wave entry with that action and outcome |
| ServicesSelection.HungNamesMembers | plugins/services/services_selection.c:117-125 | a name in PROBING_FAILED belongs to a probed entry with that action whose probe hung |
| ServicesSelection.BlockedNamesMembers | plugins/services/services_selection.c:172-176 | a name in BLOCKED belongs to a blocked entry with that action |
| ServicesSelection.CommandsOf | plugins/services/services_selection.c:172-198 | every command names an entry that is not blocked, and a second-wave command one whose probe exited 0 |
| ServicesSelection.BlockedNeverProbed | plugins/services/services_selection.c:172-176 | a blocked entry is never probed nor acted on |
| ServicesSelection.NonZeroProbeDropped | plugins/services/services_selection.c:105-115 | an entry whose probe exits non-zero is recorded in no bucket and gets no second-wave command |
| ServicesSelection.ServicesSelection.Listing | plugins/services/services_selection.c:171-172 | the entries in iteration order, one per name of the order |
| ServicesSelection.ServicesSelection.constructor | plugins/services/services_selection.c:45-56 | services_selection_create: an empty table |
| ServicesSelection.ServicesSelection.Add | plugins/services/services_selection.c:58-73 | the table becomes Added of the old one; a new name joins the end of the iteration order |
| ServicesSelection.ServicesSelection.Block | plugins/services/services_selection.c:75-78 | add(name, NONE, BLOCKED) |
| ServicesSelection.ServicesSelection.AddDirect | plugins/services/services_selection.c:80-83 | add(name, action, DIRECT) |
| ServicesSelection.ServicesSelection.AddRdep | plugins/services/services_selection.c:85-88 | add(name, action, no flag) |
| ServicesSelection.ServicesSelection.Contains | plugins/services/services_selection.c:90-95 | true exactly when the name is in the table |
| ServicesSelection.ServicesSelection.Handle | plugins/services/services_selection.c:147-215 | a new result table equal to HandleResult of the entries in iteration order, and the commands HandleCommands lists |
| ServicesSelection.FirstWave | plugins/services/services_selection.c:171-181 | the blocked entries are recorded and the others are probed, in table order |
| ServicesSelection.AwaitProbes | plugins/services/services_selection.c:105-125 | the probes that exited 0 form the second wave, the hung ones are recorded PROBING_FAILED |
| ServicesSelection.SecondWave | plugins/services/services_selection.c:190-198 | the second-wave commands, in order |
| ServicesSelection.AwaitActions | plugins/services/services_selection.c:127-145 | the second wave's outcomes are recorded |
| Retention.StrToLL | plugins/zfs_integration/retention.c:133-135 | strtoll in base 10 returns a 64-bit value and an end index inside the string; with no digit the end is the start, the value 0 and errno untouched |
| Retention.Clamp | plugins/zfs_integration/retention.c:134-138 | strtoll's result is in the 64-bit range, ERANGE is reported exactly for a value outside it, and an in-range value is returned as is |
| Retention.TrimSpaces | plugins/zfs_integration/retention.c:149-150 | after the skip the text does not start with a space |
| Retention.UnitSeconds | plugins/zfs_integration/retention.c:151-157 | a unit is found exactly when the word equals, ignoring case, one of the table's names, and then its length of time is that name's |
| Retention.FirstUnit | plugins/zfs_integration/retention.c:151-157 | the same for the table from a given index on |
| Retention.UnitTable | plugins/zfs_integration/retention.c:65-78 | every unit name starts with d, w, m or y, which settles 86400, 604800, 2592000 or 31536000 seconds |
| Retention.UnitsNamesDistinct | plugins/zfs_integration/retention.c:65-78 | two names a word matches have the same length of time |
| Retention.Parse | plugins/zfs_integration/retention.c:98-175 | retention_parse yields Classify of the value |
| Retention.ParseString | plugins/zfs_integration/retention.c:123-162 | the string branch yields ClassifyString |
| Retention.ParseAge | plugins/zfs_integration/retention.c:145-161 | after a positive number, the spaces are skipped and the unit lookup decides: by creation at now minus value units, or an error |
| Retention.FindUnit | plugins/zfs_integration/retention.c:151-157 | the loop over the unit table finds what UnitSeconds states |
| Retention.Spaces | plugins/zfs_integration/retention.c:149-150 | a run of k spaces |
| Retention.DigitRunOf | plugins/zfs_integration/retention.c:134 | the digit run of digits followed by a non-digit is the digits |
| Retention.StrToLLNumber | plugins/zfs_integration/retention.c:134-135 | strtoll reads an optional sign and the digits up to the first non-digit, clamping a value out of the 64-bit range with ERANGE |
| Retention.WholeNumberString | plugins/zfs_integration/retention.c:139-141 | a string that is all a number in range gives BY_COUNT with that limit when positive and DISABLED otherwise |
| Retention.NumberOutOfRange | plugins/zfs_integration/retention.c:135-138 | a number outside the 64-bit range is refused |
| Retention.NumberWithUnit | plugins/zfs_integration/retention.c:145-156 | a positive number, any number of spaces and a unit name in any case give BY_CREATION with limit now minus that many units (reduced modulo 2^64) |
| Retention.UnitWordStart | plugins/zfs_integration/retention.c:65-78 | a word naming a unit starts with a letter |
| Retention.UnsignedNumber | plugins/zfs_integration/retention.c:134 | strtoll on unsigned digits in range followed by a non-digit reads exactly the digits |
| Retention.DecimalNonNegative | plugins/zfs_integration/retention.c:134 | digits have a non-negative value |
| Retention.ClassifyAfterNumber | plugins/zfs_integration/retention.c:145-161 | once a positive number that is not the whole string has been read, the unit lookup on the rest after the spaces decides |
| Retention.TrimSpacesOf | plugins/zfs_integration/retention.c:149-150 | spaces then a word not starting with a space leave the word |
| Retention.NumberWithTrailingSpaces | plugins/zfs_integration/retention.c:158-161 | a positive number followed only by spaces names no unit and is refused |
| Retention.NoNumberRefused | plugins/zfs_integration/retention.c:142-144 | a non-empty string that does not start with a number, such as "abc", is refused as a value of 0 that is not positive |
| Retention.NonStringValues | plugins/zfs_integration/retention.c:112-122 | null, false and integers up to 0 are disabled and nothing else among the other kinds is; positive integers count; true and any other kind are refused |
| Retention.RetentionKeep | plugins/zfs_integration/retention.c:182-185 | the exported keep test keeps every snapshot, whatever the retention and the value |
| Retention.DisabledKeep | plugins/zfs_integration/retention.c:26-29 | every snapshot is kept |
| Retention.ByCreationKeep | plugins/zfs_integration/retention.c:43-46 | a snapshot is kept exactly when created at or after the limit |
| Retention.ByCountKeep | plugins/zfs_integration/retention.c:31-41 | kept exactly while the counter is at most the limit, and the counter grows by one exactly when kept |
| Retention.CountRun | plugins/zfs_integration/retention.c:31-41 | n successive calls give n answers |
| Retention.CountKeepsLimitPlusOne | plugins/zfs_integration/retention.c:31-41 | from a counter at most limit + 1, call k keeps exactly when counter + k is at most the limit, so from 0 the first limit + 1 snapshots are kept |
| Retention.CountLimitOneKeepsTwo | plugins/zfs_integration/retention.c:31-41 | a limit of 1 keeps two snapshots out of three |
| Retention.CountRunFixed | plugins/zfs_integration/retention.c:53 | n successive calls of the corrected test give n answers |
| Retention.CountFixedKeepsLimit | plugins/zfs_integration/retention.c:53 | the corrected test keeps call k exactly when counter + k is below the limit, so from 0 exactly the first limit snapshots |
| ParseNum.Half | kissc/parsenum.c:77 | twice the magnitude of the smallest signed value is the number of values of the type |
| ParseNum.Narrow | kissc/parsenum.c:99-118 | storing into the type yields a value within the type's range, and a value already in range is stored unchanged |
| ParseNum.Limit | kissc/parsenum.c:77-79 | the cutoff magnitude is below 2^bits: \|min\| for a negative signed number, max otherwise |
| ParseNum.DigitOf | kissc/parsenum.c:81-94 | a digit value is always below the base; a decimal digit is worth its value when that is below the base and is refused otherwise |
| ParseNum.ScanFrom | kissc/parsenum.c:80-103 | the digit loop ends between where it started and the end of the text |
| ParseNum.ReadPrefix | kissc/parsenum.c:53-73 | the digits start inside the text |
| ParseNum.StrnToNum | kissc/parsenum.c:33-130 | strnto<T> returns the error, the value stored in *ret and the endptr index that ParseSpec gives |
| ParseNum.SkipPrefix | kissc/parsenum.c:53-73 | the cursor moves past the sign, a 0b or 0x prefix, and picks the base as ReadPrefix does |
| ParseNum.ScanDigits | kissc/parsenum.c:80-103 | the while loop computes ScanFrom from the first digit |
| ParseNum.HornerGrows | kissc/parsenum.c:99-100 | reading more digits never makes the value smaller |
| ParseNum.CutoffTest | kissc/parsenum.c:77-95 | the overflow test on cutoff and cutlim holds exactly when acc * base + c exceeds the limit |
| ParseNum.ScanExact | kissc/parsenum.c:80-103 | over a run of digits the loop reaches the end with no error, holds the exact value while it stays within the limit, and has any = -1 once it goes beyond |
| ParseNum.StepExact | kissc/parsenum.c:95-101 | one step within the limit either overflows or gives acc * base + c exactly |
| ParseNum.ScanStops | kissc/parsenum.c:87-94 | the loop stops at the first non-digit with NON_DIGIT_FOUND, as if the text ended there |
| ParseNum.PrefixExplicit | kissc/parsenum.c:53-73 | with an explicit base and no prefix the digits start right after the sign |
| ParseNum.ParseDigits | kissc/parsenum.c:33-130 | a sign and digits: within the type's limit the value converted to the type is stored and checked against min and max with endptr at the end; beyond it the bound in the sign's direction is stored with TOO_SMALL or TOO_LARGE |
| ParseNum.DigitsAfterSign | kissc/parsenum.c:53-62 | the digits of sign followed by d start after the sign |
| ParseNum.FinishComplete | kissc/parsenum.c:105-127 | after a complete scan: the value and the bounds checks, or overflow |
| ParseNum.ParseInRange | kissc/parsenum.c:8-130 | a sign and digits whose value lies in the type and within min and max give NO_ERR, that value and endptr at the end |
| ParseNum.ParseStopsAtNonDigit | kissc/parsenum.c:17-127 | a non-digit after the digits stops the scan: the partial value is stored with NON_DIGIT_FOUND and no bounds check, unless the digits already overflowed |
| ParseNum.DigitsBeforeStop | kissc/parsenum.c:80-94 | the digits sit between the sign and the non-digit |
| ParseNum.FinishStopped | kissc/parsenum.c:105-127 | after a scan stopped by a non-digit: the partial value, or overflow |
| ParseNum.ParseAfterPrefix | kissc/parsenum.c:74-80 | with a valid base the outcome is the scan from the first digit with the cutoff of the sign's limit |
| ParseNum.ParseAfterSign | kissc/parsenum.c:53-80 | with a sign and no prefix the scan starts after the sign |
| ParseNum.ScanUpTo | kissc/parsenum.c:80-103 | digits up to a non-digit: the exact value within the limit, overflow beyond it, and the position of the non-digit |
| ParseNum.LeadingSpaceRefused | kissc/parsenum.c:80-90 | leading white space is not skipped: NON_DIGIT_FOUND, 0 stored, endptr at the start |
| ParseNum.AutoDetection | kissc/parsenum.c:63-73 | with base 0, after the sign, 0b/0B selects base 2 and 0x/0X base 16, both skipping the prefix; another leading 0 selects 8, anything else 10 |
| ParseNum.OctalZero | kissc/parsenum.c:15 | "0" with base auto-detection is an octal zero: NO_ERR, 0, endptr past it |
| ParseNum.NoDigitCases | kissc/parsenum.c:13-14 | "", "0x" and "0b" give NO_DIGIT_FOUND and *ret is not written |
| ParseNum.InvalidBaseRefused | kissc/parsenum.c:74-76 | a base other than 0 and outside 2..36 gives INVALID_BASE after the sign |
| ParseNum.AsWrittenLetters | kissc/parsenum.c:83-86 | as written an upper-case letter is worth its offset from 'A' minus 10, while the intended value is that offset plus 10 |
| ParseNum.HexLetterCounterexample | kissc/parsenum.c:83-100 | "1A" in base 16 parses to 6 as written and to 26 with the intended letter values |
| ParseNum.IntendedDigitsInRange | kissc/parsenum.c:83-86 | with the intended values every accepted digit is worth 0 to base - 1 |
| ParseNum.IntendedParse | kissc/parsenum.c:8-86 | with the intended values any sign and digits of the base within the type and the bounds give NO_ERR and their positional value |
| MagicComments.MatchFromMeaning | plugins/services/services_db.c:415-416 | a match is the first table prefix from index i on that starts the line, with the text after it; there is no match exactly when no prefix from i on starts the line |
| MagicComments.MagicTable | plugins/services/services_db.c:378-386 | every prefix starts with "# " |
| MagicComments.NeedsHashSpace | plugins/services/services_db.c:415-416 | a line that does not start with "# " is not a magic line |
| MagicComments.OwnPrefixMatches | plugins/services/services_db.c:380-416 | for every entry of the table and whatever follows its prefix, the line is matched by that entry with the rest after the prefix: tried in table order, "# REQUIRES:" is never read as "# REQUIRE:", nor any plural as its singular |
| MagicComments.FirstDelim | plugins/services/services_db.c:421 | the index of the first space, tab or newline, or the length when there is none |
| MagicComments.Strsep | plugins/services/services_db.c:421 | one strsep call leaves a shorter rest, or NULL |
| MagicComments.NonEmpty | plugins/services/services_db.c:422 | the kept fields are non-empty and come from the input |
| MagicComments.FieldsPlain | plugins/services/services_db.c:421 | every strsep field is free of delimiters |
| MagicComments.FieldsCover | plugins/services/services_db.c:421 | the fields concatenated give the text without its delimiters |
| MagicComments.TokensSplit | plugins/services/services_db.c:421-425 | the tokens handed on are non-empty, contain no space, tab or newline, and concatenated give the text without its delimiters |
| MagicComments.TokensStep | plugins/services/services_db.c:421-425 | one strsep turn hands on the first field unless it is empty, then the tokens of the rest |
| MagicComments.MatchMagic | plugins/services/services_db.c:415-427 | the loop over rc_d_magic_comments finds the first prefix, in table order, that starts the line |
| MagicComments.Tag | plugins/services/services_db.c:423 | every token of a line is handed to the handler of its prefix's kind, in order |
| MagicComments.FieldTurn | plugins/services/services_db.c:421-425 | a turn of the strsep loop extends the directives found so far by the current field's |
| MagicComments.ScanStep | plugins/services/services_db.c:409-430 | one turn of the line loop: a magic line hands on its tokens and sets PENDING; any other line keeps BEFORE or ends parsing |
| MagicComments.ScanTurn | plugins/services/services_db.c:409-430 | the same with the directives found so far |
| MagicComments.FirstMagic | plugins/services/services_db.c:408-414 | the index of the first magic line: none before it is one |
| MagicComments.MagicRun | plugins/services/services_db.c:412-419 | the number of consecutive magic lines at the start |
| MagicComments.ScanPending | plugins/services/services_db.c:412-419 | once PENDING, the loop hands on exactly the directives of the run of magic lines that follows |
| MagicComments.ScanBefore | plugins/services/services_db.c:408-414 | in state BEFORE the lines before the first magic line are skipped |
| MagicComments.MagicBlockParsed | plugins/services/services_db.c:388-430 | the directives parse_rc_d_script hands on are exactly those of the magic block: lines before the first magic line are skipped and the first non-magic line after it ends parsing |
| MagicComments.TokensOfAppend | plugins/services/services_db.c:326-372 | the tokens of one kind in two runs of directives are those of the first then those of the second |
| MagicComments.TokensOfTag | plugins/services/services_db.c:423 | a line's tokens all go to its own kind's handler, in order, and to no other |
| ServicesGraph.InsertUnique | plugins/services/services_db.c:106-111 | the list afterwards holds exactly the old elements and v, keeps its old elements as a prefix, and stays free of duplicates |
| ServicesGraph.AppendUnlinked | plugins/services/services_db.c:583-587 | a new script with empty children and parents lists keeps the graph shape |
| ServicesGraph.LinkAdds | plugins/services/services_db.c:165-169 | set_parenthood adds exactly the link from p to c, in both directions, each link stored once |
| ServicesGraph.ViaSnoc | plugins/services/services_db.c:238-247 | one more name: a script provides some name of the longer list exactly when it provides one of the shorter list or the new name |
| ServicesGraph.LinkedBelowSnoc | plugins/services/services_db.c:233-248 | the links from one more script's REQUIRE and BEFORE names are those of the script just added |
| ServicesGraph.RootsOf | plugins/services/services_db.c:250-257 | the roots are exactly the scripts without parents, in increasing id order |
| ServicesGraph.ReachRefl | plugins/services/services_db.c:281-305 | every script reaches itself |
| ServicesGraph.ReachFromChild | plugins/services/services_db.c:290-299 | whatever a child reaches its parent reaches |
| ServicesGraph.ClosedPath | plugins/services/services_db.c:290-299 | a path starting in a set that holds its members' children ends in it |
| ServicesGraph.ClosedHoldsReach | plugins/services/services_db.c:290-299 | a set that holds its members' children holds everything they reach |
| ServicesGraph.ReachedHasParent | plugins/services/services_db.c:165-169 | a script reached from another one has a parent |
| ServicesGraph.OnlyRootReachesRoot | plugins/services/services_db.c:250-257 | only a root reaches a root |
| ServicesGraph.Ids | plugins/services/services_db.c:317 | the set of all script ids below n |
| ServicesGraph.VisitEnter | plugins/services/services_db.c:285-289 | entering v marks it visited and in reverse mode emits a kept v at once |
| ServicesGraph.VisitChild | plugins/services/services_db.c:294-299 | after visiting a child the visit of v is still in order and the child is visited |
| ServicesGraph.VisitLeave | plugins/services/services_db.c:290-304 | once all children are visited v is done: in post-order a kept v is emitted last, and on an acyclic graph no script is emitted before one of its children |
| ServicesGraph.ChildrenFirstSnoc | plugins/services/services_db.c:302-304 | appending v after scripts none of which is its parent keeps children first |
| ServicesGraph.IterStart | plugins/services/services_db.c:317-318 | the root loop starts with nothing visited or emitted |
| ServicesGraph.IterStep | plugins/services/services_db.c:319-321 | the visit from one more root keeps the loop invariant |
| ServicesGraph.IterEnd | plugins/services/services_db.c:307-324 | after all roots each script is emitted at most once, exactly the kept ones some root reaches are, and on an acyclic graph in post-order no parent comes before a child |
| ServicesGraph.ReachedFromSnoc | plugins/services/services_db.c:319-321 | reached from one more root is reached from the earlier ones or from it |
| ServicesGraph.RootUnvisited | plugins/services/services_db.c:319-321 | a root is never reached from an earlier root, so each visit from a root starts afresh |
| ServicesGraph.Repeat | plugins/services/services_db.c:350 | n copies of a script id |
| ServicesGraph.IndexContents | plugins/services/services_db.c:336-369 | after the tokens are handled, a name is in the index exactly when it was or was a token, and its list is the old one followed by the script once per occurrence of the token |
| ServicesGraph.IndexSnoc | plugins/services/services_db.c:342-350 | one more token appends the script to that token's list |
| ServicesGraph.IndexContentsStep | plugins/services/services_db.c:342-350 | the inductive step of IndexContents |
| ServicesGraph.RepeatSnoc | plugins/services/services_db.c:350 | one more copy of the script id |
| ServicesGraph.IndexAppend | plugins/services/services_db.c:421-425 | indexing two runs of tokens is indexing one after the other |
| ServicesGraph.IndexKeepsBelow | plugins/services/services_db.c:336-372 | indexing an existing script keeps every list naming existing scripts |
| ServicesGraph.WithTokensNone | plugins/services/services_db.c:326-372 | handling no token leaves the script as it was |
| ServicesGraph.WithTokensOne | plugins/services/services_db.c:326-372 | one BEFORE, REQUIRE or KEYWORD token is appended to the script's list of that kind only; a PROVIDE token leaves the script unchanged |
| ServicesGraph.WithTokensAppend | plugins/services/services_db.c:409-430 | handling a then b records in the script what handling a followed by b records |
| ServicesGraph.ArenaTokensAppend | plugins/services/services_db.c:409-430 | the same for the arena entry of the script |
| ServicesGraph.IndexTokensAppend | plugins/services/services_db.c:409-430 | the same for an index |
| ServicesGraph.ParsedNone | plugins/services/services_db.c:409-430 | handling no token changes nothing |
| ServicesGraph.ParsedAppend | plugins/services/services_db.c:409-430 | handling a, then b from where a left off, is handling a followed by b |
| ServicesGraph.ShlibsFrom | plugins/services/services_db.c:534-551 | one turn of the shared-library loop |
| ServicesGraph.ShlibsContents | plugins/services/services_db.c:534-551 | each providing package gets the script in its rshlibs once, being created when missing; other packages are unchanged |
| ServicesGraph.AddScriptKeepsBelow | plugins/services/services_db.c:465-484 | appending an existing script to a package keeps every package list naming existing scripts |
| ServicesGraph.AssociatedContents | plugins/services/services_db.c:438-551 | after pkg_from_rc_d_script the script is last in its package's scripts and once in the rshlibs of each providing package; everything else is unchanged |
| ServicesGraph.ShlibsKeepBelow | plugins/services/services_db.c:534-551 | the shared-library loop keeps every package list naming existing scripts |
| ServicesGraph.SameNameKeepsRegistry | plugins/services/services_db.c:571-592 | replacing a script by one of the same name keeps names and ids one to one |
| ServicesGraph.RegisterKeepsRegistry | plugins/services/services_db.c:571-592 | a script under a new name joins the registry with the next id |
| ServicesGraph.MappedSnoc | plugins/services/services_db.c:273-275 | one more keyword: mapped to a in the longer list exactly when in the shorter list or that keyword is |
| ServicesGraph.MappedPrefix | plugins/services/services_db.c:273 | a keyword mapped in a prefix is mapped in the whole list |
| ServicesGraph.NoKeepWordsMeansOnlySkipDrops | plugins/services/services_db.c:278 | with no KEEP keyword configured a script is kept exactly when none of its keywords is mapped to SKIP |
| ServicesDb.InsertShlibs | plugins/services/services_db.c:534-551 | the shared-library loop yields Shlibs: the script once in the rshlibs of each providing package |
| ServicesDb.SetParenthood | plugins/services/services_db.c:165-169 | c joins p's children and p joins c's parents unless already there; exactly that link is added and the graph shape is kept |
| ServicesDb.AddRequireRelationship | plugins/services/services_db.c:189-205 | exactly the links from every provider of the name to c are added; an unprovided name adds none |
| ServicesDb.AddBeforeRelationship | plugins/services/services_db.c:171-187 | exactly the links from p to every provider of the name are added; an unprovided name adds none |
| ServicesDb.ResolveScript | plugins/services/services_db.c:238-247 | one script's REQUIRE names then BEFORE names add exactly the links they resolve to |
| ServicesDb.ResolveEdges | plugins/services/services_db.c:232-249 | the edge pass adds exactly the links Linked describes: p is a parent of c when c requires a name p provides or p is before a name c provides |
| ServicesDb.CollectRoots | plugins/services/services_db.c:250-258 | the roots pass collects exactly RootsOf, the scripts without parents |
| ServicesDb.KeepScript | plugins/services/services_db.c:265-279 | keep_script: a keyword mapped to SKIP drops the script, otherwise one mapped to KEEP keeps it, otherwise it is kept only when no KEEP is configured |
| ServicesDb.Visit | plugins/services/services_db.c:281-305 | visit_script_bis leaves v visited, everything newly visited reached from v, emission up to date, a kept v first (reverse) or last (post-order) of what it emitted, and children before parents in post-order on an acyclic graph |
| ServicesDb.VisitChildren | plugins/services/services_db.c:290-301 | every child of v ends visited, and the visit of v stays in order |
| ServicesDb.VisitRoots | plugins/services/services_db.c:317-323 | each script is emitted at most once, exactly the kept scripts some root reaches are emitted, and in post-order on an acyclic graph no script precedes one of its children |
| ServicesDb.NameOps | plugins/services/services_db.c:673-685 | one add per script of the list, in order, under the script's name, direct or as a reverse dependency |
| ServicesDb.NameOpsNamed | plugins/services/services_db.c:673-685 | the adds name exactly the names of the listed scripts |
| ServicesDb.NamedAppend | plugins/services/services_db.c:660-688 | a name is added by two runs of adds exactly when it is added by one of them |
| ServicesDb.PackageServicesSelected | plugins/services/services_db.c:660-688 | a package's services select exactly its own scripts' names and, only when rshlibs are included, its rshlibs' names; its own come first as direct adds; an unknown package changes nothing |
| ServicesDb.AddScriptAt | plugins/services/services_db.c:673-685 | one turn of the add loop extends the applied prefix by one |
| ServicesDb.AddScripts | plugins/services/services_db.c:672-686 | the add loop leaves the selection as ApplyAll and OrderAll of the adds |
| ServicesDb.ServicesDb.constructor | plugins/services/services_db.c:113-128 | services_db_create: an empty database |
| ServicesDb.ServicesDb.RegisterScript | plugins/services/services_db.c:571-592 | register_script: a new script without package, lists or links under the next id; nothing else changes |
| ServicesDb.ServicesDb.AssociatePackage | plugins/services/services_db.c:519-551 | the script is appended to its package's scripts and marked as owned, and goes once into the rshlibs of each providing package |
| ServicesDb.ServicesDb.AddRshlibs | plugins/services/services_db.c:534-551 | the shared-library loop on the database's packages |
| ServicesDb.ServicesDb.HandleBefore | plugins/services/services_db.c:326-329 | the name is appended to the script's befores; nothing else changes |
| ServicesDb.ServicesDb.HandleRequire | plugins/services/services_db.c:331-334 | the name is appended to the script's requires; nothing else changes |
| ServicesDb.ServicesDb.HandleProvide | plugins/services/services_db.c:336-352 | the script is appended to the name's provide list, created when missing; nothing else changes |
| ServicesDb.ServicesDb.HandleKeyword | plugins/services/services_db.c:354-372 | the script is appended to the keyword's list, created when missing, and the keyword to the script's keywords |
| ServicesDb.ServicesDb.HandleToken | plugins/services/services_db.c:378-423 | the handler of the token's kind records what Parsed states for one directive |
| ServicesDb.ServicesDb.HandleField | plugins/services/services_db.c:422-424 | a non-empty field goes to the handler; an empty one changes nothing |
| ServicesDb.ServicesDb.HandleLine | plugins/services/services_db.c:420-425 | the strsep loop over a magic line records every token of it |
| ServicesDb.ServicesDb.ParseLine | plugins/services/services_db.c:415-428 | a line is magic exactly when a prefix matches, and then its tokens are recorded; any other line changes nothing |
| ServicesDb.ServicesDb.ParseRcDScript | plugins/services/services_db.c:388-436 | parse_rc_d_script records exactly the directives of the script's magic block |
| ServicesDb.ServicesDb.ScanFile | plugins/services/services_db.c:627-638 | one regular file: registered under the next id, its package bookkeeping done when it has an owner, then its magic block recorded |
| ServicesDb.ServicesDb.BuildGraph | plugins/services/services_db.c:232-258 | the edge pass adds exactly the links Linked describes, then the scripts without parents are appended to the roots |
| ServicesDb.ServicesDb.RcorderIter | plugins/services/services_db.c:307-324 | services_db_rcorder_iter emits each script at most once, exactly the kept scripts reachable from a root, and in post-order on an acyclic graph no script before one of its children |
| ServicesDb.ServicesDb.PackageToServices | plugins/services/services_db.c:646-658 | the scripts the package owns, in order; none for an unknown package |
| ServicesDb.ServicesDb.Rshlib | plugins/services/services_db.c:690-699 | the scripts needing a shared library the package provides; none for an unknown package |
| ServicesDb.ServicesDb.AddServicesFromPackage | plugins/services/services_db.c:660-688 | the selection becomes ApplyAll and OrderAll of PackageOps: the package's scripts as direct adds, then, when asked, its rshlibs as reverse-dependency adds |

## Left out

- `scan_rc_d_directory`, `pkg_from_rc_d_script` and `fparseln`: directory, stat, package-database and file I/O. A script comes as a `ScriptFile`: its name, its owner and shared-library providers as the package database would report them, and its logical lines.
- The loop over the two rc.d directories in `services_db_scan_system` is not modelled, because it only repeats `ScanFile`. Its error returns come from the I/O above.
- `process_monitor.c`: fork/exec, kqueue, waitpid and timeouts. Each service's probe and action outcome (exit 0, another exit, or a hang) is an input of `ServicesSelection.ServicesSelection.Handle`.
- `ServicesSelection.AwaitProbes`: the second wave is the probes that exited 0, in start order. The code appends them to `enabled` in the order kevent reports their exits (plugins/services/process_monitor.c:221-256, plugins/services/services_selection.c:105-115). So the order of the second wave's starts and commands is not captured.
- `ServicesSelection.ProbeBuckets`: the hung probes are recorded in start order. The code records them while it walks the `pm->children` hashtable after the wait (plugins/services/process_monitor.c:259-262), which is taken here in insertion order. The other probes' completion order is not modelled.
- `ServicesSelection.AwaitActions`: the second wave's outcomes are recorded in the order of the list, not in the order the actions exit (plugins/services/process_monitor.c:221-256).
- `ServicesSelection.ActionBuckets`: SUCCESS and FAILED list names in the order of the list. The completion order that the code follows is not modelled.
- `ServicesSelection.HandleBucket`: each bucket is fixed in start order. The code's PROBING_FAILED, SUCCESS and FAILED buckets follow completion order.
- `ServicesSelection.HandleBuckets`: "in table order" holds for the model, where processes report back in start order. It does not hold in the code for PROBING_FAILED, SUCCESS and FAILED, whose names follow completion order.
- `ServicesSelection.ServicesSelection.Handle`: the results and the second wave's commands follow start order. The code's follow completion order, which the model does not capture.
- Process-start failures in `services_selection_handle` (plugins/services/services_selection.c:178-180, 195-197) are not modelled, because they come from process_monitor.
- `ServicesSelection.ServicesSelection.Handle`: the `assert` that the action is not NONE in the second wave (plugins/services/services_selection.c:192) is not made a precondition. A NONE action gets "restart", as the code's conditional gives.
- The ZFS and boot-environment layer (`zfs.c`, `be_method.c`, `raw_zfs_method.c`, `none_method.c`, `probe.c`): foreign library calls. Each method's `suitable` answer is an input of `FindBackupMethod`, and the snapshot lists are inputs of `Rollback`.
- Snapshot names, `strftime` and `time(NULL)`: the current time is a parameter of retention parsing.
- The SQLite and history plugins, `plugin_services.c`, `plugin_integrity.c`, `plugin_verbose.c`, `shared/os.c`, `shared/compat.c`, and hook registration are outside the core.
- hooks.h is not part of this model. The hook-name table is a parameter.
- hashtable.c is not part of this model. Hashtables are Dafny maps that iterate in insertion order, and a miss in `hashtable_get` leaves the output untouched.
- `kissc/iterator.c`: iteration is over Dafny sequences.
- Memory allocation failures are not modelled, because the code asserts them away or only reports them: `malloc`, `strdup` and `package_create`.
- `Snapshots.Copy`: does not model the allocation failure that returns NULL.
- The destroy and close functions of the services database (`script_destroy`, `package_destroy`, `services_db_close`, and so on) are not modelled: they free memory and change no modelled state.
- `ServicesDb.ServicesDb.RegisterScript`: requires the name not to be taken. This mirrors `assert(put)` at plugins/services/services_db.c:589.
- `ServicesDb.ServicesDb.RcorderIter`: requires the roots to be those of the current graph, as `services_db_scan_system` leaves them. A database scanned twice would hold each root twice.
- `ServicesDb.ResolveEdges`: states which links exist, not the order of each children list. So the order in which a visit meets children is left to the list order.
- `DLists.DList.Sort`: does not state stability for equal elements, only permutation and order.
- `DLists.DList.At`: the magnitude of a negative position is computed with unbounded integers, so the negation of INT_MIN is not modelled.
- `Selections.Selection.At`: the same holds for `c = n < 0 ? -n : n` in `resolve_position` (plugins/zfs_integration/selection.c:129). The negation of INT_MIN is not modelled.
- `Selections.Selection.Add`: the failure when there is no dup callback and `data` is NULL (plugins/zfs_integration/selection.c:60-64) is not modelled. The values of the model have no NULL.
- The broken DList operations `dlist_prepend`, `dlist_insert_before`, `dlist_insert_after`, `dlist_link_at`, `dlist_insert_at` and `dlist_remove_at` are not modelled. Their middle or linking branches corrupt the list, and nothing in the core calls them.
- `selection_slice`, `selection_filter` and `selection_internal_append_no_check` are not modelled. They build lists without head, length or next pointers, and the core does not use them.
- The debug code in `purge_snapshots` and `is_palindrome`, and the `debug()` messages, are not modelled.
- No floating point is involved.

## Findings

| source | as written | input that shows it | evidently intended | confidence | as-written member | corrected member |
|---|---|---|---|---|---|---|
| plugins/zfs_integration/selection.c:65-83 | `selection_add` sets `tail` only when the list is empty, and never sets a new head's `prev`. A later append leaves `tail` on an element that is no longer the last one. | Adding 1 then 2 with an ascending comparison gives [1, 2] with `tail` still on 1, so `selection_at(-1)` finds nothing instead of 1. | `tail` is always the last element, so a negative position counts back from it. | not executed | Selections.StaleTailCounterexample, Selections.Selection.Add | Selections.Selection.AddFixed, Selections.FixedTailLookup |
| plugins/zfs_integration/retention.c:31-41 | `retention_by_count_keep` keeps while `*state <= limit`, so from a counter of 0 it keeps limit + 1 snapshots. | A limit of 1 keeps the first two of three snapshots when the test is called. The defect is latent: nothing calls the test, since `retention_keep` (plugins/zfs_integration/retention.c:182-185) returns true and the kind table is read nowhere. | Keep the N most recent snapshots, as the kind's own description at plugins/zfs_integration/retention.c:53 says: the test is `*state < limit`. | not executed; latent, no caller in the code as written, and where the counter starts is not visible | Retention.CountLimitOneKeepsTwo, Retention.CountKeepsLimitPlusOne | Retention.CountFixedKeepsLimit |
| kissc/parsenum.c:83-86 | A letter digit is valued `ch - 'A' - 10` (and likewise for `'a'`), which is negative: 'A' is worth -10. | "1A" in base 16 parses to 6 with no error instead of 26. | The strtol convention `ch - 'A' + 10`, so that 'A' to 'Z' are worth 10 to 35. | not executed | ParseNum.AsWrittenLetters, ParseNum.HexLetterCounterexample | ParseNum.IntendedDigitsInRange, ParseNum.IntendedParse |
