# Dion runtime: a verified model

This project models six parts of the Dion extension runtime and proves what each is for.

- **The persistent cache** (`Cache*.dfy`): an in-memory index, an on-disk index and one file per entry,
  with a recency clock, expiry and two limits. `CacheInners.CacheInner` is the cache itself, as a class
  whose methods change the same fields and go through the same file operations as the original.
  `CacheLru` is a plain list, most recent first; over whole runs, restarts included, the two give the
  same answers. `CacheCrash` says what a crash between two file operations can leave behind,
  `CacheHistory` that a lookup answers the last write, `CacheRecovery` what it answers in runs that
  contain crashes, and `CacheInclusion` that a cache with one more entry never misses where the smaller
  one hits. `CacheLifetime` says in plain numbers how long an entry lives and what the limits leave.
- **One prompt per host** (`SingleFlight.dfy`, with `Permissions.dfy`): concurrent network checks as a
  step system, one program counter per task; every interleaving at the await points is a run.
- **The schema exporter** (`Schema*.dfy`): the depth-first sort of exported types, the cut of
  dependency cycles, the emitted expressions, and the theorem that the emitted module never reads a
  constant before it is defined, with the exact condition on a type under which this holds.
  `SchemaMeaning` says which types can be emitted and that the emitted validators accept the values
  of their types and no others; `SchemaOutcome` lifts this to whole exports.
- **Paths, grants and sizes** (`UnixPaths`, `PathNormalize`, `PathWalk`, `PathForms`, `StorageAccess`, `DirSize`):
  normalisation as a component stack, judged by where the path leads; prompts over whole histories of
  accesses; the worklist that adds up a directory tree.
- **Repository resolution** (`RepoResolve.dfy`): redirects over an arbitrary web, cycles included.
- **Job queue, byte ranges, chapters** (`JobModel`, `JobRuns` and `JobQueue`, `ByteRange` and
  `RangeHeader`, `Chapters`).

`Wrappers`, `Numbers`, `Text` and `UnixPaths` hold shared vocabulary. Where code and comment disagree the code is
followed: `PermissionStore::remove_permission` keeps the entries equal to its argument and forgets all
others, although its comment says the opposite (`Permissions.RemovalKeepsOnlyIt`).

Several properties are false in general. Each of these has its exact condition and a failing case:

- recency order after a clock set back: `CacheRefinement.MostRecentExactly`, and a whole run in
  `CacheStale.StaleClockEvictsNewer`;
- an all-or-nothing overwrite: `CacheCrash.TornExactly`, `CacheRecovery.OverwriteTears`;
- definition before use: `SchemaExport.SafeBodyIsExact`, `SchemaExport.InlineEnumIsUnsafe`;
- remembering a granted file access: `StorageAccess.GrantedIsRemembered`,
  `StorageAccess.BareNamePromptsAgain`;
- storage parts that add up: `DirSize.UsageIsConserved`, `DirSize.LinkedCacheSaturates`.

## Model

| member | source | states |
|---|---|---|
| CacheInners.CacheInner.Set | rust/dion_extension/src/cache.rs:149-182 | storing rejects a zero TTL and a bad key, else replaces the row and evicts what the limits call for; the trail grows by file operations that lead from the old disk to the new one, and each state on it shows for each key the old or the new entry, or for the key itself the old row over the new payload, with no row that lacks its file; how long the row lives is `CacheLifetime.LifetimeIsTtl` |
| CacheInners.CacheInner.Get | rust/dion_extension/src/cache.rs:186-223 | the value if live and its file is there, else nothing and the entry is removed; recency and clock change only on an updating hit; each disk state on the trail is the one before or the one after, key by key |
| CacheInners.CacheInner.Has | rust/dion_extension/src/cache.rs:226-238 | whether a live row exists, without touching recency; an expired one is removed |
| CacheInners.CacheInner.Delete | rust/dion_extension/src/cache.rs:240-250 | row and file go in two file operations, and as no state on the trail has a row without a file, the index goes first |
| CacheInners.CacheInner.Keys | rust/dion_extension/src/cache.rs:253-256 | exactly the unexpired keys, after expired entries were purged |
| CacheInners.CacheInner.Size | rust/dion_extension/src/cache.rs:259-262 | the number of unexpired entries |
| CacheInners.CacheInner.PurgeExpired | rust/dion_extension/src/cache.rs:281-294 | all expired rows and their files go and nothing else; each disk state on the trail is the one before or the one after, key by key |
| CacheInners.CacheInner.Clear | rust/dion_extension/src/cache.rs:264-278 | empty index, no files, same clock and policy; the directory is removed before the empty index is written |
| CacheInners.CacheInner.EnsureLoaded | rust/dion_extension/src/cache.rs:296-317 | loading the index on demand changes nothing that an operation can see |
| CacheInners.CacheInner.Unload | rust/dion_extension/src/cache.rs:56-70 | dropping the loaded index changes nothing that an operation can see |
| CacheInners.CacheInner.TakeTick | rust/dion_extension/src/cache.rs:349-366 | the tick is the wall clock pushed past the last tick, saturating at 64 bits |
| CacheInners.CacheInner.CollectEvictions | rust/dion_extension/src/cache.rs:370-416 | the two eviction loops together carry out one eviction in the sense of `CacheModel.Evicts`, and name the files of exactly the rows they removed |
| CacheInners.CacheInner.Publish | rust/dion_extension/src/cache.rs:418-427 | the file operations are the write of the index and then the deletion of the evicted files one by one |
| CacheInners.CacheManager.Open | rust/dion_extension/src/cache.rs:107-119 | a name opened before yields the same handle, index and files under the new policy; a new name a fresh handle on what is on disk; a bad name nothing |
| CacheEviction.EvictByEntries | rust/dion_extension/src/cache.rs:378-393 | evicts least recent rows, never the kept key, one at a time while the count is too high, and stops as soon as it fits |
| CacheEviction.EvictByBytes | rust/dion_extension/src/cache.rs:394-414 | goes on by recency while the bytes are too many; the running total is always the size of what is left, so the subtraction never underflows |
| CacheModel.NextTickFresh | rust/dion_extension/src/cache.rs:349-366 | a tick is newer than another exactly if the wall clock is past that one, or the handle's clock has reached it and is not saturated |
| CacheModel.ChainIsShortestByRecency | rust/dion_extension/src/cache.rs:368-416 | evicted keys are, each in turn, the least recent of those left, and before each of them some limit was still exceeded |
| CacheModel.EvictionIsUnique | rust/dion_extension/src/cache.rs:370-416 | with distinct ticks, what is evicted and what is left are determined by the index, the kept key and the policy |
| CacheCrash.TornExactly | rust/dion_extension/src/cache.rs:160-181 | a crash between entry file and index leaves neither the old nor the new entry exactly if the payload changes together with the expiry or the kind |
| CacheCrash.IndexWrittenThenFilesDeleted | rust/dion_extension/src/cache.rs:174-181 | once the index is written, every set of deleted evicted files is a safe crash point |
| CacheLru.EvictionIsTrim | rust/dion_extension/src/cache.rs:370-416 | evicting by index, ticks and sizes is dropping the tail of the recency list until the limits hold, the head excepted |
| CacheRefinement.SetRefines | rust/dion_extension/src/cache.rs:149-182 | storing is pushing to the front of the list and trimming its tail |
| CacheRefinement.TouchRefines | rust/dion_extension/src/cache.rs:212-221 | an updating hit moves the entry to the front |
| CacheRefinement.RunRefines | rust/dion_extension/src/cache.rs:149-317 | over any run with fresh ticks, with drops of the loaded index and restarts anywhere, every answer and the recency order are those of the reference list |
| CacheRefinement.FreshWithoutRestart | rust/dion_extension/src/cache.rs:346-366 | within one session ticks are always fresh while the clock is below its ceiling, whatever the wall clock does |
| CacheRefinement.FreshAcrossRestarts | rust/dion_extension/src/cache.rs:346-366 | across restarts ticks are fresh if the wall clock is past every row at the first tick of each session |
| CacheRefinement.MostRecentExactly | rust/dion_extension/src/cache.rs:166-176 | the entry just stored is the most recent exactly if its tick was fresh |
| CacheStale.StaleClockEvictsNewer | rust/dion_extension/src/cache.rs:349-392 | in a run of set, restart, set, set and get, with the clock set back at the restart, a newer entry is evicted before an older one and the last answer differs from that of the reference list |
| CacheHistory.EntriesAreLastWrites | rust/dion_extension/src/cache.rs:149-317 | every row holds the last value written under its key, and a missing one was deleted, or given up to expiry or to a limit that did not hold with it |
| CacheHistory.GetAnswersLastWrite | rust/dion_extension/src/cache.rs:186-223 | a lookup yields the last write exactly if that has not expired and was not given up since |
| CacheRecovery.TrailIsCovered | rust/dion_extension/src/cache.rs:149-298 | every disk state that an operation passes through is one that the runs with crashes allow to be left |
| CacheRecovery.EntriesSurviveCrashes | rust/dion_extension/src/cache.rs:149-317 | with crashes anywhere, every row holds the last write, or for an operation cut short the old, the new or the torn one, and rows are missing only for cause |
| CacheRecovery.GetAnswersPossibleWrite | rust/dion_extension/src/cache.rs:186-223 | in such runs a lookup yields an unexpired value that may be the last write, and nothing only when there may be none, or it expired or was given up |
| CacheRecovery.OverwriteTears | rust/dion_extension/src/cache.rs:160-179 | a set with another payload and expiry, cut short between its two files, leaves an entry that is neither |
| CacheInclusion.SmallerCacheIsIncluded | rust/dion_extension/src/cache.rs:370-392 | on the same operations without TTLs, the keys of a cache of m entries are among those of a cache of m + 1, which has at most one more, and every hit of the smaller is the same hit in the larger |
| CacheLifetime.LifetimeIsTtl | rust/dion_extension/src/cache.rs:162-171 | an entry lives for its own TTL, else for the default, else for good: `e` milliseconds after it was stored it is found exactly if `e` is 0 or `e + 1` whole milliseconds fit into that TTL |
| CacheLifetime.RejectsExactly | rust/dion_extension/src/cache.rs:473-478 | a call fails, and changes nothing, exactly for an explicit TTL of zero or a key that is empty or longer than 1024 bytes |
| CacheLifetime.LimitsHold | rust/dion_extension/src/cache.rs:370-416 | after a set the count is within its limit or 1, the bytes are within theirs or only the stored entry is left, and without an excess every row stays |
| CacheLifetime.LostFileIsForgotten | rust/dion_extension/src/cache.rs:198-206 | looking up a row whose file was lost finds nothing and forgets that row only |
| CacheLifetime.NoFileIsLeftBehind | rust/dion_extension/src/cache.rs:149-317 | in every run without crashes each entry file belongs to a row: whatever leaves the index, by delete, expiry, purge or eviction, leaves the disk |
| CacheLifetime.NamesStayBelow | rust/dion_extension/src/cache.rs:459-471 | an accepted cache name is one plain path component of at most 64 bytes |
| Permissions.AllowsTransitive | rust/core/src/data/permission.rs:27-56 | what a permission allows, a permission that allows it allows too |
| Permissions.AllowsReflexively | rust/core/src/data/permission.rs:36-40 | a permission allows itself, unless it is storage below the empty path, which allows nothing |
| Permissions.MutualCoverIsEquivalence | rust/core/src/data/permission.rs:27-56 | permissions that allow each other are interchangeable |
| Permissions.NetworkByDomain | rust/core/src/data/permission.rs:45-53 | a network grant covers exactly the requests all of whose domains it lists; only the grant for any domain covers a request for any domain |
| Permissions.KindsStayApart | rust/core/src/data/permission.rs:27-56 | no permission covers one of another kind, except that the one for any domain covers network requests |
| Permissions.PermissionStore.Grant | rust/core/src/store/permission.rs:68-72 | adds the permission unless it is covered, and covers it afterwards unless it is the empty path |
| Permissions.PermissionStore.RequestPermission | rust/core/src/store/permission.rs:49-63 | prompts exactly when not covered, and stores exactly a positive answer |
| Permissions.PermissionStore.RemovePermission | rust/core/src/store/permission.rs:75-80 | keeps the entries equal to the argument |
| Permissions.RemovalKeepsOnlyIt | rust/core/src/store/permission.rs:75-80 | afterwards a request is covered exactly if the argument was stored and allows it |
| Permissions.GrantingSpec | rust/core/src/store/permission.rs:45-72 | a grant covers what was covered and what it allows, and never makes the store redundant |
| Permissions.GrantsCompose | rust/core/src/store/permission.rs:45-72 | after any sequence of grants exactly what one of them allows is covered, and no stored grant is covered by an earlier one |
| Permissions.OnlyEmptyPathsRepeat | rust/core/src/store/permission.rs:68-72 | where no entry is covered by an earlier one, only storage below the empty path can be stored twice |
| SingleFlight.NetworkPermissionCache.Enter | rust/dion_extension/src/extension/container.rs:78-108 | from lock to unlock: allowed if covered, else refused if denied, else joins the open prompt, else leads a new one |
| SingleFlight.NetworkPermissionCache.Finish | rust/dion_extension/src/extension/container.rs:141-148 | closes the prompt and records or clears the denial |
| SingleFlight.NetworkPermissionCache.CleanUp | rust/dion_extension/src/extension/container.rs:119-124 | closes a failed prompt and records nothing |
| SingleFlight.InvHolds | rust/dion_extension/src/extension/container.rs:65-151 | in every interleaving: the mutex is held exactly by the task in a critical section, `inflight` is exactly the leading tasks' `Notify` objects, ids are unique, every sleeper will be woken, denials are exactly the settled refusals |
| SingleFlight.SingleFlightPerHost | rust/dion_extension/src/extension/container.rs:78-148 | a host is in `inflight` exactly while one task, and only one, leads for it, and no task holds the mutex while it prompts or waits |
| SingleFlight.NoLostWakeup | rust/dion_extension/src/extension/container.rs:92-105 | a sleeping task waits on a `Notify` that some task for the same host has yet to fire |
| SingleFlight.DeniedOnce | rust/dion_extension/src/extension/container.rs:89-91 | at most one refused prompt per host, no host both denied and in flight, and clearing a denial after a grant never changes anything |
| SingleFlight.DenialIsPermanent | rust/dion_extension/src/extension/container.rs:141-148 | a recorded denial stays for the session |
| SingleFlight.GrantWinsOverDenial | rust/dion_extension/src/extension/container.rs:69-91 | a decision, at the start or under the mutex, says yes exactly if the store covers the host at that moment, denied or not |
| SingleFlight.NoOnlyIfUncovered | rust/dion_extension/src/extension/container.rs:78-105 | over runs: a call that returns no, or fails, looked at the store during the call at a moment when it did not cover the host |
| SingleFlight.FailureLeavesHostAskable | rust/dion_extension/src/extension/container.rs:117-127 | after a failed prompt, the next decision about the host that is not covered prompts again |
| SingleFlight.YesOnlyIfCovered | rust/dion_extension/src/extension/container.rs:65-151 | yes is only returned after the store covered the host; what the call that prompted returns is `PromptDecidesAnswer` |
| SingleFlight.PromptDecidesAnswer | rust/dion_extension/src/extension/container.rs:110-150 | over runs: the call that prompted returns yes if the user agreed, no if he refused, and an error if the prompt failed |
| SingleFlight.DecisionExactly | rust/dion_extension/src/extension/container.rs:78-107 | under the mutex: covered returns yes, else denied returns no, else an open prompt is waited for, else the user is asked |
| SingleFlight.LooksExactly | rust/dion_extension/src/extension/container.rs:69-105 | the first look returns yes exactly if the store covers the host, and a woken waiter answers what the store says then |
| SingleFlight.CoveredExactly | rust/core/src/data/permission.rs:45-53 | a host is covered exactly if the store has the grant for any domain or one that lists it |
| SingleFlight.GrantIsForHost | rust/dion_extension/src/extension/container.rs:129-133 | the recorded grant covers that host and no other |
| SingleFlight.WaitersShareTheGrant | rust/dion_extension/src/extension/container.rs:92-105 | whoever waited on a granted prompt is told yes unless the grant is taken away |
| SingleFlight.RunsAreBounded | rust/dion_extension/src/extension/container.rs:65-151 | n calls take at most 9n steps together, however they interleave |
| SingleFlight.EnabledSteps | rust/dion_extension/src/extension/container.rs:65-151 | a task can move exactly if it is not finished, not asleep, and does not need a held mutex |
| SingleFlight.SomeoneCanMove | rust/dion_extension/src/extension/container.rs:65-151 | no deadlock: until every call has returned some task can move |
| SchemaTypes.CollectTypeDeps | rust/specta_valibot/src/export.rs:363-392 | the walk inserts into the shared set exactly the names of `TypeDeps`, which passes over inline enums and the bodies of inlined types |
| SchemaTypes.CollectDeps | rust/specta_valibot/src/export.rs:320-361 | the dependencies of an exported type are those of all its fields or variants |
| SchemaDeps.ItemDepsExactly | rust/specta_valibot/src/export.rs:320-392 | the dependencies of a body are exactly the names of the references and of the inlined types that occur in it outside inline enums and inlined bodies |
| SchemaDeps.MutualMentionIsCut | rust/specta_valibot/src/export.rs:283-318 | of two exported types that inline or refer to each other one is recursive |
| SchemaMeaning.EmitItemMeans | rust/specta_valibot/src/lib.rs:99-401 | a body is emitted exactly if it has no forbidden big number and no tagged nonempty object without a name, else the first such trouble in the order of emission is the error; the emitted expression accepts exactly the values of the type, for any big-number setting, any recursive names and any reading of the names |
| SchemaMeaning.DecidedByTag | rust/specta_valibot/src/lib.rs:360-384 | several tagged variants become a choice by tag exactly if each of them is an object with an entry for the tag, else a union |
| SchemaOutcome.EmitsExactly | rust/specta_valibot/src/lib.rs:104-114 | whether a body is emitted, by what occurs in it |
| SchemaOutcome.ExportOutcome | rust/specta_valibot/src/export.rs:211-240 | the export succeeds exactly if every exported body can be emitted, and else reports the first trouble of the first such body in sorted order |
| SchemaOutcome.ModuleMeansTypes | rust/specta_valibot/src/export.rs:211-240 | the module has one definition for each exported type in sorted order, and a reading of the names satisfies the definitions exactly if it satisfies the types |
| SchemaReads.EmitAntitone | rust/specta_valibot/src/lib.rs:99-190 | whether a type can be emitted, and the error if not, does not depend on the recursive names; more of them never add a read |
| SchemaReads.ObjectReads | rust/specta_valibot/src/lib.rs:207-263 | an object reads what its flattened and other fields read, whichever form they are combined in; a tag without a name fails, and only on a nonempty object |
| SchemaReads.VariantContent | rust/specta_valibot/src/lib.rs:288-358 | under every representation a variant reads what its content reads |
| SchemaReads.EnumReads | rust/specta_valibot/src/lib.rs:265-403 | an enum reads what its alternatives read, and a picklist or an empty enum nothing |
| SchemaReads.EmitItemReads | rust/specta_valibot/src/lib.rs:99-403 | an emitted body reads exactly the names that occur in it outside of references to recursive names: nothing is lost, and only those references and their arguments are deferred |
| SchemaReads.PlainItemReads | rust/specta_valibot/src/lib.rs:163-187 | a type without inline enums, inlined types and generic parameters reads only dependencies that are not recursive |
| SchemaSort.Sorter.TopoVisit | rust/specta_valibot/src/export.rs:283-318 | the visit that updates the four collections in place ends in the state of the recursive specification, whatever the order of the dependencies |
| SchemaSort.Visit | rust/specta_valibot/src/export.rs:283-318 | a visit terminates, leaves `visiting` as it was, only adds to the others, and the name ends up visited or, if it was being visited, recursive |
| SchemaSort.SortOrders | rust/specta_valibot/src/export.rs:152-167 | every exported name is listed once, after all its dependencies that are not recursive |
| SchemaSort.CutIsExact | rust/specta_valibot/src/export.rs:292-317 | every recursive name lies on a cycle, and every cycle has an edge into a recursive name |
| SchemaSort.RecursiveIffCyclic | rust/specta_valibot/src/export.rs:292-317 | some name is recursive exactly if the types have a dependency cycle |
| SchemaSort.SortCutsBelow | rust/specta_valibot/src/export.rs:158-167 | with the roots in name order, a dependency that is not sorted before its user was cut below an earlier name, from which the walk had started |
| SchemaExport.Run | rust/specta_valibot/src/export.rs:152-240 | sort and emit loops together produce the specified module or the first error; which of the two, and what the module means, is `SchemaOutcome` |
| SchemaExport.PlainIsSafe | rust/specta_valibot/src/lib.rs:163-187 | bodies of references without inline enums, inlined types and generic parameters are safe |
| SchemaExport.ModuleLoads | rust/specta_valibot/src/export.rs:152-240 | for any graph of safe types, with the roots in name order and any order of dependencies, the module reads no exported constant before its definition |
| SchemaExport.SafeBodyIsExact | rust/specta_valibot/src/export.rs:363-392 | a condition on the type alone, which of its names stay bare under which cuts, holds exactly if no exported types around it, all others safe and sorted as the exporter sorts them, make the module fail |
| SchemaExport.InlineEnumIsUnsafe | rust/specta_valibot/src/export.rs:363-392 | a reference inside an inline enum makes a body unsafe, and some exported types make the module fail because of it |
| PathNormalize.TakeComponent | rust/dion_extension/src/filesystem.rs:100-117 | the next maximal run of characters that are not separators, and the rest |
| PathNormalize.NormalizePath | rust/dion_extension/src/filesystem.rs:32-98 | the scan with prefix, cursor and component stack computes the specified normal form, incomplete shares included |
| PathWalk.NormalizeKeepsMeaning | rust/dion_extension/src/filesystem.rs:27-98 | the output splits into the same root and into components without `.`, with `..` only in front and never below a root, that lead where the input does, from every base if relative |
| PathWalk.NormalFormsAreUnique | rust/dion_extension/src/filesystem.rs:69-82 | two lists of components normalise alike exactly if they lead to the same place from everywhere |
| PathWalk.NormalizeIsCanonical | rust/dion_extension/src/filesystem.rs:32-98 | with the same root, two inputs have the same output text exactly if they lead to the same place |
| PathWalk.UnderMeansBelow | rust/dion_extension/src/filesystem.rs:149-151 | a normalised rooted path is under another exactly if walking it ends at or below where walking the other ends |
| PathWalk.JoinPaths | rust/dion_extension/src/filesystem.rs:259-272 | the joined and normalised parts, or nothing when all are blank |
| PathWalk.JoinFollowsParts | rust/dion_extension/src/filesystem.rs:259-272 | joining leads where following the parts in turn does, a rooted part starting over |
| PathForms.StripExactly | rust/dion_extension/src/filesystem.rs:119-130 | an extended share keeps its two backslashes, the other two extended prefixes go, other text stays |
| PathForms.DriveForm | rust/dion_extension/src/filesystem.rs:43-48 | a drive path becomes the capital letter, a colon and the names where the rest leads from the root |
| PathForms.ShareForm | rust/dion_extension/src/filesystem.rs:49-61 | a share path becomes server, share and the names where the rest leads; without a share the text stays as it is |
| PathForms.RootedForm | rust/dion_extension/src/filesystem.rs:62-97 | a rooted path becomes the names where it leads after slashes, or a slash |
| PathForms.RelativeForm | rust/dion_extension/src/filesystem.rs:66-97 | a relative path becomes its tidy components with slashes between them, or a dot |
| PathForms.BlankForm | rust/dion_extension/src/filesystem.rs:33-36 | the output is empty exactly if the input is blank |
| PathForms.NothingToJoin | rust/dion_extension/src/filesystem.rs:259-272 | joining has nothing to normalise exactly if all parts are blank |
| StorageAccess.EnsureAccess | rust/dion_extension/src/filesystem.rs:192-255 | rejects content URIs and empty paths, lets the data directory and covered requests pass, else prompts and stores exactly a positive answer; where it is judged is `LinksAreFollowed`, and how `AnswerExactly` |
| StorageAccess.PrepareExactly | rust/dion_extension/src/filesystem.rs:170-183 | a raw path is rejected exactly if it is a content URI, blank, or relative and leads nowhere; else it is its normal form |
| StorageAccess.LinksAreFollowed | rust/dion_extension/src/filesystem.rs:157-167 | a path is judged where it really leads if it exists, else below where its directory leads, else as written |
| StorageAccess.RootExactly | rust/dion_extension/src/filesystem.rs:206-213 | a directory access asks for the directory, a file access for the one around it if there is one |
| StorageAccess.AnswerExactly | rust/dion_extension/src/filesystem.rs:199-255 | an access passes unasked exactly if its target is in the data directory or a stored grant is at or above its root; else the reply decides, and only a yes is stored |
| StorageAccess.LinkCannotEscape | rust/dion_extension/src/filesystem.rs:192-255 | an access through a link to a place with no grant is never let through unasked, wherever the link is |
| StorageAccess.GrantCoversTree | rust/core/src/data/permission.rs:36-44 | a storage grant covers exactly the paths at and below a nonempty root, at the same level or for writing |
| StorageAccess.DotsCannotEscape | rust/dion_extension/src/filesystem.rs:13-14 | a rooted path without links is covered by a granted tree exactly if walking it, `..` included, ends below where walking the granted path ends |
| StorageAccess.PromptsExactly | rust/dion_extension/src/filesystem.rs:192-255 | after any history an access prompts exactly if it leaves the data directory and no granted prompt had a nonempty root above its own, at its level or for writing |
| StorageAccess.HistoryIrredundant | rust/dion_extension/src/filesystem.rs:219-249 | no history of accesses stores a permission that an earlier one covers, and only grants for the empty root are stored again |
| StorageAccess.GrantedIsRemembered | rust/dion_extension/src/filesystem.rs:206-217 | a granted access prompts again exactly if its root is empty, which is a file under a bare relative name |
| StorageAccess.BareNamePromptsAgain | rust/dion_extension/src/filesystem.rs:206-217 | writing a new file by its bare name, from the raw text on, prompts, is granted, and prompts again |
| StorageAccess.NewFilePromptsAgain | rust/dion_extension/src/filesystem.rs:206-217 | `new.txt` is such a name |
| DirSize.Measure | rust/dion_extension/src/filesystem.rs:276-295 | the worklist adds up the recursive sum of file sizes, links not followed inside the tree |
| DirSize.StorageUsage | rust/dion_extension/src/extension/container.rs:574-589 | cache is what the two cache directories measure, data the rest of the total, saturating |
| DirSize.TotalSplits | rust/dion_extension/src/extension/container.rs:574-589 | the total is the two caches and everything beside them, each byte once |
| DirSize.UsageIsConserved | rust/dion_extension/src/extension/container.rs:574-589 | the parts add up to the total exactly if the caches hold no more behind links than lies beside them; without links data is exactly what lies beside them, and nothing exactly if the caches hold as much as the total |
| DirSize.LinkedCacheSaturates | rust/dion_extension/src/extension/container.rs:587-588 | a linked cache directory makes the subtraction saturate |
| RepoResolve.GoodFetch | rust/mihon/src/repo.rs:279-348 | one level yields what its `index_v2` link yields, or its own store when that is absent or fails, and asks for the sibling `repo.json` only for a plain array |
| RepoResolve.NodeExactly | rust/mihon/src/repo.rs:298-376 | the first character selects the decoder; an array takes its metadata from `repo.json` beside it, an object is metadata or else a store, anything else a binary store; each field of the resulting store and the link, unless empty, is the one decoded |
| RepoResolve.BaseExactly | rust/mihon/src/repo.rs:77-82 | the base of a URL is what stands before its last slash |
| RepoResolve.SucceedsExactly | rust/mihon/src/repo.rs:279-348 | resolution succeeds exactly if the depth is below the limit and the URL itself serves a payload that parses |
| RepoResolve.ResolvesToLast | rust/mihon/src/repo.rs:279-348 | the result is the store of the last good node on the chain of links within ten levels |
| RepoResolve.ChainGood | rust/mihon/src/repo.rs:318-329 | that chain is made of good nodes joined by links and cannot be extended within the limit |
| RepoResolve.ChainIsUnique | rust/mihon/src/repo.rs:318-329 | it is the only such chain, on any web |
| RepoResolve.RequestsAlongChain | rust/mihon/src/repo.rs:279-348 | the requests are exactly those of the nodes on the chain, in order, and one for the bad link at its end |
| RepoResolve.RequestsAreBounded | rust/mihon/src/repo.rs:51-52 | at most twenty requests on any web |
| RepoResolve.SelfLinkIsHarmless | rust/mihon/src/repo.rs:318-329 | a link back to the same node leaves the result as it is |
| RepoResolve.ListIsBesideStore | rust/mihon/src/repo.rs:378-388 | the extension list is looked for in the store's own directory, whether the store came from the index or from `repo.json` |
| JobQueue.Queue.EnqueueJob | rust/dion_extension/src/utils.rs:258-268 | a job joins the end of the queue of its kind |
| JobQueue.Queue.DrainJobs | rust/dion_extension/src/utils.rs:244-254 | runs what is queued, in order, and appends to the queues what those jobs enqueue, in order |
| JobQueue.Queue.CallAsyncJobs | rust/dion_extension/src/utils.rs:297-299 | calls what is queued, in order, and adds their futures to the group |
| JobQueue.Queue.RunJobsAsync | rust/dion_extension/src/utils.rs:290-317 | the logs only grow; jobs leave their queue in the order of enqueueing, once each; what was enqueued meanwhile is, as a multiset, exactly what the jobs run and called and the steps polled enqueue; done means both queues and the group are empty, everything enqueued has run and each future was polled to its end; and it is done after as many busy rounds as there is work |
| JobRuns.RoundsInOrder | rust/dion_extension/src/utils.rs:296-316 | every round keeps the order of the queues, and the loop is done only when nothing is left |
| JobRuns.RoundsBalanced | rust/dion_extension/src/utils.rs:296-316 | no round loses or makes up a job or a poll |
| JobRuns.RunsInOrder | rust/dion_extension/src/utils.rs:290-317 | order, accounts and progress of whole runs, for every start and every schedule |
| JobRuns.RoundsOneByOne | rust/dion_extension/src/utils.rs:244-254 | without asynchronous jobs, the loop has run the same jobs in the same order as an executor that takes one at a time from one queue |
| JobRuns.RoundLoad | rust/dion_extension/src/utils.rs:297-315 | a round in which a future is ready does some of the remaining work |
| ByteRange.RangesFit | rust/dion_extension/src/range_file.rs:35-101 | a satisfiable result lies inside the file and is not empty |
| RangeHeader.PrintedRangeIsAnswered | rust/dion_extension/src/range_file.rs:49-101 | each of the three forms selects exactly the positions it asks for, unsatisfiable exactly if there are none, ignored exactly if reversed or beyond 64 bits; later ranges are not looked at |
| RangeHeader.RangeRoundTrip | rust/dion_extension/src/range_file.rs:82-96 | a printed range inside the file parses back to itself |
| ByteRange.BodyIsTheRange | rust/dion_extension/src/range_file.rs:210-241 | bodies are as long as announced; a partial one is the bytes at the positions of its range, an unsatisfiable range gets none, and where the header is ignored the whole file is sent |
| RangeHeader.ParseRangeExactly | rust/dion_extension/src/range_file.rs:49-101 | a header is a request for the positions of a range exactly if it spells one in 64 bits that does not end before it starts, with blanks around the whole, after the unit and around both numbers, and anything after a comma; every request is answered by its positions, and everything else is ignored |
| RangeHeader.ServeExactly | rust/dion_extension/src/range_file.rs:201-241 | without a request the whole file with status 200; with one exactly the positions it asks for with status 206 and their numbers, or status 416 and the length if there are none; HEAD is answered with the length and no body |
| RangeHeader.PrintedIsServed | rust/dion_extension/src/range_file.rs:201-241 | the same for printed ranges; no header, another unit and an invalid printed range get the whole file |
| RangeHeader.PrintedRequests | rust/dion_extension/src/range_file.rs:49-58 | every valid printed range is a request for its positions, whatever follows after a comma |
| RangeHeader.ContentRangeReads | rust/dion_extension/src/range_file.rs:227-230 | the announced start, end and length read back as numbers |
| Text.ParseU64Exactly | rust/dion_extension/src/range_file.rs:64-83 | exactly the numerals below two to the 64 are read: a plus sign or none, any zeros, and the number as it is printed |
| RangeHeader.PiecesMakeTheFile | rust/dion_extension/src/range_file.rs:217-235 | the bodies for any partition of the file concatenate to it |
| Chapters.ChapterList | rust/dion_extension/src/metadata.rs:531-553 | one chapter for each mark of the stably sorted permutation of the input, ending where the next begins |
| Chapters.ChapterExactly | rust/dion_extension/src/metadata.rs:537-552 | a chapter has a title exactly if its mark has more than blanks, and it as it stands; start and duration are whole milliseconds rounded down, up to the next mark or the end of the file |
| Chapters.SortIsStable | rust/dion_extension/src/metadata.rs:532-536 | the sort is a permutation, ordered by start, and keeps the order of equal starts |
| Chapters.StableSortIsUnique | rust/dion_extension/src/metadata.rs:532-536 | no other list is a stable sort of the marks |
| Chapters.ExtentsTelescope | rust/dion_extension/src/metadata.rs:541-549 | exact extents add up to the later of the total and the last start, less the first start |
| Chapters.NextStartsWhereLastEnds | rust/dion_extension/src/metadata.rs:546-550 | in milliseconds a chapter ends where the next starts or one before, modulo 64 bits, and outright when the start fits |
| Chapters.DurationsRound | rust/dion_extension/src/metadata.rs:549-549 | n truncated durations fall short of the exact span by less than n milliseconds |

## Left out

- I/O errors, a cache index that does not parse, and JSON that does not decode: files and bytes are values here, and every file operation succeeds.
- Two operations on one cache that interleave at their awaits; each operation also reads the wall clock once.
- The replacement of a file is one step; the fallback of removing the old file first is not modelled, nor are the steps inside `clear` (rust/dion_extension/src/cache.rs:264-278, 500-515).
- Two keys with one hash: `key_hash` is any function that is injective on the keys in use.
- 64-bit overflow of byte totals and of expiry times; recency ticks do saturate.
- CacheInners.CacheInner.Get: a JSON payload is not decoded, so the error for a payload that is no JSON is missing.
- `CacheManager::clear_all` and `disk_usage` beyond what `Unload` and `DirSize` say of them.
- CacheInclusion.SmallerCacheIsIncluded: the two caches keep one policy each and start empty, as the law is about capacities.
- SingleFlight.RunsAreBounded: a prompt that the user never answers and a call that is dropped while it prompts are not modelled, because the code has no clean-up for either.
- Persisting a grant after it is stored, whose failure is only logged, and the text of prompts.
- SchemaExport.SafeBodyIsExact: a type name is any string here, ordered by code points, and the types that make a module fail may have names that are no identifiers.
- TypeScript output, imports, comments, the text of expressions with its quoting of keys and titles, and the path inside an error (rust/specta_valibot/src/export.rs:174-209, 254-281, 394-554).
- SchemaMeaning.EmitItemMeans: the validation library is not part of this model; what its functions accept is defined by `SchemaMeaning.Denote`, where an object or array may have more than is asked for and the last of two entries with one key counts.
- Duplicate names: the types are already keyed by name where the exporter looks for duplicates.
- Separators and drive rules of other platforms: the path model is the one for Unix, where `C:` is an ordinary first component after normalisation.
- StorageAccess.EnsureAccess: `canonicalize` is an arbitrary function, and a stored path is spelled in its canonical way, which compares like the original.
- A change of the directory tree while it is measured, and directories that can be read only in part.
- Gzip, HTTP and the decoders: a response body is given by its first character and by what each decoder makes of it; extension lists and their mapping are left out.
- JobQueue.Queue.RunJobsAsync: timers are left out, since equal deadlines overwrite each other, and so are job errors, which are only logged.
- Response headers other than range and length, HEAD aside, and read errors while streaming.
- Authentication, settings, filters, timestamps and container parsing: many members with little to prove.
