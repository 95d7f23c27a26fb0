# A verified model of the AFL++ snapshot module

AFL++ Snapshot is a Linux kernel module that takes a snapshot of a process, lets the process
go on, and puts it back, many times a second.  It does not copy the process: it write-protects
its pages, records what the process disturbs (write faults, first touches, unmaps), and walks
the list of what was disturbed to restore it.  This project models that scheme in Dafny and
proves that it restores what a full copy would, states where the code falls short of that, and
proves the exact condition in each such place.

How the modules follow the program:

| files | models |
|---|---|
| `Basics`, `Kernel` | shared vocabulary; page table, frames and faults as the kernel provides them |
| `PageSpec`, `PageInvariant`, `PageRuns` | the copy-on-write page engine on values, its invariant, whole runs |
| `PageLoss`, `PageTheorems` | restores that cannot write a page back; the main results about pages |
| `PageTable`, `PageEngine` | the same engine as objects: hash buckets, dirty list, hooks, recovery loop |
| `SweepSpec`, `SweepLoop`, `SweepTheorems`, `Sweep`, `SweepPages` | `restore_vmas`: its outcome, its loop on values, the loop on live list nodes (which also carry `restore_brk`), its effect on pages |
| `Brk` | what `restore_brk` does, and its composition with the sweep |
| `WalkSpec`, `WalkTheorems`, `TakeSpec`, `TakeWalk`, `Ranges` | the take: range lists, pruned page-table walk, choice of areas |
| `FilesSpec`, `FilesTheorems`, `Files` | the open-file snapshot |
| `TasksSpec`, `TasksTheorems`, `TasksRuns`, `Tasks` | task records, the per-CPU cache, the life of a snapshot |
| `Threads` | the loop that kills the other threads |
| `Clean` | the areas and page records at the end of a snapshot |
| `Lifecycle`, `RestoreSnapshot` | the stages of take, clean and restore in sequence, on the objects |
| `Restore` | what a user of a snapshot may rely on |

Objects that the source updates in place are classes here; a ghost field of such a class mirrors
what its objects hold, and each method is proved to do to that mirror what a function on values
says.  The results about all runs are lemmas about those functions.

## What is assumed of the kernel

A store to a page without an entry attaches a fresh frame, zeroed or copied from the file that the
page maps, and calls the rmap hook; a store to a read-only entry enters the write-protect hook first,
and, if that does not handle it, keeps an exclusively owned frame or copies it to a fresh one, calling
the rmap hook; a load from a page without an entry maps the zero page or the file's page read-only; a
writable entry owns its frame.  A page walk over a range meets every present entry in it.  Mapping and
unmapping is by whole pages.  Allocations for page records and their copies succeed.  There is no fork,
swap, `mremap` or `madvise`, and nobody else writes to a mapped file.  Hooks and calls are atomic, and no
other thread of the process is running.  Whether the page table of an unmapped page is gone when a restore
comes to the page is left to the kernel, page by page.  Area ends are below `ULONG_MAX`, which the sweep
uses as a sentinel.

Of private mappings, anonymous or of files, the model has every page-table entry; of shared ones it has
none, so that nothing is claimed of their content, not even when an allowed range selects one.  Every
mapped page accepts stores, although an allowed range also selects read-only areas: runs contain more
than such a process can do, and the copy back of one of their pages, dirty only because it was unmapped,
is taken to succeed.

## Where the code and its description part

- A mapping that fills the gap between two snapshotted areas and was merged with memory on both
  sides is supposed to be unmapped by a restore with `AFL_SNAPSHOT_MMAP`.  The loop re-reads the
  area that its own unmap has just split, goes back, and maps the gap again when the area behind it
  is anonymous: `SweepTheorems.FilledGapStaysMapped`; `SweepTheorems.SweepRestoresIff` and
  `SweepTheorems.PiecesDisjointIff` are exact.
- A saved page that is not mapped when a restore comes to write it back is marked clean all the same.  If
  its page table is gone, it also stays on the dirty list, protected as it was; otherwise it is marked
  private, and a later store to it lands in the zero page, which every process shares; so it does if it was
  private before.  Without `AFL_SNAPSHOT_MMAP` any page that the process has unmapped will do; with it, one of
  a private file mapping, whose loss the sweep only logs: `PageTheorems.LostPageWritesZeroPage` has a run of
  each kind.  `PageTheorems.SharingLastsIff` is exact, and `PageTheorems.DirtyMappedIff` says when it cannot
  happen with MMAP.  The other pages are restored even then: `PageTheorems.EveryRestoreIsExact`.
- A page that was absent at the take reads, after a restore, as whatever backs it then: if the process
  has put a file in its place, the sweep does not notice.  `PageTheorems.ReplacedPageShowsFile` is a family of
  runs and `PageTheorems.ReplacedPageExists` one of them; `PageTheorems.RestoredUnlessReplaced` is exact, in
  terms of the memory before the restore, and `PageTheorems.NotReplaced` says which runs are safe.
- A page excluded from the snapshot should be left alone by a restore.  If it has had a fresh frame since
  the take, because the process touched it for the first time or because a read-only one was copied on
  write, its content is thrown away instead: `PageTheorems.UnsavedPageIsLost`, with
  `Restore.ExcludedPageKeptIff` exact.
- An excluded page is taken all the same when an allowed range over it misleads the walk:
  `WalkTheorems.ClashMisleads`, with `WalkTheorems.WalkIsFlatIff` exact.
- "Add a range of addresses" (README.md of the module): each call to exclude or include a range
  replaces the ones before, because the arguments of `list_add` are in the other order:
  `Ranges.AddTwoRanges`, with `Ranges.AddRanges` exact.
- Areas are always mapped again with all permissions (src/memory.c:184-186).  A hole that is cut into such an
  area and filled by a later restore can therefore be merged with both its neighbours, and the upper one,
  which the loop points to and reads again (src/memory.c:587), is then gone.  The model does not merge areas,
  so nothing is claimed of a restore that fills a hole between two areas that the kernel would merge.
- With NOSTACK an area that only ends where the stack starts counts as the stack, as the source suspects itself
  (src/memory.c:438-439): `TakeSpec.SelectedIff`, `Restore.UnselectedAreaIsKept`.
- The program break is not restored when it is moved back from, or to, the middle of a page:
  `Brk.UnalignedBreaks`; `Sweep.Mm.RestoreBrk` says exactly when it is.
- A restore without a snapshot claims success once a range has been added, puts the break at 0 and so
  unmaps everything below it: `Restore.RestoreWithoutSnapshotUnmaps`; `TasksRuns.HonestRestoreIff` is exact.

## Model

| member | source | states |
|---|---|---|
| Restore.SnapshotRestores | src/memory.c:446-738 | for every choice of options and ranges that do not clash, every address space, and every run of stores, loads, unmaps, maps and restores: a page of a selected private area is mapped after the next restore iff it was or MMAP can remake it; it then holds its take-time content iff it is not an absent page that had been replaced; so it does, whatever else the run maps, if it was never unmapped, or is anonymous and no file was mapped over it |
| Restore.WritablePageIsRestored | src/memory.c:476-498 | without BLOCK, a mapped page of a writable private area, outside the excluded ranges, and under NOSTACK outside the stack, is mapped and as taken after the next restore if it was never unmapped |
| Restore.IncludedPageIsRestored | src/memory.c:476 | so is a page in an included range, of any private area, read-only or not, whatever the options |
| Restore.UnselectedAreaIsKept | src/memory.c:476-493 | an area that no included range touches, and that is read-only, shared, or left out by BLOCK or NOSTACK, has no page recorded, and a restore leaves in it what the run put there |
| Restore.ExcludedPageKeptIff | src/memory.c:330-386 | after any such run, a page of a selected area that an excluded range touches, or that under BLOCK no included one does, keeps its content across a restore iff the rmap hook has not listed it or it reads as what backs it |
| Restore.RestoreWithoutSnapshotUnmaps | src/snapshot.c:69-109 | with ranges added and nothing taken, a restore reports success, and the break it puts back is accepted and unmaps everything below the current one |
| RestoreSnapshot.RestoreSnapshot | src/snapshot.c:84-96 | all stages in order on the objects: signals, break, areas and page table together, dirty pages, files; every tracked page that is mapped is as taken, and the break is one more step of the run that the page theorems are about |
| RestoreSnapshot.AreasComeBack | src/snapshot.c:69-96 | when the areas after break and sweep are exactly the snapshot's |
| RestoreSnapshot.RecoverBrk | src/snapshot.c:78-81 | restoring the break on the list of areas and on the page table keeps them in agreement |
| RestoreSnapshot.RecoverMemorySnapshot | src/memory.c:675-738 | on the live objects, sweep and dirty-list loop together do what the run theorems call a recover, keep areas and pages in agreement, leave every tracked page that is mapped as taken, and on the list exactly the stranded pages; the invariant holds again if all dirty pages were mapped |
| PageTheorems.EveryRestoreIsExact | src/memory.c:675-738 | after any run in which the earlier restores found their dirty pages mapped, a restore, whatever it finds, leaves every tracked page that is mapped with its take-time content (if it was absent, with what backs it now), no page dirty, and on the list exactly the dirty pages that were not mapped and had lost their page table |
| PageTheorems.RestoredUnlessReplaced | src/memory.c:691-735 | a tracked page that is mapped after a restore holds its take-time content iff it was not, before the restore, one that was absent at the take and is backed by something that reads differently |
| PageTheorems.NotReplaced | src/memory.c:881-935 | a run replaces no anonymous page over which it maps no file, and no page that it does not unmap |
| PageTheorems.AnonymousStays | src/memory.c:881-935 | an anonymous page stays anonymous in a run that maps no file over it, whatever it maps elsewhere |
| PageTheorems.MappedStays | src/memory.c:579-650 | a selected page, of a file as well, stays mapped and backed as it is in a run that does not unmap it, restores and sweeps included |
| PageTheorems.ReplacedPageShowsFile | src/memory.c:579-650 | for any address space and absent page, with MMAP or without: unmap it, map a file there, restore, and the page shows the file |
| PageTheorems.ReplacedPageExists | src/memory.c:579-650 | one such run, from zeroes to the content of a file |
| PageTheorems.RecoverRefinesFullCopy | src/memory.c:691-735 | walking only the dirty list gives every mapped page but the blocked ones and those replaced before it what copying every tracked page back would, and changes nothing else |
| PageTheorems.SharingIsSafe | src/memory.c:855-876 | at every point of every run whose restores find their dirty pages mapped, the fault hook makes only exclusively owned frames writable, and no frame visible elsewhere has changed |
| PageTheorems.SharingLastsIff | src/memory.c:691-735 | after a restore nothing the process does before the next one changes a frame that others see, iff each dirty page was mapped after the sweep, or had lost its page table and was not private |
| PageTheorems.DirtyMappedIff | src/memory.c:613-631 | with MMAP it finds them so iff no dirty page lies in a lost area that was not anonymous private |
| PageTheorems.AnonymousRunIsValid | src/memory.c:684-688 | with MMAP and only anonymous areas selected every run that the kernel allows is one of these |
| PageTheorems.LostPageWritesZeroPage | src/memory.c:697-708 | runs the kernel allows, one without MMAP and one with it on a file mapping, after which a store has gone to the shared zero page |
| PageTheorems.FirstStore | src/memory.c:855-879 | the first store after any take to a page that was present is taken by the hook iff the page was writable, and then stays in its frame; if it was read-only the kernel copies it; either way the take-time content is saved |
| PageLoss.LostPageStore | src/memory.c:697-708 | from any state of the invariant with a dirty page that is not mapped, and whose page table is there or which was private: after the loop, mapping, reading and storing to that page writes the zero page |
| PageLoss.LostPageEnds | src/memory.c:694-708 | what becomes of any lost page: clean, and private unless its page table is gone |
| PageLoss.HarmlessLoss | src/memory.c:700-702 | if all lost pages are copy-on-write and have lost their page table, the state after the loop faults as one that satisfies the invariant does |
| PageLoss.StaysSafeIff | src/memory.c:691-735 | the same equivalence for the loop over the dirty list alone, from any state of the invariant |
| PageLoss.RestoreOk | src/memory.c:691-735 | the loop restores every tracked page that is mapped, whichever others are lost |
| PageLoss.RecoverPagesSame | src/memory.c:691-735 | a lost page on the list makes no difference to any other page |
| PageTheorems.PromotedPageIsWrittenInPlace | src/memory.c:704-708 | a page saved once and copied back is private: its next store is handled in place and neither the frame nor the saved copy is made again |
| PageTheorems.RestoredPagesAreMapped | src/memory.c:684-688 | a page of a selected area is mapped after a restore iff it was before, or MMAP is on and the area was anonymous private |
| PageTheorems.UnsavedPageKeptIff | src/memory.c:719-724 | a page of which nothing was saved, absent at the take or blocked, keeps its content across a restore iff the rmap hook has not listed it or it reads as what backs it anyway; a listed one reads as that afterwards |
| PageTheorems.UnsavedPageIsLost | src/memory.c:907-917 | any take, then a store to a page of which nothing was saved, touched for the first time or read-only, then a restore: what was stored is gone, and the page reads as what backs it, zeroes if anonymous |
| PageRuns.ExecInv | src/memory.c:773-973 | every step of a run keeps the invariant of page records, list, memory and foreign frames |
| PageRuns.TakeStartsInv | src/memory.c:280-322 | taking establishes the invariant and changes no content |
| PageRuns.EmptyListIsRestored | src/memory.c:691-735 | with the list empty the invariant alone says that memory is as it was: pages off the list need no restore |
| PageRuns.SweepInv | src/memory.c:559-650 | at page level the sweep keeps the invariant and the content of every selected page, and maps exactly those still mapped or anonymous |
| PageRuns.CopyBackKeepsList | src/memory.c:652-662 | no hook fired by copying a page back alters the dirty list or any other record |
| PageRuns.RecoverPagesInv | src/memory.c:691-735 | with every dirty page mapped the loop empties the list, keeps the invariant, and changes no page that was not listed |
| PageInvariant.WriteInv | src/memory.c:833-935 | a store, through whichever fault path and hooks, keeps the invariant, changes its page alone, and takes effect |
| PageInvariant.HandledFaultIsExclusive | src/memory.c:855-876 | a fault that the hook handles is on an exclusively owned, unchanged page |
| PageRuns.MunmapInv | src/memory.c:937-973 | unmapping keeps the invariant: what it takes away was saved first |
| PageRuns.MakePageInv | src/memory.c:280-322 | recording one page keeps the invariant with that page now answered for |
| PageRuns.PageIsRecorded | src/memory.c:280-322 | each page that the walk reaches is recorded as private if its entry was writable, as copy-on-write if it was read-only, as without entry if it was absent, and no entry stays writable |
| PageTable.Table.Get | src/memory.c:238-249 | the hash lookup returns exactly what the table holds as a map |
| PageTable.Table.AddSnapshotPage | src/memory.c:251-278 | through both insertion paths the table holds one record for the page, in its own bucket, reset but for its buffer |
| PageTable.Table.Clear | src/memory.c:766-770 | every record is taken out and freed, and none twice |
| PageEngine.Engine.MakeSnapshotPage | src/memory.c:280-322 | the record and the entry after the take reached the page |
| PageEngine.Engine.RecordDirtyPage | src/memory.c:773-826 | the record and the list afterwards, and when the record is returned |
| PageEngine.Engine.DoWpPageHook | src/memory.c:833-879 | the write-protect hook, and exactly when it handles the fault |
| PageEngine.Engine.PageAddNewAnonRmapHook | src/memory.c:881-935 | the rmap hook, with records made on demand |
| PageEngine.Engine.DoMunmapHook | src/memory.c:937-973 | the unmap hook over the entries that its walk meets |
| PageEngine.Engine.IsSnapshottedAddress | src/memory.c:218-236 | the search with early exit is membership in the selected areas |
| PageEngine.Engine.StoreToPage | src/memory.c:652-662 | a store as the process or `copy_to_user` makes it, hooks included |
| PageEngine.Engine.RecoverDirtyPages | src/memory.c:691-735 | the loop that saves each successor before working on a page recovers every listed page, and leaves behind on the list those that the early continue skips |
| PageEngine.Engine.CopyBack | src/memory.c:694-716 | the copy back of one page, with the early continue |
| PageRuns.RecoverPageStable | src/memory.c:691-735 | recovering one page takes it off the list, unless it is stranded, and leaves the rest of the list and its flags intact |
| PageRuns.WalkLeavesStranded | src/memory.c:691-735 | whatever is mapped, the walk over the list leaves on it exactly the dirty pages that are not mapped and whose page table is gone, and no page dirty |
| SweepTheorems.SweepIsExact | src/memory.c:559-650 | for any two sorted lists of areas the sweep unmaps exactly what is mapped outside the snapshot's areas, maps only free addresses, and leaves exactly the described set |
| SweepTheorems.SweepRestoresIff | src/memory.c:579-650 | the sweep yields the wanted set iff no current area fills a gap and reaches past both its ends, before an anonymous area |
| SweepTheorems.FilledGapStaysMapped | src/memory.c:579-650 | a family of inputs whose gap is mapped again |
| SweepTheorems.StepTerminates | src/memory.c:579-647 | each iteration, even an empty one, gets further in the snapshot's list or else in the live list |
| SweepTheorems.FlagsDescribe | src/memory.c:602-628 | the two flags say, for every address up to the next cursor, whether it is in a current and in a snapshot area |
| SweepTheorems.PieceOk | src/memory.c:602-631 | every piece unmapped is mapped and in no snapshot area; every piece mapped is free |
| SweepTheorems.StepInv | src/memory.c:579-647 | one iteration, in step or while catching up after a split, keeps the loop's invariant |
| SweepTheorems.PiecesDisjointIff | src/memory.c:579-647 | the pieces unmapped and mapped come in address order and pairwise disjoint iff no filled gap is mapped again |
| SweepLoop.SyncStep | src/memory.c:579-647 | short of a split the flags stay right and the cursor does not go back |
| SweepLoop.BehindStep | src/memory.c:581-586 | after a split the cursor goes back to the start of the gap |
| SweepSpec.SweptIsWantedIff | src/memory.c:559-650 | when the described set and the wanted set are the same |
| Sweep.Mm.RestoreVmas | src/memory.c:559-650 | on live nodes, which unmapping shrinks and splits under the iterator, the loop never fails and does exactly this |
| SweepPages.SweepOnPages | src/memory.c:559-650 | the sweep's operations, each through the unmap hook, change no page record and come to the page-level sweep |
| Sweep.Mm.RestoreBrk | src/memory.c:512-557 | on the live nodes it succeeds exactly for restorable breaks, and then sets the break and maps what it covers; otherwise changes nothing |
| Sweep.Mm.UnmapRange | src/memory.c:531-534 | unmapping a range, over however many areas, takes exactly that range |
| Brk.UnalignedBreaks | src/memory.c:529-550 | breaks inside a page, saved or current, that are not restored |
| Brk.RestorableIff | src/memory.c:529-550 | the break is restored iff it stays in its page, or shrinks to a page boundary, or grows from one over addresses that are free up to a page beyond |
| Brk.BrkMappedIff | src/memory.c:529-550 | a restored break makes exactly the whole pages between the two breaks mapped or not, as they lie below it or not, and changes no others |
| Brk.AlignedBreakComesBack | src/memory.c:529-550 | a break moved between page boundaries, up or down, comes back, and the heap is mapped as far as it was |
| Brk.BrkThenSweep | src/snapshot.c:69-96 | restoring the break and then sweeping yields exactly the snapshot's mapped set |
| WalkTheorems.WalkIsFlatIff | src/memory.c:330-428 | the pruned walk takes the pages of the page-by-page filter on every tree of tables iff the range lists do not clash |
| WalkTheorems.WalkIsFlat | src/memory.c:330-428 | from any sound memo, despite skipped subtrees, exactly the pages passing the filter are taken, in order |
| WalkTheorems.FlatIff | src/memory.c:343-370 | whichever range a search finds first, a page passes iff no excluded range touches it, and under BLOCK an included one does |
| WalkTheorems.TakenPagesIff | src/memory.c:330-428 | the pages taken from any tree of tables are exactly those outside the excluded ranges and, under BLOCK, inside the included ones |
| WalkTheorems.CheckOk | src/memory.c:330-386 | the two remembered addresses stay sound, and a range that is skipped has no page to take |
| WalkTheorems.ClashMisleads | src/memory.c:343-370 | clashing lists have a tree on which a blocked page is taken |
| WalkTheorems.DisjointListsDoNotClash | src/memory.c:343-370 | lists without a page in common do not clash |
| TakeSpec.TakeIsFlat | src/memory.c:446-508 | a take reaches each page once, and answers for exactly the pages of selected areas that had no frame or pass the filter |
| TakeSpec.SelectedOk | src/memory.c:469-502 | the selected areas are exactly those passing the rule, in order, and sorted |
| TakeSpec.SelectedIff | src/memory.c:476-493 | an area is selected iff some included range touches it, or it is writable, private, and left out neither by BLOCK nor, as one that contains or touches the start of the stack, by NOSTACK |
| TakeSpec.SelectedFromAll | src/memory.c:162-194 | the selected areas lie within the areas listed at the take |
| TakeSpec.AnonymousVma | src/memory.c:178-179 | the sweep can remake a page iff the area that held it was anonymous private |
| TakeWalk.Walker.CheckRange | src/memory.c:330-386 | the decision and the remembered addresses for one range |
| TakeWalk.Walker.WalkEntries | src/memory.c:388-434 | the callbacks record exactly the pages of the walk |
| TakeWalk.Walker.TakeMemorySnapshot | src/memory.c:446-508 | both lists of areas, and the page records, for any options and address space |
| Ranges.AddRanges | src/memory.c:98-160 | after any number of calls a search of the list reaches the newest range alone, so that every range added is reached iff all of them equal the newest |
| Ranges.AddTwoRanges | src/memory.c:98-146 | of two ranges excluded one after the other the first is lost |
| FilesTheorems.RestoreAfterAnyRun | src/files.c:53-164 | after a take and any run with earlier restores, a restore succeeds iff its allocation does and every file that could be sought at the take can be brought back to where it was; it then gives the caller its take-time descriptors and each such file its own take-time position, shared or not; a file without positions never makes it fail |
| FilesTheorems.RecoverFilesOk | src/files.c:108-164 | when a recover succeeds; which threads it switches; on every exit the counts are right and the snapshot stands |
| FilesTheorems.TakeFilesOk | src/files.c:53-106 | on every exit of a take the counts are right; on success the snapshot has the caller's descriptors and the position of every file that has one |
| FilesTheorems.FilesAreLeftAlone | src/files.c:119-125 | without FDS take and restore succeed and touch no file; with it, but without a snapshot of the files, a restore fails and changes nothing |
| FilesTheorems.CleanFilesOk | src/files.c:166-182 | cleaning drops the snapshot's table and no other |
| FilesTheorems.SwitchThreadsOk | src/files.c:141-155 | the thread loop switches exactly the sharing threads and hands over the one local reference |
| FilesSpec.SeekAllOk | src/files.c:25-51 | the seeks succeed iff every saved position can be reached, and then every file is at its position though descriptors share it |
| Files.OpenFiles.SaveOffsets | src/files.c:15-23 | the array holds the position of each open file that has one, and elsewhere values that no restore seeks to |
| Files.OpenFiles.RestoreOffsets | src/files.c:25-51 | the seeks in order up to the first error, all accesses within the array |
| Files.OpenFiles.TakeFilesSnapshot | src/files.c:53-106 | the take on the objects, every exit |
| Files.OpenFiles.RecoverFilesSnapshot | src/files.c:108-164 | the recover on the objects, every exit, leaving the snapshot alone |
| TasksTheorems.CacheAgreesWithList | src/memory.c:16-50 | after any run on any number of CPUs a cached record is never a removed one, and the hooks' test answers as a search of the list would |
| TasksTheorems.LookupIsRemembered | src/memory.c:16-36 | the next lookup on the same CPU gives the same answer without the list, and other CPUs remember what they did |
| TasksTheorems.RestoresWhatWasTaken | src/snapshot.c:27-109 | a take returns 1 iff no snapshot was held; until it is given up every restore puts back that take's registers and break |
| TasksTheorems.HeldIsFixed | src/snapshot.c:45-67 | a held snapshot is changed by nothing but the calls that give it up |
| TasksRuns.ExitRestoresIff | src/snapshot.c:111-134 | after any run an exit restores iff the last take that took asked for EXIT and nothing has given its snapshot up since; it puts back what that take saved, and otherwise leaves no snapshot |
| TasksRuns.OptionsDecide | src/snapshot.c:69-134 | until a snapshot is given up, every restore puts back its break, and its registers iff REGS is among the options of its take; an exit does the same iff EXIT is, and otherwise gives it up |
| TasksSpec.OptionsRead | include/afl_snapshot.h:19-34 | in a configuration that is any sum of the documented option values, each option is on iff it is in the sum |
| TasksSpec.EveryConfig | include/afl_snapshot.h:19-34 | every configuration is such a sum, up to bits without a meaning |
| TasksSpec.FlagIsBit | src/snapshot.c:71 | a flag is read as one bit, whatever the bits above and below it |
| TasksRuns.HonestRestoreIff | src/snapshot.c:98-109 | after any run a restore reports success exactly when a snapshot is held, iff no range was added without one and still stands, with no take or clean since; otherwise it reports success and puts the break at 0; with neither a range nor a take standing it reports failure; and it puts something back iff it reports success |
| TasksRuns.RunAgrees | src/snapshot.c:45-154 | the record of a task says what a three-state automaton over the calls says |
| TasksTheorems.ExecInv | src/memory.c:38-50 | every call and lookup keeps list and caches in agreement |
| Tasks.TaskTable.GetTaskData | src/task_data.c:29-43 | the search finds the first record of a task |
| Tasks.TaskTable.GetTaskDataWithCache | src/memory.c:16-36 | the lookup through one CPU's cache |
| Tasks.TaskTable.InvalidateTaskDataCache | src/memory.c:38-50 | the loop over the CPUs drops exactly the task's entries |
| Tasks.TaskTable.TakeSnapshot | src/snapshot.c:45-67 | the records and caches after a take, and its result |
| Lifecycle.TakeSnapshot | src/snapshot.c:45-67 | a take returns 1 iff no snapshot was held, and then has taken record, memory and files; otherwise it changes neither memory nor files |
| Lifecycle.RuleAsksIff | src/memory.c:486-491 | the walk goes by BLOCK and NOSTACK exactly as they were asked for |
| Lifecycle.TakeIsStart | src/memory.c:446-508 | a take of an address space leaves the invariant from which runs and restores start |
| Tasks.TaskTable.CleanSnapshot | src/snapshot.c:136-154 | the records and caches after cleaning |
| Lifecycle.CleanSnapshot | src/snapshot.c:136-154 | without a record nothing happens; otherwise areas, page records, their copies and the table of files go, each once, and then the record |
| Clean.VmaLists.CleanSnapshotVmas | src/memory.c:740-754 | every listed area is freed once, in order, and neither list keeps one |
| Tasks.TaskTable.ExitSnapshot | src/snapshot.c:111-134 | what an exit restores or cleans, and its result |
| Threads.Group.RecoverThreads | src/threads.c:40-52 | the walk ends, signals each visited thread but the owner once, in order, and leaves every reference count as it was |
| Threads.AllSignalledIff | src/threads.c:6-24 | every other thread is signalled iff none comes after a dead one |

## Left out

- Hook installation, symbol lookup, module loading, ioctl dispatch and the user library: plumbing with no state of its own.
- Restored protections: `ss_vma->prot` is built from unset memory, so only extents and contents are claimed.
- Shared areas in the page engine: their entries are not modelled; the sweep and the take treat the areas.
- Failed allocations of page records, failed `vm_munmap`, `mprotect` by the process, huge pages and swap.
- Locking, RCU grace periods, TLB flushes and races between threads: each hook and each call is one step.
- Sweep.Mm.RestoreVmas: takes the kernel's list as nodes in a sequence instead of linked by `vm_next`, and does not merge a remapped area with its neighbours, as the kernel may (see above).
- RestoreSnapshot.SweepPageTable: carries out the unmap hooks after the sweep over the list of areas instead of within each unmap; neither looks at the other's state.
- Tasks.TaskTable.TakeSnapshot: covers the records and caches; Lifecycle.TakeSnapshot puts memory and files behind it, with the cache invalidated before instead of between.
- Tasks.TaskTable.CleanSnapshot: covers the records and caches; Lifecycle.CleanSnapshot puts memory and files before it.
- The three protection bits of a page record are modelled as three booleans.
- PageTable.Table: takes the hash function as a parameter; it belongs to the kernel.
- Files are given a kind of answer to seeks; the reference counts of single open files, and errors of `dup_fd` other than a failed allocation, are not modelled.
- Restored registers: one value stands for all of them, and their return to user mode is not modelled.
- Reuse of a task's address by a later task, and freeing of range lists after a grace period.
- Debug output.
