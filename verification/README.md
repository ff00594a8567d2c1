# Models of programs from The Linux Programming Interface

This project models the programs among the book's example code and exercise solutions that hold an
algorithm or a protocol of their own, and proves what they are for. The kernel and the C library appear
as explicit state: a forest of directories with watches and an event queue, a tree of namespaces, a
message queue, a pair of semaphores, a pending signal, an environment, an access control list.

`dafny verify dfyconfig.toml` checks everything.

| files | program |
|---|---|
| `Paths`, `DirForest`, `SlotCache`, `Inotify`, `DtreeSpec`, `DtreeCoherence`, `DtreeSteps`, `DtreeAncestors`, `DtreeRuns`, `DtreePairing`, `DtreeRecovery`, `DtreeExit`, `DtreeProgram` | the directory-tree cache `inotify_dtree.c` |
| `NamespaceForest`, `NamespaceDisplay`, `WrapText` | `namespaces_of.go` |
| `NotifyByThread`, `NotifyBySignal` | message notification by threads and by signal |
| `ReapChildren` | SIGCHLD and `waitpid()` |
| `ShmTransfer` | the shared-memory transfer with two semaphores |
| `SeqnumServer`, `SeqnumRanges`, `SeqnumProgress`, `SeqnumProgram` | the sequence-number service over one queue |
| `TailScan` | the backward block scan of `tail` |
| `Environment` | `setenv()` and `unsetenv()` |
| `AclParse`, `AclUpdate` | `acl_update.c` |
| `UsernsWalk` | the ancestor walk of `ns_capable.c` |

Programs that change state step by step are classes and methods with loops, each proved against a
function on values; the lemmas say what those functions mean. The five protocols with several processes
are transition systems: one step is one statement of one process or one action of the kernel, and the
theorems speak about every legal sequence of steps. Beside each of them the programs themselves are
methods with the loops of the source: between any two of their statements the other processes execute any
number of theirs, and a call that blocks waits until they have made it possible.

## Where the code does less than its documentation says

- `inotify_dtree.c` is meant to keep its cache consistent with the filesystem (lines 19-25). After one
  operation with all its events processed it fails to in exactly three cases (`DtreeRuns.CoherentIff`). A
  directory from outside that replaces an empty directory inside is not watched, because the pathname of
  the replaced directory is still cached when the arrival is handled and `pathnameInCache()` takes it for
  the new one. A root that is moved into another monitored tree is given up and not picked up again as
  part of that tree; in both cases exactly the moved subtree is missed. And when a directory is renamed
  that a root lies below, the program is not told, and keeps all watches and pathnames of that tree
  although they are false now. `ReplacingFromOutsideIsMissed`, `MovedRootIsMissed` and
  `MovedAncestorIsMissed` are concrete cases. None of this lasts beyond the next overflow or event with an
  unknown descriptor: however operations and the handling of their events are interleaved, every live root
  stays on the program's list, and the rebuild that follows makes the cache coherent whatever it held
  (`DtreeRecovery.EveryRunHeals`, `ProgramHeals`).
- Line 1166 of the same file tests `errno` where it means `nr`, so that a second read that times out
  lowers the byte count by one. That is harmless: the deferred event is then alone in the buffer, and one
  byte short is still enough to reach it (`DtreeProgram.Watcher.ReadMore`, `AfterConsumed`).
- `namespaces_of.go` displays every namespace twice when all those it recorded have owners out of sight,
  since `rootNS` then still has the zero ID of the special entry, and dereferences a nil pointer when it
  recorded nothing (`NamespaceDisplay.HierarchiesExact`, `ShownTwice`). `main()` scans all namespace files
  of each process, or for the PID hierarchy the `pid` files alone, so that only a kernel without user
  namespaces can leave `rootNS` zero; with one user namespace among those scanned everything is displayed
  once (`ShownOnce`). `--subtree` looks its namespace up after the scan, and dereferences a nil pointer if
  the scan has not found it, as when the process has been started or moved since (`SubtreeExact`).
- The `tail` of Exercise 13-5 prints one line too few exactly when the file ends in a newline and has at
  least as many newlines as lines were asked for (`TailScan.LastLinesIff`, `OneLineShort`).
- `setenv()` that fails for want of memory has removed the old definitions (`Environment.Environ.SetEnv`).
- `acl_update.c` checks and stores the list after every single entry. Without a mask to recalculate it
  stops at exactly the specifications that `ModifySucceedsIff` and `RemoveSucceedsIff` describe, having
  stored the entries before; and it can never create the default list of a directory that has none
  (`EmptyStaysEmpty`), although its usage text offers to create entries of default lists.
- The sequence-number service can come to a standstill: requests can fill the queue that the server needs
  for its response. `SeqnumProgress.StuckIff` says for which queue sizes.
- The service tells requests from responses by message type, which is 1 or the client's process ID. A client
  with process ID 1, the first process of a container, takes requests for responses
  (`SeqnumServer.ConfusedIff`).
- The client of that service asks for any length that it is given. The ranges are right in every run if and
  only if no client asks for a negative length while another asks for a positive one
  (`SeqnumRanges.RangesIff`, `NegativeLengthOverlaps`).

## Model

| member | source | states |
|---|---|---|
| Paths.JoinInjective | tlpi-dist/inotify/inotify_dtree.c:799-800 | a directory and an entry name can be told from their joined pathname |
| Paths.BelowOneComponent | tlpi-dist/inotify/inotify_dtree.c:626-628 | an entry is at or below a pathname exactly if it is that pathname or its directory is at or below it: the slash-or-end test is not fooled by a shared string prefix |
| Paths.RebaseJoin | tlpi-dist/inotify/inotify_dtree.c:629-630 | replacing the leading part commutes with appending a component |
| DirForest.PathsDiffer | tlpi-dist/inotify/inotify_dtree.c:611-640 | different monitored directories have different pathnames |
| DirForest.BelowIffUnder | tlpi-dist/inotify/inotify_dtree.c:611-640 | the string test on pathnames decides descent in the tree, both ways |
| DirForest.MkdirTree | tlpi-dist/inotify/inotify_dtree.c:792-832 | creating a directory adds its pathname to the map of true pathnames and changes no other |
| DirForest.RmdirTree | tlpi-dist/inotify/inotify_dtree.c:834-846 | removing an empty directory takes its pathname out and changes no other |
| DirForest.RelinkTree | tlpi-dist/inotify/inotify_dtree.c:606-640 | moving a subtree changes the true pathnames in it, and only those, in their leading part |
| SlotCache.GrowRefines | tlpi-dist/inotify/inotify_dtree.c:290-313 | growing the array by 200 slots keeps every entry and leaves an unused slot to be found |
| SlotCache.AddRefines | tlpi-dist/inotify/inotify_dtree.c:316-328 | adding a pair, with or without growth, adds exactly it to the map from descriptor to pathname and keeps descriptors distinct |
| SlotCache.MarkRefines | tlpi-dist/inotify/inotify_dtree.c:277-287 | clearing a slot removes exactly its pair |
| SlotCache.RewriteKeepsSlots | tlpi-dist/inotify/inotify_dtree.c:625-639 | the rewrite, which does not test descriptors, leaves unused slots and all descriptors alone |
| SlotCache.RewriteRefines | tlpi-dist/inotify/inotify_dtree.c:611-640 | the rewrite moves every cached pathname at or below the old one and no other |
| SlotCache.ZapRefines | tlpi-dist/inotify/inotify_dtree.c:647-697 | zapping removes exactly the pairs at or below the pathname |
| SlotCache.ZapListExact | tlpi-dist/inotify/inotify_dtree.c:664-696 | what zapSubtree() counts is each removed descriptor, once |
| DtreeSpec.WalkerExists | tlpi-dist/inotify/inotify_dtree.c:582-585 | there are tree walks that visit every directory at or below a pathname once, as the theorems assume of nftw() |
| DtreeSpec.NextProgress | tlpi-dist/inotify/inotify_dtree.c:757-1056 | handling an event consumes at least it, and the events that it causes ask for no further work |
| DtreeCoherence.RootPathIsRoot | tlpi-dist/inotify/inotify_dtree.c:466-470 | the string comparison with the list of roots recognizes exactly the roots |
| DtreeCoherence.ZapRootExact | tlpi-dist/inotify/inotify_dtree.c:476-494 | zapping a root pathname strikes off it and no other, and the program exits exactly when no pathname is left |
| DtreeCoherence.WatchSubtreeInv | tlpi-dist/inotify/inotify_dtree.c:511-602 | watching a subtree makes cache and kernel right about everything at or below its pathname, in whatever order it is walked and whatever was watched already |
| DtreeCoherence.ReinitRestores | tlpi-dist/inotify/inotify_dtree.c:708-747 | reinitializing gives a coherent cache from any cache, watches and pending events |
| DtreeCoherence.LostTrackRestores | tlpi-dist/inotify/inotify_dtree.c:777-787 | an event with an unknown descriptor, or an overflow, restores coherence from any cache, watches and events, with every live root on the list |
| DtreeSteps.NextAwake | tlpi-dist/inotify/inotify_dtree.c:487-492 | whatever event is handled, in whatever state, the program has exited afterwards if and only if no pathname is left on its list |
| DtreeSteps.UnmountStep | tlpi-dist/inotify/inotify_dtree.c:1010-1020 | an unmounted directory, whose watch the kernel has dropped, leaves the cache, and nothing else changes |
| DtreeAncestors.AncestorMoved | tlpi-dist/inotify/inotify_dtree.c:521-526 | no watch is on a directory above a root: when one is renamed, wherever to, the program goes on with all its watches and the pathnames that were true before |
| DtreeAncestors.BuriedRootMoved | tlpi-dist/inotify/inotify_dtree.c:1025-1030 | the root below then is not monitored any more, or is under the pathname of another root |
| DtreeAncestors.AncestorIncoherent | tlpi-dist/inotify/inotify_dtree.c:1025-1030 | so the cache that the program keeps is not coherent |
| DtreeRuns.MkdirSettles | tlpi-dist/inotify/inotify_dtree.c:792-832 | creating a directory and processing its event keeps the cache coherent |
| DtreeRuns.RmdirSettles | tlpi-dist/inotify/inotify_dtree.c:834-846 | so does removing one, be it a root, watched or not monitored |
| DtreeRuns.FilesSettle | tlpi-dist/inotify/inotify_dtree.c:757-1056 | events of files change nothing at all if their descriptors are cached, and else end in a coherent rebuild |
| DtreeRuns.RenameInside | tlpi-dist/inotify/inotify_dtree.c:926-956 | a rename inside the trees, replacing an empty directory or not, keeps the cache coherent and all watches as they are, with no directory watched again |
| DtreeRuns.RenameOut | tlpi-dist/inotify/inotify_dtree.c:958-981 | a directory moved out, root or not, leaves cache and kernel without its whole subtree |
| DtreeRuns.RenameIn | tlpi-dist/inotify/inotify_dtree.c:792-832 | a directory moved in is watched with its whole subtree unless it replaces a watched one, and then nothing of it is |
| DtreeRuns.RenameElsewhere | tlpi-dist/inotify/inotify_dtree.c:757-1056 | a rename between places that are not monitored, of a directory without roots below it, keeps the cache coherent, also when it replaces a root |
| DtreeRuns.RootInto | tlpi-dist/inotify/inotify_dtree.c:1022-1047 | a root moved into another tree ends up unwatched with its whole subtree, everything else coherent |
| DtreeRuns.OperationSettles | tlpi-dist/inotify/inotify_dtree.c:757-1056 | after any operation but the rename of a directory above a root, and its events, the cache is right about all directories but those listed as lost; roots that are gone are off the list, and the program has exited if and only if the list is empty; watches that still exist have kept their descriptors, so that nothing was rebuilt |
| DtreeRuns.CoherentIff | tlpi-dist/inotify/inotify_dtree.c:757-1056 | an operation leaves the cache coherent, or the program exits with no root left, if and only if it is not one of the three kinds of rename that the program mishandles; and the program has exited if and only if no pathname is left on its list |
| DtreeRuns.ReplacingFromOutsideIsMissed | tlpi-dist/inotify/inotify_dtree.c:831-832 | from the start of the program with root d, a directory from outside replacing d/x leaves it running with an incoherent cache |
| DtreeRuns.MovedRootIsMissed | tlpi-dist/inotify/inotify_dtree.c:1022-1047 | so does root e moving into root d |
| DtreeRuns.MovedAncestorIsMissed | tlpi-dist/inotify/inotify_dtree.c:1025-1030 | so does renaming directory a with root a/d below it |
| DtreePairing.BothHandled | tlpi-dist/inotify/inotify_dtree.c:918-981 | a departure and another directory's arrival right behind it in the queue are told apart by their cookies: the one subtree is dropped, the other watched |
| DtreeRecovery.NextTracked | tlpi-dist/inotify/inotify_dtree.c:757-1056 | even with a cache that is wrong, and operations between any two events, handling an event strikes no live root off the list, and leaves no false cached pathname equal to that of a live root |
| DtreeRecovery.LostTrack | tlpi-dist/inotify/inotify_dtree.c:929-939 | an overflow, an unknown descriptor, a rename into a directory with one, or a zap that the kernel refuses makes the cache coherent at once, in any state that the program can be in |
| DtreeRecovery.LossHeals | tlpi-dist/inotify/inotify_dtree.c:989-1008 | a notice of a lost event anywhere among those pending makes the cache coherent by the time that they are processed |
| DtreeRecovery.EveryRunHeals | tlpi-dist/inotify/inotify_dtree.c:708-747 | over every interleaving of operations, mishandled ones included, overflows and handled events: live roots stay listed, the program exits only without any, and each rebuild ends in a coherent cache |
| DtreeRecovery.ProgramHeals | tlpi-dist/inotify/inotify_dtree.c:1420-1457 | from the start of the program, an overflow after any such run ends all errors in the cache |
| DtreeRecovery.RunStaysCoherent | tlpi-dist/inotify/inotify_dtree.c:757-1056 | over every run of operations with their events processed, the used slots are at the end exactly the pairs of descriptor and true pathname of all directories under live roots, and the kernel watches just those, unless a rename was mishandled and no overflow came after it |
| DtreeRecovery.ProgramStaysCoherent | tlpi-dist/inotify/inotify_dtree.c:1420-1457 | the same from the start of the program, whose first build of the cache is coherent |
| DtreeExit.ExitIff | tlpi-dist/inotify/inotify_dtree.c:476-494 | the program exits with an operation if and only if that leaves no root, and otherwise lists exactly the live roots |
| DtreeExit.LastRootGone | tlpi-dist/inotify/inotify_dtree.c:834-846 | removing, moving away or replacing the last root ends the program |
| DtreeExit.ProgramExitsIff | tlpi-dist/inotify/inotify_dtree.c:1420-1457 | over every run from the start without losses and mishandled renames, the program goes on exactly as long as a root is left |
| DtreeProgram.Kernel.AddWatch | tlpi-dist/inotify/inotify_dtree.c:526-540 | a watched directory keeps its descriptor and gets the new mask; an unwatched one gets a new descriptor; a missing one is an error that changes nothing |
| DtreeProgram.Kernel.RmWatch | tlpi-dist/inotify/inotify_dtree.c:676-687 | a known descriptor goes and an ignored event is queued; an unknown one is an error |
| DtreeProgram.Kernel.Read | tlpi-dist/inotify/inotify_dtree.c:1092-1093 | takes a nonempty prefix of the queue that fits the space |
| DtreeProgram.Watcher.FindWatch | tlpi-dist/inotify/inotify_dtree.c:234-243 | the slot of a descriptor, or -1 exactly if no slot has it |
| DtreeProgram.Watcher.FindEmptyCacheSlot | tlpi-dist/inotify/inotify_dtree.c:290-313 | the array is grown only when full, into a fresh one with all old slots |
| DtreeProgram.Watcher.AddWatchToCache | tlpi-dist/inotify/inotify_dtree.c:316-328 | refines the addition of a pair |
| DtreeProgram.Watcher.PathnameInCache | tlpi-dist/inotify/inotify_dtree.c:332-347 | whether a used slot has exactly the pathname |
| DtreeProgram.Watcher.RewriteCachedPaths | tlpi-dist/inotify/inotify_dtree.c:611-640 | the loop over the array in place refines the move of a subtree's pathnames |
| DtreeProgram.Watcher.ZapRootDirPath | tlpi-dist/inotify/inotify_dtree.c:476-494 | one entry with the pathname becomes empty and no other changes, and the program has exited if and only if all entries are empty |
| DtreeProgram.Watcher.TraverseTree | tlpi-dist/inotify/inotify_dtree.c:511-563 | one visit of the walk: watch and, if the descriptor is new to the cache, a slot; a directory that has gone meanwhile is passed over |
| DtreeProgram.Watcher.WatchSubtree | tlpi-dist/inotify/inotify_dtree.c:571-602 | the walk refines watching everything at or below the pathname |
| DtreeProgram.Watcher.ZapSubtree | tlpi-dist/inotify/inotify_dtree.c:647-697 | -1 exactly if some descriptor is unknown to the kernel; otherwise everything at or below the pathname goes and the number of entries is returned, also when the argument is a string in the cache |
| DtreeProgram.Watcher.Reinitialize | tlpi-dist/inotify/inotify_dtree.c:708-747 | refines the rebuild from scratch, with the old queue dropped |
| DtreeProgram.Watcher.HandleMovedOut | tlpi-dist/inotify/inotify_dtree.c:958-981 | an unmatched move zaps the subtree, or rebuilds and discards the rest of the buffer |
| DtreeProgram.Watcher.HandleRename | tlpi-dist/inotify/inotify_dtree.c:926-956 | a matched pair rewrites the cached pathnames |
| DtreeProgram.Watcher.HandleMoveSelf | tlpi-dist/inotify/inotify_dtree.c:1022-1047 | a moved root is zapped with its subtree, by the pathname that is itself in the cache |
| DtreeProgram.Watcher.ProcessNextInotifyEvent | tlpi-dist/inotify/inotify_dtree.c:757-1056 | refines one step of the specification; consumes the bytes of one event, or of a pair, or the whole buffer, and defers only a single MOVED_FROM at the end of the buffer, on the first try, with nothing changed |
| DtreeProgram.Watcher.ReadMore | tlpi-dist/inotify/inotify_dtree.c:1131-1177 | the second read appends events in order; it times out, one byte short, only with nothing to read |
| DtreeProgram.Watcher.ProcessFront | tlpi-dist/inotify/inotify_dtree.c:1109-1181 | each round of the loop consumes events in order or defers once, and decreases the measure over unread events and firstTry |
| DtreeProgram.Watcher.ProcessInotifyEvents | tlpi-dist/inotify/inotify_dtree.c:1070-1182 | the loop ends, and however events are split over reads the outcome is that of handling the queue event by event |
| DtreeProgram.Watcher.OperateAndRespond | tlpi-dist/inotify/inotify_dtree.c:1070-1182 | the program as written keeps its array coherent with the tree exactly when the operation is not mishandled, and exits exactly when its list is empty, which is when no root is left |
| DtreeProgram.Watcher.OverrunAndRespond | tlpi-dist/inotify/inotify_dtree.c:1070-1182 | the program as written, in any state that it can be in, has an array coherent with the tree once it has reacted to an overflow |
| DtreeProgram.AfterConsumed | tlpi-dist/inotify/inotify_dtree.c:1109-1115 | advancing the pointer by the returned number of bytes leaves exactly the events not yet handled |
| NamespaceForest.NamespaceInfo.AddNamespace | tlpi-dist/namespaces/namespaces_of.go:249-268 | records a namespace and all above it, notes the member, adds children and members at the end only, and restores the links, for whatever is still without a place further down the recursion |
| NamespaceForest.NamespaceInfo.AddNamespaceToList | tlpi-dist/namespaces/namespaces_of.go:274-378 | a new entry, made before its parent's, ends up listed once under its true parent, at the root, or under the special entry |
| NamespaceForest.NamespaceInfo.AddProcess | tlpi-dist/namespaces/namespaces_of.go:402-455 | the files of one process extend what is represented by just its calls |
| NamespaceForest.NamespaceInfo.AddNamespacesForAllProcesses | tlpi-dist/namespaces/namespaces_of.go:460-481 | after the scan a namespace is recorded exactly if some namespace file of some process names it or one below it, each is listed once under its recorded owner, and a PID is among its members as often as files of processes with that PID name it |
| NamespaceForest.ReachedByOne | tlpi-dist/namespaces/namespaces_of.go:362-374 | a namespace is recorded exactly if it is at or above one that a scanned process is in |
| NamespaceForest.ScanExact | tlpi-dist/namespaces/namespaces_of.go:472-479 | what is recorded and who is a member, in terms of all processes and all their namespace files |
| NamespaceForest.MembersCount | tlpi-dist/namespaces/namespaces_of.go:261-265 | a PID is listed as often as its process was scanned in the namespace |
| NamespaceForest.OrderIrrelevant | tlpi-dist/namespaces/namespaces_of.go:460-481 | two scans of the same processes in different orders agree on root, namespaces, children and members |
| NamespaceForest.ChildrenExact | tlpi-dist/namespaces/namespaces_of.go:356-374 | a recorded namespace's children are exactly the recorded namespaces that it owns |
| NamespaceDisplay.TreeCounts | tlpi-dist/namespaces/namespaces_of.go:712-729 | the recursive display has each shown descendant once and nothing else |
| NamespaceDisplay.TreeLevels | tlpi-dist/namespaces/namespaces_of.go:712-729 | the level of a line is the depth below the starting point |
| NamespaceDisplay.TreeHeaded | tlpi-dist/namespaces/namespaces_of.go:718-728 | every shown namespace stands at the head of one block of lines, further indented, that show what is below it |
| NamespaceDisplay.TreeInTurn | tlpi-dist/namespaces/namespaces_of.go:724-728 | children stand in the order in which they are recorded, each with all that is below it |
| NamespaceDisplay.HierarchiesExact | tlpi-dist/namespaces/namespaces_of.go:781-795 | every recorded and selected namespace is displayed once at its depth; twice exactly if no root is recorded; the program crashes exactly if nothing is |
| NamespaceDisplay.HierarchiesOrdered | tlpi-dist/namespaces/namespaces_of.go:781-795 | so it is with the whole display, and what is below the root stands before what has an invisible owner |
| NamespaceDisplay.ShownOnce | tlpi-dist/namespaces/namespaces_of.go:785-795 | a scan that finds a process's user namespace, or anything in the PID hierarchy, displays each selected namespace once |
| NamespaceDisplay.ShownTwice | tlpi-dist/namespaces/namespaces_of.go:787-795 | a scan that finds one namespace with an owner out of sight is displayed twice; it takes a kernel without user namespaces |
| NamespaceDisplay.SubtreeExact | tlpi-dist/namespaces/namespaces_of.go:796-811 | with --subtree exactly the descendants of the chosen namespace are displayed, once, each shown one at the head of its block and children in their order; the program crashes exactly if the scan has not found the namespace |
| WrapText.Wrap | tlpi-dist/namespaces/namespaces_of.go:641-667 | the text is lines that fit, hold the words in order and are filled as far as possible |
| WrapText.StaysAhead | tlpi-dist/namespaces/namespaces_of.go:658-664 | line for line the greedy wrapping holds at least as many words as any acceptable one |
| WrapText.FewestLines | tlpi-dist/namespaces/namespaces_of.go:636-641 | no acceptable wrapping has fewer lines |
| WrapText.FieldsOfRender | tlpi-dist/namespaces/namespaces_of.go:641-667 | splitting the result on white space gives the words back |
| WrapText.WrapExact | tlpi-dist/namespaces/namespaces_of.go:636-667 | both together, for the text as a whole |
| WrapText.FieldsExact | tlpi-dist/namespaces/namespaces_of.go:645 | the words are the longest runs without white space, blank and tab to carriage return |
| WrapText.LineExact | tlpi-dist/namespaces/namespaces_of.go:661-662 | the words of a line have single blanks between them |
| WrapText.RenderExact | tlpi-dist/namespaces/namespaces_of.go:653-660 | each line has the indent before it, and newlines stand between lines |
| NotifyByThread.StepToken | tlpi-dist/pmsg/mq_notify_via_thread.c:59-85 | every step keeps either the process registered or exactly one thread yet to register, so that registration is never refused |
| NotifyByThread.StepDrainer | tlpi-dist/pmsg/mq_notify_via_thread.c:30-70 | every step keeps some thread yet to drain while the queue is not empty |
| NotifyByThread.ThreadsWork | tlpi-dist/pmsg/mq_notify_via_thread.c:46-70 | each step of a thread does exactly one unit of the work that is left |
| NotifyByThread.RestMeansDrained | tlpi-dist/pmsg/mq_notify_via_thread.c:46-57 | no work is left exactly when all threads are past their loops, and then everything sent has been received |
| NotifyByThread.NothingIsLost | tlpi-dist/pmsg/mq_notify_via_thread.c:29-103 | over all runs, thread counts and schedules: never refused, nothing lost or doubled, and all threads together take exactly the work left before everything has been received |
| NotifyByThread.Process.NotifySetup | tlpi-dist/pmsg/mq_notify_via_thread.c:72-85 | whatever senders and other threads do meanwhile, mq_notify() does not fail |
| NotifyByThread.Process.DrainQueue | tlpi-dist/pmsg/mq_notify_via_thread.c:29-57 | the loop ends for any finite supply of messages, with the invariants kept |
| NotifyByThread.Process.ThreadFunc | tlpi-dist/pmsg/mq_notify_via_thread.c:59-70 | when a thread is through, nothing has been lost, and if there is a message some other thread has yet to drain it |
| NotifyBySignal.StepKeeps | tlpi-dist/pmsg/mq_notify_via_signal.c:82-107 | every step keeps the chance to notice a message in exactly one of registration, pending signal, flag, and main before mq_notify() |
| NotifyBySignal.StepWork | tlpi-dist/pmsg/mq_notify_via_signal.c:82-107 | every step of the process but an idle round of the loop does some of the work that is left |
| NotifyBySignal.WorkIsNotIdle | tlpi-dist/pmsg/mq_notify_via_signal.c:82-107 | main does not idle with work left unless the signal is about to be delivered |
| NotifyBySignal.NothingIsLost | tlpi-dist/pmsg/mq_notify_via_signal.c:33-107 | over all runs: never refused; asleep with no flag and no signal the queue is empty and everything received; and without senders the work left is finite and always can go on |
| NotifyBySignal.Process.Handler | tlpi-dist/pmsg/mq_notify_via_signal.c:33-37 | the flag is set, and the invariants are kept between any two statements of main |
| NotifyBySignal.Process.Serve | tlpi-dist/pmsg/mq_notify_via_signal.c:83-103 | clearing the flag, registering and draining, with messages and signals in between, ends and never finds the process still registered |
| NotifyBySignal.Process.MainLoop | tlpi-dist/pmsg/mq_notify_via_signal.c:82-107 | after any number of rounds, with the flag clear and no signal pending everything sent has been received |
| ReapChildren.StepKeeps | tlpi-dist/procexec/multi_SIGCHLD.c:28-113 | every step keeps the counter equal to the children not reaped, zombies noticed, and each catch paid for by a child of its own |
| ReapChildren.NeverStuck | tlpi-dist/procexec/multi_SIGCHLD.c:109-113 | the parent is never suspended with only zombies left and nothing pending |
| ReapChildren.EveryChildIsReaped | tlpi-dist/procexec/multi_SIGCHLD.c:28-113 | every run ends within seven steps a child and three more, with every child reaped and between 1 and n catches |
| ReapChildren.EveryCountOccurs | tlpi-dist/procexec/multi_SIGCHLD.c:13-18 | each number of catches from 1 to n occurs: signals are not queued |
| ReapChildren.Process.SigchldHandler | tlpi-dist/procexec/multi_SIGCHLD.c:28-57 | the wait loop ends with every zombie reaped and counted, or a further signal pending, while children end at any time |
| ReapChildren.Process.SigSuspend | tlpi-dist/procexec/multi_SIGCHLD.c:108-112 | the suspended parent is woken, as there always is a child to do it |
| ReapChildren.Process.CreateAndReap | tlpi-dist/procexec/multi_SIGCHLD.c:59-119 | main() returns with all n children reaped, the counter at zero, and between 1 and n catches |
| ShmTransfer.Transfer.SemOp | Exercise/47/47_4.c:39-41 | waits for the other side, which always makes it possible in the end, or is interrupted |
| ShmTransfer.Transfer.ReserveSem | Exercise/47/47_4.c:30-44 | the retry loop outlasts interruptions and does not fail |
| ShmTransfer.Transfer.ReleaseSem | Exercise/47/47_4.c:46-56 | hands the turn over, and does not fail on a removed set |
| ShmTransfer.StepTurn | Exercise/47/47_4.c:30-56 | every step keeps one turn, with one side or in one semaphore, and meets no removed set |
| ShmTransfer.StepConserved | Exercise/54_1/poshm_xfr_writer.c:39-56 | every step keeps output, block in transit and unread input together equal to the input |
| ShmTransfer.StepAgree | Exercise/54_1/poshm_xfr_writer.c:39-56 | every step keeps the counts of bytes and blocks of both sides in agreement, although the writer reads cnt outside its turn |
| ShmTransfer.StepWork | Exercise/54_1/poshm_xfr_reader.c:27-46 | every step but an interrupted semop() brings both programs closer to their ends |
| ShmTransfer.NeverStuck | Exercise/54_1/poshm_xfr_reader.c:27-46 | one side can go on until both have ended |
| ShmTransfer.TransferIsExact | Exercise/54_1/poshm_xfr_writer.c:39-68 | for every input, buffer size, read sizes and interleaving: exclusive turns, nothing lost, removal after the reader's last access, termination, output equal to input, and both sides having counted the input's bytes and the blocks that read() brought in |
| ShmTransfer.Transfer.Write | Exercise/54_1/poshm_xfr_writer.c:39-71 | main() of the writer ends, with all of the input sent, after the reader's last access, and with equal counts on both sides |
| ShmTransfer.Transfer.Receive | Exercise/54_1/poshm_xfr_reader.c:25-49 | main() of the reader ends, having written exactly the input |
| SeqnumServer.FetchesResponse | Exercise/46_2/msg_seqnum_client.c:31-32 | the first message of a client's type is the response to it |
| SeqnumServer.StepKeeps | Exercise/46_2/msg_seqnum_server.c:25-37 | every step keeps each message meant for and about one client, and the grants without a gap |
| SeqnumServer.RepliesAreExact | Exercise/46_2/msg_seqnum_server.c:25-37 | over all runs and for all lengths no side takes a message meant for the other, every client gets its own grant, and each number granted is the one before plus the length asked for there |
| SeqnumServer.ConfusedIff | Exercise/46_2/msg_seqnum_client.c:25-32 | some run lets one side take a message meant for the other if and only if a client has process ID 1 and a request fits the queue |
| SeqnumRanges.ChainCovers | Exercise/46_2/msg_seqnum_server.c:30-36 | ranges without negative lengths that follow each other hold each number below their end once and no other |
| SeqnumRanges.MixedOverlap | Exercise/46_2/msg_seqnum_client.c:27 | a positive and then a negative length make the last number of the first range one that is given out again |
| SeqnumRanges.NegativeLengthOverlaps | Exercise/46_2/msg_seqnum_client.c:27 | lengths 5 and -3 do |
| SeqnumRanges.RangesIff | Exercise/46_2/msg_seqnum_server.c:25-37 | in every run each number is given out once, and those are the numbers below the count, if and only if lengths do not have both signs (or no request fits the queue) |
| SeqnumProgress.NeverStuck | Exercise/46_2/msg_seqnum_server.c:27-34 | with enough space somebody can go on until everyone is served |
| SeqnumProgress.EveryoneIsServed | Exercise/46_2/msg_seqnum_server.c:25-37 | with enough space every run serves all clients in exactly five steps each |
| SeqnumProgress.StuckIff | Exercise/46_2/msg_seqnum_server.c:33-34 | a standstill can be reached if and only if the queue cannot hold all requests and, full of requests, has no room for a response |
| SeqnumProgram.Service.Search | Exercise/46_2/msg_seqnum_client.c:31 | msgrcv() finds the first message of the type |
| SeqnumProgram.Service.Client | Exercise/46_2/msg_seqnum_client.c:25-34 | with enough space the client ends, and prints the start of the range granted to it |
| SeqnumProgram.Service.Serve | Exercise/46_2/msg_seqnum_server.c:25-37 | with enough space each round of the server ends, and the ranges follow each other up to its count |
| TailScan.OnePlace | Exercise/13/13_5.c:30-78 | at most one place follows the num-th newline from the end |
| TailScan.ScanBlock | Exercise/13/13_5.c:41-52 | counts the newlines of a block from its end, and stops behind the one that completes the count |
| TailScan.Scan | Exercise/13/13_5.c:28-78 | finds that place for every file, block size and num, and says what zero and negative num do |
| TailScan.Tail | Exercise/13/13_5.c:28-87 | the output is the file from that place on |
| TailScan.LastLinesIff | Exercise/13/13_5.c:1-4 | it is the last num lines if and only if the file does not end in a newline or has fewer than num of them; else it is one line short |
| TailScan.OneLineShort | Exercise/13/13_5.c:41-52 | of a file with the one line "a" the program prints nothing when asked for one line |
| TailScan.SizeIsIrrelevant | Exercise/13/13_5.c:33-77 | the block size does not influence the output |
| Environment.Environ.ShiftBack | tlpi-dist/proc/setenv.c:43-44 | the inner loop removes one entry in place and keeps the order of the rest |
| Environment.Environ.UnsetEnv | tlpi-dist/proc/setenv.c:24-53 | succeeds for every name that is not null, not empty and has no equals sign, and then exactly the entries defining it go; otherwise changes nothing |
| Environment.Environ.SetEnv | tlpi-dist/proc/setenv.c:56-81 | all outcomes: bad arguments, a definition to be kept, lack of memory with the definitions gone, and the one new definition behind the other entries |
| Environment.WithoutExact | tlpi-dist/proc/setenv.c:37-50 | no entry that defines the name is left, and every other occurs as often as before |
| Environment.WithoutConcat | tlpi-dist/proc/setenv.c:37-50 | the entries that stay keep their order |
| Environment.WithoutOne | tlpi-dist/proc/setenv.c:38-46 | removing one definition at a time, repeated and adjacent ones included, comes to the same |
| Environment.SetMeans | tlpi-dist/proc/setenv.c:56-81 | a setenv() that writes sets the name's value, changes no other name's, replaces an earlier one, and is undone by unsetenv() |
| AclParse.StrChr | tlpi-dist/acl/acl_update.c:87-97 | the first occurrence in the string, or none |
| AclParse.ParsePerms | tlpi-dist/acl/acl_update.c:152-170 | the set of permissions named, or an error at any other character |
| AclParse.CutTag | tlpi-dist/acl/acl_update.c:87-98 | the string is cut at its first colon in place, and qualifier and permissions are there exactly if their texts are not empty |
| AclParse.ParseEntrySpec | tlpi-dist/acl/acl_update.c:80-174 | fills in tag, ID and permissions of an entry that has the form tag:[qualifier][:[perms]], and fails on any other text; touches nothing but the string and one entry |
| AclParse.ParseAcl | tlpi-dist/acl/acl_update.c:181-209 | the number of comma-separated entries with all of them filled in, or -1 exactly if one is bad or there are more than 10000 |
| AclParse.EntryRoundTrip | tlpi-dist/acl/acl_update.c:66-77 | an entry that is written out is read back, in the short and the long form, with the ID of the user or group named |
| AclParse.BareRoundTrip | tlpi-dist/acl/acl_update.c:66-77 | so is an entry without permissions, as -x takes them, with or without a colon at the end |
| AclParse.GrammarExact | tlpi-dist/acl/acl_update.c:80-174 | a text is read as an entry if and only if it is one, in both modes: which tags, which IDs and which permission letters |
| AclParse.PiecesOfJoined | tlpi-dist/acl/acl_update.c:188-206 | texts joined with commas are split into the same texts |
| AclParse.JoinedPieces | tlpi-dist/acl/acl_update.c:188-206 | every text is its pieces with commas in between |
| AclUpdate.FileAcl.FindEntry | tlpi-dist/acl/acl_update.c:215-269 | the first entry with tag and, for named users and groups, qualifier |
| AclUpdate.FileAcl.SetPerms | tlpi-dist/acl/acl_update.c:273-296 | the entry has the new permissions, and no other entry changes |
| AclUpdate.FileAcl.Update | tlpi-dist/acl/acl_update.c:401-443 | the file has the effect of the longest run of entries that left the list valid, and success means all of them |
| AclUpdate.SetMeans | tlpi-dist/acl/acl_update.c:411-427 | only the given key is overridden, keys stay unique, and old entries keep their places |
| AclUpdate.DeletedMeans | tlpi-dist/acl/acl_update.c:404-407 | only the given key goes, and keys stay unique |
| AclUpdate.ClassPermsExact | tlpi-dist/acl/acl_update.c:432-434 | a permission is in the mask exactly if an entry of the group class has it |
| AclUpdate.MaskIsNoMember | tlpi-dist/acl/acl_update.c:432-434 | storing the mask does not change what the mask should be |
| AclUpdate.StepsMean | tlpi-dist/acl/acl_update.c:401-434 | -m overrides from left to right and -x removes, every other key is unchanged, keys stay unique, and a recalculated mask is the union of the group class |
| AclUpdate.EntriesAfter | tlpi-dist/acl/acl_update.c:401-427 | an entry of the outcome has the permissions of the last entry specified for the same tag, user or group, and if there is none, what it had |
| AclUpdate.EntryStays | tlpi-dist/acl/acl_update.c:401-427 | what is not named stays, and with -m what is named is there |
| AclUpdate.MaskExact | tlpi-dist/acl/acl_update.c:432-434 | a recalculated mask is there and has a permission if and only if some entry has it that is not the owner's, the others' or the mask |
| AclUpdate.ValidExact | tlpi-dist/acl/acl_update.c:438-439 | what acl_valid() demands, entry by entry |
| AclUpdate.ModifySucceedsIff | tlpi-dist/acl/acl_update.c:60-62 | -m on a valid list succeeds if and only if the mask is recalculated, exists, or comes before each named entry |
| AclUpdate.RemoveSucceedsIff | tlpi-dist/acl/acl_update.c:404-443 | -x on a valid list succeeds if and only if it names no base entry and does not take the mask from under named entries |
| AclUpdate.EmptyStaysEmpty | tlpi-dist/acl/acl_update.c:438-439 | no specification creates a default list where there is none |
| UsernsWalk.IsAncestorUserns | tlpi-dist/namespaces/ns_capable.c:175-218 | finds the child of x on the chain from y exactly if x is a proper ancestor of y |
| UsernsWalk.OneChild | tlpi-dist/namespaces/ns_capable.c:165-172 | there is one such child for a proper ancestor and none otherwise |
| UsernsWalk.HasIff | tlpi-dist/namespaces/ns_capable.c:288-298 | the recursive rules of user_namespaces(7) in terms of the chain of ancestors |
| UsernsWalk.Judge | tlpi-dist/namespaces/ns_capable.c:250-322 | which of the three verdicts is printed, and that it grants a capability exactly if the rules do, for every process, target and capability |

## Left out

- RunStaysCoherent: after a mishandled rename and before the next overflow, what is wrong with the cache is not said beyond `EveryRunHeals`. Each operation's events are processed before the next operation, as the program itself treats races only heuristically (lines 890-922); `EveryRunHeals` holds with races.
- Enabled: an exchange of two directories, renameat2() with RENAME_EXCHANGE, is not an operation of the model. The program mishandles one of two watched directories: it sees two renames and moves the pathnames of both subtrees to the same place. Mounting and unmounting inside a tree are no operations either, although the event of an unmounted directory is handled.
- Link: a root has a place if its pathname goes through the directory that it is an entry of. A relative pathname does not go through the working directory or those above it, and stays true when one of them is renamed; a root without a place cannot have a directory above it renamed.
- RmdirOp: a removed directory is taken to be gone at once; one that somebody still has open sends its event only when it is closed.
- ProcessInotifyEvents: reads with the default buffer size; a size given with `-b` that is smaller than the next event makes `read()` fail, which ends the program.
- RewriteCachedPaths: pathnames are not cut off at PATH_MAX, a limitation that the program states.
- WatchSubtree: nftw() may visit in any order, but does so as a function of tree and pathname, and the tree does not change during the walk; `-a`, the consistency check of the cache and the interactive commands are not modelled.
- Kernel: watch descriptors do not wrap around, and other errors of system calls, which end the program, do not occur; root pathnames do not end in a slash and none is at or below another.
- AddNamespacesForAllProcesses: namespaces have no cycles, parents of user namespaces are user namespaces, and at most one namespace is topmost and visible; opening namespace files, their descriptors, and the UID and GID maps are not modelled.
- Wrap: characters stand for bytes, and the blanks are the ASCII ones; white space beyond ASCII is not taken for a separator.
- NotifyByThread.NothingIsLost: the kernel is taken to start the notification thread at once; the system's limits on messages and threads are not modelled.
- NotifyBySignal.NothingIsLost: nobody else sends the notification signal.
- EveryChildIsReaped: SIGCHLD is raised by children that end only, not by children stopped or resumed, and fork() does not fail.
- TransferIsExact: the reader starts after the writer has initialized the semaphores and created the segment; counters are unbounded, and errors other than interruptions do not occur.
- RepliesAreExact: no client has process ID 1, the case of `ConfusedIff`; sequence numbers are unbounded integers, and each process ID makes one request at a time.
- StuckIff: the queue's limit is on bytes of message bodies; the file through which clients learn the queue's identifier is not modelled.
- Client: the programs of the service are run with enough space in the queue, the others' requests being finite in number; what happens without is in `StuckIff`.
- MainLoop: the endless loop of `mq_notify_via_signal.c` is cut off after any number of rounds; that of the server in `Serve` after one for each client.
- The processes are interleaved by whole statements of the C programs; what a processor or compiler may reorder between two is not modelled.
- SetEnv: strings have no null characters in them; `putenv()` and `getenv()` are those of the C library, with a definition replaced where it is or added behind the others.
- Update: the order of entries in the library's list is that of their creation; the loop over several files, `-k` and `-V` only repeat or omit what is modelled.
- Judge: namespaces are identities; the descriptors that the walk closes, the first of which is its caller's, are not modelled, nor are security modules.
- Logging, colours, usage messages, option parsing, terminal width and other user interface.
- The FIFO sequence servers, the other namespace programs and the smaller examples: the same ideas again, or single expressions.
