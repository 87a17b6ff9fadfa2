# Verified models of hakurei

A Dafny project that models the parts of hakurei whose correctness depends on more than one
function, and proves what they promise. `dafny verify dfyconfig.toml` checks all of it.

## What is modelled

**The life of an instance.** Instances of one identity share a store segment on disk and the
resources of one host. `Enablements` is the byte of enablements, the scopes of operations and the
criteria a cleanup computes; `Store` is the entry header and the segment's directory; `SystemOps` is
the reversible operations (directories, hard links, access control entries, X11 hosts) with the
transaction `Commit`/`Revert`; `Transactions` says what such a transaction undoes. `Lifecycle` turns
the process into a state machine and puts any number of them side by side: a history is any
interleaving of their steps, with failing calls, torn writes, partial commits and crashes
(`LifecycleInvariants`, `LifecycleSafety`, `LifecycleClean`, `LifecycleUnlocked`,
`LifecycleLimits`). `Process` is the main loop itself, a class with the loop's variables whose events are proved to be a run of that state
machine.

**The mount tree.** `Unfold` edits first-child and next-sibling links on the heap through a slot, as
the source does through a pointer to a pointer; `MountTable` is the order theory its result is
stated in; `MountWalk` says which nodes a walk meets and when it ends, and `MountPaths` how that compares
with a walk by path component; `Collective` is the walk with a consumer that may stop it; `MountLookup`
is how the kernel finds the mount at a path, crossing what is mounted on the way; `Remount` unfolds the
table and applies mount flags, by path, to the root and what the walk from it yields; `RemountVisible`
compares that with the mounts visible by path component.

**Locks and files.** `FileLock` is the table of inode locks and hand-off channels, in steps that
interleave wherever another goroutine may come in. `LockedFile` is the replacement of a file's
contents with a deferred rollback, over writes that fail half way.

**Codecs and streams.** `Text` and `Numerals` are splitting, joining and numerals. On them stand
`Ldd`, `DBusAddress`, `MountInfo`, `Overlay` and `Hsu`, each with its printer or reader as partner.
`LinePrefix` and `Output` are writers whose fields are a function of the bytes written.

Failing system calls, the host's directories, the kernel's mounts and the order of goroutines are
parameters or steps chosen freely. Members named in the table state their properties for every
value of them.

## Where a plain promise is not what the code does

- `Commit` says that it reverts all operations that succeeded. Its rollback uses the nil criteria,
  which leaves the user scope in place (`Transactions.RollbackKeepsUserScope`) and takes enablement
  scopes from a peer that needs them (`LifecycleLimits.RollbackStripsPeer`).
  `Transactions.RollbackRestoresIff` says exactly when the host is restored, whatever was there before.
- An update of an access control entry replaces the one a peer relies on: the commit of an instance
  with other permissions at the same path, or with none, takes them from a committed one
  (`LifecycleLimits.CommitLessensPeer`), as ensuring a directory with another mode does to its mode.
  `LifecycleSafety.RetainedThroughoutIff` says exactly which steps take away what an instance relies on,
  where cleanups obtain the segment lock: such a commit, such a rollback, or the revert of an operation
  whose scope is not that of the grant it strips.
- A cleanup that could not lock the segment goes on. It can strip a peer
  (`LifecycleLimits.UnlockedCleanupStripsPeer`). `LifecycleUnlocked.RevertMeetsIff` says exactly which
  peers its reverts meet, and `LifecycleUnlocked.LooseRetainedIff` which steps take something away when
  cleanups may go on without the lock.
- An ephemeral directory that already existed is removed with the instance
  (`Transactions.ExistingDirectoryIsLost`), and a directory that existed is left with the mode it was
  ensured with. `Transactions.RestoresIff` gives the exact condition for any host and any criteria,
  `Transactions.RestoresIffClean` that for a revert of everything but the ensured directories.
- `Unfold` compares paths as strings, so a mount at `/db` vanishes beside one at `/d`, with everything
  below it (`MountPaths.NeighbourIsLost`, `MountPaths.SubtreeIsLost`); `MountPaths.TopmostMetIff` says
  when the walk meets what its documentation describes.
- `remount` gives the kernel the path of a node, and a covered root is not what its path leads to: the
  mount over it then gets the flags of the root, and can lose one (`Remount.TuckedMountLosesFlag`).
  `Remount.RemountExactIff` gives the exact condition. Mounts that `Unfold` loses are not remounted;
  `RemountVisible.AllVisibleHaveIff` says when all mounts visible below the target are.
- `unescapeValue` sizes its buffer from the number of percent signs and indexes past it when too many
  of them start no escape (`DBusAddress.StrayPercentsPanic`). `DBusAddress.UnescapeValue` characterises
  all inputs on which that happens, and `DBusAddress.CompleteIsSafe` rules it out for complete escapes.
- `parseUint32Fast` accepts ten digits and wraps, so a line written for one number authorises another
  (`Hsu.ForeignEntryMatches`); `Hsu.FastIsExactIff` gives the exact condition.
- The last bounds check of hsu refuses the last uid of the range it names (`Hsu.BoundsCheckFiresIff`).
- A write that loads the suspended state just before `Resume` can stay in the buffer after it
  (`Output.LateWriteIsHeld`); `Output.EmptiesIff` gives the exact condition.

## Model

| member | source | states |
|---|---|---|
| Enablements.CriteriaMeans | internal/outcome/process.go:270-308 | the criteria of a cleanup reverts a service exactly if no surviving header holds it, the process scope always, and the user scope exactly if no entry loads or one carries a stray user bit |
| Enablements.AccumulateMeans | internal/outcome/process.go:278-293 | the accumulated bits and count say, bit by bit, whether some surviving entry that loads holds the bit and whether any loads |
| Enablements.ScopeSpared | internal/outcome/process.go:295-308 | a scope that a cleanup leaves alone is one a surviving entry accounts for |
| Store.HeaderRoundTrip | internal/store/header.go:24-45 | a header decodes to an enablement byte if and only if it is that byte's encoding, so the format has no slack |
| Store.TornWrite | internal/store/header.go:32-86 | an entry torn at any byte either does not load or reports its writer's enablements |
| Store.Segment.Save | internal/store/segment.go:61-72 | an existing identifier is refused without effect; a save that succeeds loads with its enablements; a torn one leaves the exact prefix written |
| Store.DestroyUndoesSaveIff | internal/store/segment.go:45-72 | a save and a destroy give back the segment as it was if and only if the identifier was new and the file could be made, however much of it was written, and a save touches no other entry |
| Store.DestroyForgets | internal/store/segment.go:45-55 | after a destroy a scan obtains the headers it would have obtained of the others, a listing lacks exactly the entry, and its identifier can be saved again |
| Store.Segment.Scan | internal/outcome/process.go:285-293 | the loop yields the bits and the number of the headers that load, skipping the others |
| SystemOps.I.Commit | internal/system/system.go:115-147 | all operations take effect, or those before the first failing one are reverted, last first, under the nil criteria; the calls made are exactly these, in this order |
| SystemOps.I.ApplyAll | internal/system/system.go:135-142 | operations are applied in order up to the first that fails, and exactly the ones before it are registered for rollback |
| SystemOps.I.RevertAll | internal/system/system.go:149-164 | every operation is reverted once, last first, whatever fails, and the failures are reported |
| Transactions.UndoOneIff | internal/system/mkdir.go:34-61 | the revert of an operation right after it was applied gives the host back if and only if what it grants was not there |
| Transactions.RestoresIff | internal/system/system.go:115-164 | for any host, any accepted operations and any criteria, a commit and its revert restore the host without an error if and only if of what was there nothing is stripped and the last operation on it changes nothing, each new path is removed once and after its children, and what else is new is stripped or cleared |
| Transactions.RestoresIffCleared | internal/system/system.go:115-164 | where no new path is created twice, the condition for a new path is that some reverted operation removes it |
| Transactions.RestoresIffClean | internal/system/system.go:115-164 | a commit and a revert of everything but ensured directories restore the host without an error if and only if ensured directories were there with their mode, or go with an ephemeral one at the same path, and all other grants are new, with paths that are removed once and after their children |
| Transactions.UndoSucceedsIff | internal/system/system.go:149-164 | a revert meets no error if and only if each path it is to remove is there, is removed by no operation reverted before, and has no child left when its turn comes |
| Transactions.UndoRemoves | internal/system/link.go:29-42 | a revert without errors adds nothing, leaves none of the keys its reverted operations granted, and every path it removed was there and removed by one of them only |
| Transactions.ExistingDirectoryIsLost | internal/system/mkdir.go:37-56 | an empty directory that existed before an ephemeral one is applied to it is gone after the revert |
| Transactions.RollbackRestoresIff | internal/system/system.go:124-142 | the rollback of a partial commit restores any host under exactly that condition for the operations that took effect and the nil criteria |
| Transactions.RollbackKeepsUserScope | internal/system/system.go:25-32 | a user-scoped access control entry outlives the rollback of its own commit |
| Transactions.AcceptedMeans | internal/system/system.go:135-142 | a commit has no failing operation exactly if each is accepted by the host its predecessors leave and none faults |
| LifecycleInvariants.RunKeepsInv | internal/outcome/process.go:142-323 | in every orderly history of any number of instances the holder of the lock is the one in a locked phase, every committed instance has an entry that loads with its enablements, and every criteria in use spares what committed instances need |
| LifecycleInvariants.ScanSpares | internal/outcome/process.go:264-308 | a scan under the lock, after the instance's own entry is gone, yields a criteria that spares all committed instances |
| LifecycleSafety.UserScopeRevertedLast | internal/outcome/process.go:295-308 | in every such history, with failed commits and crashes, a user-scoped operation is reverted only when no other instance is committed |
| LifecycleSafety.StepRetainsIff | internal/outcome/process.go:181-323 | a step keeps in place what committing and committed instances rely on, modes and permissions included, if and only if it does not apply an operation that gives a peer less, roll back one that strips a grant of a peer, or revert one that strips a grant of a peer in another scope |
| LifecycleSafety.GrantsRetained | internal/outcome/process.go:142-323 | without such steps no shared grant is ever missing, nor a permission of it, while an instance relies on it |
| LifecycleSafety.RetainedThroughoutIff | internal/outcome/process.go:142-323 | an orderly history keeps all shared grants relied on in place at every point if and only if it has no such step |
| LifecycleSafety.SeparateRetains | internal/system/system.go:25-32 | instances that have in common only ensured directories and user-scoped grants, and give each other no less at a path, keep all they rely on in every orderly history |
| LifecycleUnlocked.RevertMeetsIff | internal/outcome/process.go:253-323 | whether or not cleanups got the lock, a revert in a scope meets exactly those registered peers naming it that are in service and saved their entries after the scan behind the revert; every other live peer naming it saved after it too |
| LifecycleUnlocked.LooseRetainedIff | internal/outcome/process.go:142-323 | whether or not cleanups got the lock, a history keeps all shared grants relied on in place at every point if and only if it has none of the steps above and no revert strips what is relied on by a peer that saved after the scan or is about to scan itself |
| LifecycleClean.RunConserves | internal/outcome/process.go:270-323 | in fault-free histories of instances with the same shared grants every grant on the host was there before, is an ensured directory, or will be reverted by an instance still running |
| LifecycleClean.NothingLeftBehind | internal/outcome/process.go:270-323 | once all of them have finished, only grants from before the first and ensured directories are left |
| LifecycleLimits.CompleteLife | internal/outcome/process.go:142-323 | a history that meets all the assumptions above, reverts in user scope, finishes and gives the host back as it was |
| LifecycleLimits.RollbackStripsPeer | internal/system/system.go:25-32 | a history in which the failed commit of one instance takes the X11 entry of a committed one |
| LifecycleLimits.CommitLessensPeer | internal/acl/libacl-helper.c:8-86 | a history without faults and reverts in which two proper instances commit, and the second leaves the entry of the first without a permission, or removes it when it asks for none |
| LifecycleLimits.UnlockedCleanupStripsPeer | internal/outcome/process.go:257-262 | a history of proper instances on a proper host, in which nothing goes wrong but that a cleanup fails to lock the segment, and a user-scoped grant of a committed instance is stripped |
| Process.Outcome.Run | internal/outcome/process.go:114-331 | the states strictly increase to the final one, no lock is held at a loop head, the pipe is nil when waiting, the events are a complete run of the local program, the payload is served only while committed, and the exit code is non-zero if an error was reported |
| Process.Outcome.ProcessCleanup | internal/outcome/process.go:253-323 | a cleanup destroys the entry, reverts exactly if the instance had committed, and ends unlocked |
| Process.Outcome.ProcessCommit | internal/outcome/process.go:142-189 | a commit state ends committed and ready to serve, or doomed with the pipe closed and the handle known if an entry may exist; the lock is released either way |
| Process.RevertOncePerCommit | internal/outcome/process.go:181-322 | a process completes a commit at most once, and by its end has completed a revert exactly if it completed a commit |
| MountTable.InsertIsNext | container/vfs/unfold.go:92-109 | the insertion rule turns the prefix-minimal entries among the first n into those among the first n+1, so that a dropped entry never changes a list |
| MountTable.CoveredArrival | container/vfs/unfold.go:95-98 | an entry that some sibling covers would not have removed any sibling, as siblings are an antichain |
| Unfold.Unfold | container/vfs/unfold.go:43-113 | the children of every node are the finite list, in table order, of exactly the prefix-minimal entries that name it as parent and extend the target; a node is covered exactly if one such entry has its path; the root is the last entry at the target |
| Unfold.UnlinkCovered | container/vfs/unfold.go:93-105 | the walk over the siblings unlinks in place exactly those the new entry covers, up to a sibling that covers it, in which case the list is as before |
| Unfold.InsertChild | container/vfs/unfold.go:92-109 | the list of a parent after an entry arrives is the insertion of the entry |
| Unfold.Collect | container/vfs/unfold.go:54-70 | the lookup maps an identifier to the last entry that has it, and the target index is the last entry at the target |
| MountWalk.WalkEndsIff | container/vfs/unfold.go:30-40 | the walk from a node ends if and only if the node is not its own ancestor, whatever cycles the rest of the table has |
| MountWalk.WalkMeets | container/vfs/unfold.go:26-40 | a walk yields a node if and only if child links lead to it and it is not covered |
| MountWalk.WalkOnce | container/vfs/unfold.go:26-40 | a walk that ends yields no node twice |
| MountPaths.TopmostMetIff | container/vfs/unfold.go:25-40 | the walk from the root meets exactly the mounts a walk by path component meets if and only if below it no entry has a name extending the path of another child of its parent without an ancestor or an earlier equal among them |
| MountPaths.MinimalByPath | container/vfs/unfold.go:95-104 | with a slash after every path the same selection compares component by component, which is what the walk by path component is |
| MountPaths.SubtreeIsLost | container/vfs/unfold.go:95-104 | with such an entry everything below it by path is unmet |
| MountPaths.NeighbourIsLost | container/vfs/unfold.go:95-104 | a table in which a topmost mount is not reached from the root, as its name extends a neighbour's |
| Collective.Visit | container/vfs/unfold.go:30-40 | the consumer gets the visible nodes in preorder, up to and including the first it refuses |
| Collective.TakenMeans | container/vfs/unfold.go:30-40 | what is delivered ends right after the first refusal, or is everything |
| Remount.Flags | container/vfs/mountinfo.go:100-126 | a flag is set exactly if some option names it, and the unmatched options are the others but rw |
| Remount.FlagsOfRender | container/vfs/mountinfo.go:100-126 | the flags read from the options a kernel prints for a mount are its flags, whatever options that are no flags it adds |
| Remount.RemountWithFlags | container/mount.go:163-175 | one call at the cleaned path of the node, with the flags its options name and the wanted ones, and none if they are among them; what changes is the mount the kernel finds at that path |
| Remount.Remount | container/mount.go:101-160 | unfolds the table, remounts the root and then what the walk from it yields; without failing calls the flags are those the calls give to the mounts their paths lead to; where paths lead to their own mounts only the root and what is yielded change, by gaining all wanted flags, whatever fails; if all have them no call is made; without a mount at the target nothing happens |
| Remount.RemountExactIff | container/mount.go:133-159 | whatever flags the mounts had, a remount without failing calls gives NOSUID and the requested NODEV and RDONLY to exactly the root and the mounts yielded, and takes no recognised flag from any, if and only if the root is not covered and the kernel's lookup of the target comes by it |
| RemountVisible.AllVisibleHaveIff | container/mount.go:133-159 | whatever flags the mounts had, a recursive remount without failing calls leaves the root and every mount visible below the target by path with NOSUID and what was requested if and only if the root is not covered, the kernel's lookup of the target comes by it, and no entry is lost to the walk |
| RemountVisible.MissedKeepTheirs | container/mount.go:143-159 | where the target leads to the root, they all have them in the end if and only if the visible mounts that the walk misses had them before |
| Remount.TuckedMountLosesFlag | container/mount.go:162-175 | a table with a mount tucked over the root: that mount loses its noexec and the root is left without nosuid |
| MountLookup.TopOfVisible | container/mount.go:147-155 | where the target leads to the root, the path of every mount the walk yields leads to that mount |
| MountLookup.TopIsRootIff | container/mount.go:135-142 | the target leads to the root if and only if nothing covers the root and the lookup comes by it |
| Remount.RemountAgain | container/mount.go:133-159 | where the target leads to the root, after a remount without failing calls exactly the root and the mounts yielded have gained the wanted flags, and the same remount with the table read again makes no call |
| FileLock.RunKeepsInv | internal/lockedfile/internal/filelock/filelock_fcntl.go:48-195 | every reachable state of the two maps: named files are those with a call under way, owners are past their wait, and queues hold the waiters' channels in order of arrival |
| FileLock.Exclusive | internal/lockedfile/internal/filelock/filelock_fcntl.go:71-87 | no two files are past their wait for one inode |
| FileLock.QueuedOnce | internal/lockedfile/internal/filelock/filelock_fcntl.go:79-87 | a waiter's channel is queued once, for its inode, at the waiter's place, and the inode has an owner past its wait |
| FileLock.WaiterIsQueued | internal/lockedfile/internal/filelock/filelock_fcntl.go:79-87 | every waiter is in the queue of its inode |
| FileLock.GrantedInTurn | internal/lockedfile/internal/filelock/filelock_fcntl.go:178-191 | over any run a file with k waiters before it is granted by exactly the grant number k, and waits, moving up by one with each grant, until then |
| FileLock.ReceiveHasSender | internal/lockedfile/internal/filelock/filelock_fcntl.go:186-189 | whenever a receive is pending under the mutex exactly one file has the other end, and its steps up to the hand-over need no mutex |
| FileLock.PanicsIffNotPastWait | internal/lockedfile/internal/filelock/filelock_fcntl.go:163-175 | unlock panics on a file if and only if the file is not past its wait |
| FileLock.Filelock.Enter | internal/lockedfile/internal/filelock/filelock_fcntl.go:59-83 | the critical section of lock: changed inode exactly for a holder that is now on another inode, ownership at once, or a channel of its own at the end of the queue |
| FileLock.Filelock.Check | internal/lockedfile/internal/filelock/filelock_fcntl.go:163-175 | the first critical section of unlock: panics exactly if the file is not the owner, otherwise fixes the inode for the second |
| FileLock.Filelock.Finish | internal/lockedfile/internal/filelock/filelock_fcntl.go:179-194 | the second critical section of unlock: frees an inode nobody waits for, or keeps the mutex for a receive from the head of the queue |
| FileLock.Filelock.Receive | internal/lockedfile/internal/filelock/filelock_fcntl.go:186-194 | the hand-over makes the sender the owner, removes its channel and releases the mutex |
| LockedFile.File.Transform | internal/lockedfile/lockedfile.go:133-189 | nil exactly if nothing failed, and then the file holds the new bytes; earlier failures leave the file alone; otherwise the error is that of the first failing call |
| LockedFile.File.Replace | internal/lockedfile/lockedfile.go:150-188 | for any lengths and any partial write: the first failing call decides the error; the old bytes survive a failing tail, and survive any failure if the rollback's write succeeds |
| LockedFile.OldOrNew | internal/lockedfile/lockedfile.go:133-136 | after any failure, if the calls of the rollback succeed the file is as before |
| Ldd.StringReadsBackIff | ldd/ldd.go:78-150 | an entry is read back from its text if and only if its name is one non-empty trimmed word and its path, if any, one word |
| Ldd.TableReadsBack | ldd/ldd.go:189-238 | any list of such entries is decoded from their lines, with or without a blank line first and last |
| Ldd.RestSucceedsIff | ldd/ldd.go:189-217 | decoding ends without an error if and only if every line reads, but for a blank last one |
| Ldd.BlankLineFails | ldd/ldd.go:200-206 | a blank line with input after it ends decoding with the newline error, after the entries before it |
| Ldd.EmptyReadsBack | ldd/ldd.go:189-217 | input of nothing or of one blank line decodes to no entries and no error |
| Ldd.Decoder.Scan | ldd/ldd.go:189-217 | each call takes one entry off what is pending, and a refusal reports the error that is pending and stays |
| Ldd.Decoder.Decode | ldd/ldd.go:219-238 | the loop returns all pending entries and the first error, or the scanner's own if there is none before it |
| DBusAddress.UnescapeValue | internal/dbus/address.go:68-123 | for every input the loop returns what the longest start of plain bytes and escapes decides: the bytes, the fault of what follows, or the index panic exactly if the buffer is too small for that start or for the byte of a bad escape after it |
| DBusAddress.ScanUsesRoom | internal/dbus/address.go:68-73 | each decoded byte uses up one byte of the room that was made, whatever follows |
| DBusAddress.CompleteIsSafe | internal/dbus/address.go:68-123 | on values whose percent signs all start complete escapes there is no panic, and a success fills the buffer exactly |
| DBusAddress.StrayPercentsPanic | internal/dbus/address.go:69-73 | a value without complete escapes on which the buffer is too small |
| DBusAddress.UnescapesIff | internal/dbus/address.go:68-123 | a text unescapes to a value if and only if it spells it with plain and escaped bytes |
| DBusAddress.PrintedParses | internal/dbus/address.go:25-66 | entries printed as the Server Addresses section of the D-Bus Specification gives them are parsed back, with and without the final semicolon |
| DBusAddress.ParsedIsPrinted | internal/dbus/address.go:25-66 | an address that parses is such a print of the entries it parses to |
| DBusAddress.Parse | internal/dbus/address.go:25-66 | success reads every segment; an error names the first bad segment, the first bad pair in it and what is wrong with it, and the entries returned beside it are those read, what the bad one got to, and empty ones |
| MountInfo.Unmangle | container/vfs/mangle.go:5-30 | the loop over the byte array replaces each three-digit octal escape below 128, the write index never passing the read index |
| MountInfo.UnmangleInvertsIff | container/vfs/mangle.go:5-30 | among the sets of bytes that hold the backslash, the ones whose octal escaping is always undone are those below 128 |
| MountInfo.StringParses | container/vfs/mountinfo.go:197-291 | an entry without spaces and backslashes, its required fields non-empty, with any optional fields, is parsed back from its String |
| MountInfo.KernelLineParses | container/vfs/mountinfo.go:197-272 | a line with the strings escaped as in proc_pid_mountinfo(5) gives back every string, spaces and backslashes included |
| MountInfo.DevnoReadsBack | container/vfs/mountinfo.go:221-227 | the device number pair is scanned back from its decimal print, negative numbers included |
| MountInfo.MountInfoDecoder.Decode | container/vfs/mountinfo.go:134-195 | all lines parse and give the entries in order, or the first that does not is reported with its number, or a failure to read, which comes first once the scanner knows of it |
| MountInfo.MountInfoDecoder.Scan | container/vfs/mountinfo.go:170-195 | a line that parses is added, anything else completes the decoder, which then stays as it is |
| Overlay.SegmentSurvivesIff | container/check/overlay.go:15-29 | removing the escapes of an escaped segment gives it back if and only if it holds no NUL |
| Overlay.NulMerges | container/check/overlay.go:20-22 | paths that differ only after a NUL are escaped alike |
| Overlay.DataReadsBack | container/initoverlay.go:120-205 | splitting the mount data at unescaped commas, its lower layers at unescaped colons, and removing escapes recovers every path in order |
| Overlay.DataInjective | container/initoverlay.go:120-205 | different layers are mounted with different data |
| Overlay.MountOverlayOp.Early | container/initoverlay.go:120-164 | success escapes exactly the resolved paths in order; an unexpected upper directory and a missing one of the pair are errors |
| Overlay.MountOverlayOp.Apply | container/initoverlay.go:166-206 | readonly needs two lower layers and writable one; otherwise a mount call is made with the options in order, and its failure returned; a target that cannot be made ends it before |
| Overlay.MountOverlayOp.Mount | container/initoverlay.go:120-206 | early and then apply: a mount that is not ephemeral is made with the data of the resolved layers, which by the rows above reads back as them |
| LinePrefix.LinePrefixWriter.Write | internal/system/dbus.go:159-193 | after any writes, however cut, the fields are a function of the bytes consumed; bytes are consumed up to the first start of a line at or past the threshold, and an error is returned exactly if some are left |
| Output.Suspendable.Write | message/output.go:32-55 | within a suspension the buffer is the first 2^24 bytes written and dropped counts exactly the rest; otherwise the bytes go downstream at once, as many as it takes; an error is returned exactly if some are left over |
| Output.Suspendable.Resume | message/output.go:64-77 | a suspension ends with its buffer downstream and its drops reported, and nothing held |
| Output.RunConserves | message/output.go:32-77 | over all interleavings of the steps the bytes routed to the buffer are those flushed, held, reported lost or counted as dropped, and bytes are dropped only beside a full buffer |
| Output.FlushedInOrder | message/output.go:32-77 | over all interleavings the bytes stored come out once each and in order |
| Output.LateWriteIsHeld | message/output.go:33-42 | an interleaving that leaves a byte in the buffer with no suspension and no call under way |
| Output.EmptiesIff | message/output.go:32-77 | after a suspension has ended the buffer is empty, in every interleaving in which all calls return and no new suspension begins, if and only if no bytes are between the two steps of a write and whatever is held is going to be flushed |
| Output.QuietEnd | message/output.go:32-77 | if no bytes are between those steps nothing enters the buffer before the next suspension, and it is empty once flushed |
| Hsu.ParseUint32Fast | cmd/hsu/parse.go:23-41 | one to ten digits give their value modulo 2^32; anything else the error for its length or its first bad character |
| Hsu.FastIsExactIff | cmd/hsu/parse.go:32-40 | the result is the number written if and only if it fits 32 bits |
| Hsu.FastFormat | cmd/hsu/parse.go:23-41 | every 32-bit number is read back from its numeral |
| Hsu.ParseConfig | cmd/hsu/parse.go:51-82 | succeeds exactly if the first line for the uid has a userid in range and every line before it is valid for another uid; every error names the line and its fault |
| Hsu.FileReadsBack | cmd/hsu/parse.go:44-82 | in a file printed from mappings the first mapping of each uid is the one that counts |
| Hsu.WrappedParent | cmd/hsu/parse.go:32-40 | a ten-digit number past 32 bits stands for the uid it wraps round to |
| Hsu.ForeignEntryMatches | cmd/hsu/parse.go:66-72 | an entry for another number is the one found for uid 1000 |
| Hsu.ToUserNamed | cmd/hsu/hst.go:16-16 | in range there is no overflow, division and remainder give userid and identity back, and the name spells them |
| Hsu.ToUserInjective | cmd/hsu/hst.go:16-16 | different userid and identity give different uids |
| Hsu.NameIsUnique | hst/grp_pwd.go:38-48 | no two uids share a name |
| Hsu.BoundsCheckFiresIff | cmd/hsu/main.go:96-109 | the final check fires if and only if userid and identity are both the last of their range |

## Left out

- The containers themselves, namespaces, seccomp, the shim, signals and timers: the lifecycle sees them as steps that succeed or fail.
- Operations on wayland sockets, cgroups, copied files and the message bus proxy process: each is process-scoped, straight-line, or owns resources no other instance shares.
- Access control entries are keyed by path for the one target uid, hard links do not share them, and the modes of files other than directories are not modelled.
- Store.Segment.Scan: names in the directory that are no identifiers are not modelled; they do not load and so count as nothing.
- The segment lock is one mutex in `Lifecycle`; how it is made from a lock file is not part of that module.
- LifecycleSafety.UserScopeRevertedLast: assumes that a cleanup obtains the segment lock, that a listing is complete and that entries of committed instances can be read; `LifecycleUnlocked` does without the lock.
- LifecycleUnlocked.RevertMeetsIff: a peer that has destroyed its entry and not yet scanned is on its way out and counts as unregistered.
- LifecycleSafety.StepRetainsIff: relying on a hard link or an X11 host entry means that it is there, on a directory that it has the mode it was made with, on an access control entry that it has at least the permissions asked for; process-scoped grants are an instance's own and no other is taken to rely on them.
- LifecycleClean.NothingLeftBehind: assumes that instances share the same user-scoped and enablement-scoped grants; where they do not, the last one to hold a grant may not be the last to finish.
- Unfold.Unfold: cleaning a path is a parameter, so any function stands for it, and a decoding error before unfolding is the one `MountInfo` reports.
- Collective.Visit: needs the walk to end, which is the case exactly if the root is not its own ancestor.
- Remount.Remount: the target is given as the kernel sees it, so resolving it through symbolic links and proc is left out; the walk from the root has to end, and its yields are collected before the calls, which do not change the links it reads.
- Remount.RemountExactIff: takes the table for one a kernel has, where nothing is mounted on itself, a mount lies at or below the path of the one it is on, and no two are on the same place.
- RemountVisible.AllVisibleHaveIff: likewise, and takes paths for results of path cleaning.
- MountPaths.TopmostMetIff: takes paths for results of path cleaning, and a root that is not its own ancestor.
- FileLock.RunKeepsInv: one call at a time is outstanding on a file and unlock is called for files whose lock returned, as the package demands; the retries of the kernel call change nothing and are no steps.
- Waiting for the kernel's own lock on behalf of other processes is not part of `FileLock`.
- LockedFile.File.Transform: closing the file and the lock around it are left out, and a failing truncation is taken to change nothing.
- MountInfo.MountInfoDecoder.Decode: the linked list of entries is a sequence.
- Ldd.Decoder.Decode: how long a line the scanner takes is not modelled, only that it may end with an error; `Lines` models the scanner, with a carriage return before a newline dropped.
- The directory paths collected from ldd entries, and the comparison of mount entries with an ignored value, are settled by reading them.
- LinePrefix.LinePrefixWriter.Write: the final dump of the retained lines only prints them.
- Output.RunConserves: the downstream writer does not fail there; what a failing one does is in the contracts of Write and Resume.
- Overlay.MountOverlayOp.Mount: the names of an ephemeral upper and work directory are parameters, so its data is only described in the contract of Apply; those names hold no special characters.
- Hsu.ParseConfig: the file is the list of lines its scanner yields, with or without a read error at the end.
- JSON, gob, flags, logging and the wording of messages.
