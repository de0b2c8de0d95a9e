# StarryOS: models and proofs of its stateful cores

StarryOS is a Linux-compatible kernel in Rust. This project models the parts of it in which state
that is kept in several places has to agree over every run, and proves that it does, or exactly when
it does. Each file holds the model of one core:

| file | core |
|---|---|
| `Tmpfs.dfy` | inode lifetime in the in-memory filesystem: slab, link counts, directory entries, live nodes |
| `FutexQueue.dfy` | futex wait queues: wake, requeue |
| `FutexProtocol.dfy` | futex tables, entries and guards as a state machine over interleaved steps |
| `Epoll.dfy` | the epoll ready queue: level, edge and one-shot interests |
| `LineDiscipline.dfy` | the terminal line discipline: canonical and raw input |
| `Shm.dfy` | System V shared memory: the bidirectional map and the manager |
| `MsgQueue.dfy` | System V message queues: buckets, searches, msgsnd, msgrcv, IPC_RMID |
| `Timers.dfy` | interval timers and the alarm task |
| `Pipe.dfy` | pipes over a ring buffer |
| `IoVec.dfy` | scatter/gather cursors |
| `Brk.dfy` | the program break |

The pattern is the same throughout. The state that the kernel updates in place is a class; its
methods are proved against a reference that is simpler than the code (a count-free filesystem with a
garbage collector, a one-pass fold over the input, a single sequence ordered by type, a list of
addresses); and what must hold over whole runs is an invariant of the methods or a lemma about all
runs of a state machine.

Several properties that the code or its comments suggest turn out not to hold of the code. Each of
them is kept as it is and given its exact condition. Where the property is about states or runs, a
second member, named beside the first, shows it failing in a case that the system can get into:

- `Tmpfs.RenameKeepsContents`, `Tmpfs.RenameLosesContents`: renaming a directory onto a taken name
  empties the directory, because `rename` itself looks the source up and drops that node. This holds
  even if the new name is another name of the same directory, when nothing is renamed at all, and for a
  free name that the layer above still has in its cache.
- `FutexProtocol.FinishInvIff`, `FutexProtocol.LostWakeup`: `FutexGuard::drop` tests and then removes.
  The removal is safe exactly when the test would still succeed, which it does unless another thread has
  taken a guard on the same key in between (`DropSafeUnlessTaken`); otherwise a wake-up can get lost.
- `FutexQueue.SkipHarmlessIff`: skipping the requeue when too few woke is harmless exactly when no
  waiter has a zero bitset.
- `Epoll.ModifyIff`, `Epoll.ModifyFails`: `modify` of an interest that is queued makes one that is never
  queued or reported again until its key is modified or deleted (`DeafForever`).
- `LineDiscipline.InputReader.Poll`, `LineDiscipline.DrainUnderPendingLine`: after a drain the reader goes
  on as the reference says exactly when no line was pending; under a partly delivered one the next poll
  panics. (Under an untouched one it would be stuck for ever, but `Serve` shows that this state does not
  arise.)
- `LineDiscipline.EchoedAndForgottenIff`, `LineDiscipline.WordsRunTogether`: the space is the one byte
  without a function that is echoed as itself and does not become part of the line, so that words are
  delivered run together.
- `LineDiscipline.ScreenShowsLine`, `LineDiscipline.PromptRubbedOut`: what is on the screen is the line being
  edited exactly as long as there were never more erases than other bytes; an erase on an empty line rubs
  out the prompt.
- `Shm.AttachIff`, `Shm.AttachFails`: attaching keeps the two records of attachments equal exactly when
  mapping succeeds and the address is not one that the process has another segment at.
- `MsgQueue.OldestIff`, `MsgQueue.YoungerFirst`: msgrcv takes the oldest wanted message exactly when it is
  also of the least wanted type.
- `MsgQueue.NegativeTypeIff`: a negative type stands for the types up to its absolute value, except for
  the most negative one, which finds nothing.
- `Timers.EarlyIff`, `Timers.EarlyAlarm`: a real timer never fires early exactly when it is set at the very
  moment of a poll, since its account starts at the last poll and not when it is set.
- `Timers.PopMatchesIff`, `Timers.PopFails`: the assertion in the alarm task holds exactly when nothing
  earlier was pushed while the lock was dropped.
- `IoVec.RoundTripIff`: scatter then gather is the identity exactly when no address repeats.
- `IoVec.Cursor.Remaining`, `IoVec.WrappedVector`: the remaining length is exact exactly when it fits into
  64 bits. A pipe write through a vector of 2^64 bytes therefore reports success and writes nothing
  (`Pipe.WholeWriteSkipped`).

Two comments in api/src/syscall/ipc/msg.rs disagree with its code, and the model follows the code:
msgsnd announces a check for a queue marked for removal but does not make one (line 465), and a
non-empty queue marked for removal is said to be deleted when its messages have been taken (line 869),
while msgrcv refuses every receive on it.

The clock, user memory, permission checks, the choice of a free slab slot or address, the outcome of
mapping and unmapping, and how much the other side of a copy takes are parameters or arbitrary
choices. Each operation is one atomic step unless a section below says otherwise.

## Model

| member | source | states |
|---|---|---|
| `Tmpfs.DropRef` | api/src/vfs/tmp.rs:212-216 | dropping one directory entry's reference: its slot is occupied, the link count does not underflow, a freed directory has no entries, and all books still balance |
| `Tmpfs.ShrunkCollects` | api/src/vfs/tmp.rs:98-105 | what the counts free is exactly what a garbage collector that knows no counts would free |
| `Tmpfs.ExactReclamation` | api/src/vfs/tmp.rs:98-105 | between operations a slot is occupied if and only if an entry names it or a node holds it, `nlink` is the number of entries, and a directory no node holds is empty |
| `Tmpfs.WithRefInv` | api/src/vfs/tmp.rs:201-205 | a new entry in a held directory keeps every count and every reference valid |
| `Tmpfs.LoosenedInv` | api/src/vfs/tmp.rs:454-461 | taking any set of entries out of their maps loses and doubles no reference |
| `Tmpfs.DisplacedInv` | api/src/vfs/tmp.rs:428-451 | moving an entry onto a taken name leaves exactly the displaced reference to drop |
| `Tmpfs.NewInodeInv` | api/src/vfs/tmp.rs:134-179 | a fresh inode in a vacant slot, held but not yet linked, keeps the invariant |
| `Tmpfs.CreatedInv` | api/src/vfs/tmp.rs:378-393 | creation with `.` and `..` keeps the invariant and is creation in the count-free filesystem |
| `Tmpfs.DropNodeCollects` | api/src/vfs/tmp.rs:454-461 | emptying the directory and releasing the node is the count-free drop followed by collection |
| `Tmpfs.CreateUndone` | api/src/vfs/tmp.rs:378-425 | create, drop the node, unlink gives back the very same filesystem |
| `Tmpfs.TransientWipes` | api/src/vfs/tmp.rs:454-461 | a node that is handed out and dropped again empties its directory |
| `Tmpfs.CreateIs` | api/src/vfs/tmp.rs:378-393 | creation adds the name, a node and for a directory `.` and `..` naming itself and its parent; every other name and inode stays |
| `Tmpfs.LinkIs` | api/src/vfs/tmp.rs:395-408 | a link adds the one name and a node, and nothing else changes |
| `Tmpfs.RemoveIs` | api/src/vfs/tmp.rs:410-425 | a removal takes the one name away, and an inode goes if and only if nothing else names or holds it |
| `Tmpfs.DropNodeIs` | api/src/vfs/tmp.rs:454-461 | dropping a node takes away exactly the entries of its inode |
| `Tmpfs.RenameErrors` | api/src/vfs/tmp.rs:428-451 | when each error of rename is returned, as an if and only if on names |
| `Tmpfs.RenameToFree` | api/src/vfs/tmp.rs:428-451 | after a rename to a free name the old name is gone, the new one names the inode, and every other name is as it was |
| `Tmpfs.RenameKeepsContents` | api/src/vfs/tmp.rs:428-451 | a successful rename keeps a directory's entries (other than the two names) if and only if the lookup of the new name failed or it had none |
| `Tmpfs.RenameOntoTaken` | api/src/vfs/tmp.rs:428-435 | renaming onto a taken name leaves the old name gone and the new one naming the inode (onto another name of the same inode it does nothing), every other name as it was, and a directory empty |
| `Tmpfs.RenameLosesContents` | api/src/vfs/tmp.rs:428-435 | in a filesystem made by creating and linking, a rename onto a file or onto a second name of the directory loses a file |
| `Tmpfs.MemoryFs.constructor` | api/src/vfs/tmp.rs:61-77 | the new filesystem is a root directory that is its own parent, and satisfies the invariant |
| `Tmpfs.MemoryFs.DropRefs` | api/src/vfs/tmp.rs:212-216 | dropping any number of references, in any order, frees only what nothing names or holds |
| `Tmpfs.MemoryFs.DropNode` | api/src/vfs/tmp.rs:454-461 | refines the count-free `DropNode` from every valid state |
| `Tmpfs.MemoryFs.NewNode` | api/src/vfs/tmp.rs:229-247 | hands out a new node on the inode in the slot |
| `Tmpfs.MemoryFs.Lookup` | api/src/vfs/tmp.rs:368-376 | the exact error conditions, and a node on the inode the entry names |
| `Tmpfs.MemoryFs.Create` | api/src/vfs/tmp.rs:378-393 | the exact error conditions, otherwise the count-free creation in a vacant slot |
| `Tmpfs.MemoryFs.Link` | api/src/vfs/tmp.rs:395-408 | the exact error conditions, otherwise the count-free link; a target of another filesystem names the inode with its number here, or panics |
| `Tmpfs.MemoryFs.Unlink` | api/src/vfs/tmp.rs:410-425 | the exact error conditions (including the double lock on `.`), otherwise the count-free removal |
| `Tmpfs.MemoryFs.Rename` | api/src/vfs/tmp.rs:428-451 | refines the count-free rename, whether the destination lookup is fresh or answered from a cache, stale entries included; `RenameToFree`, `RenameOntoTaken` and `RenameErrors` say on names what that is |
| `Tmpfs.MemoryFs.MoveEntry` | api/src/vfs/tmp.rs:437-449 | the two map updates move the entry and collect what they displaced |
| `FutexQueue.WokenFirstMatching` | core/src/futex.rs:74-86 | the woken are the first `count` of all waiters that match, in queue order |
| `FutexQueue.MatchesIff` | core/src/futex.rs:74-86 | a waiter matches if and only if there is a bit that is set in its bitset and in the mask |
| `FutexQueue.NoOvertaking` | core/src/futex.rs:74-86 | if a waiter is woken, so is everybody before it who matches |
| `FutexQueue.KeptIff` | core/src/futex.rs:74-86 | a waiter stays if and only if it is not one of those woken, told apart by place and not by value |
| `FutexQueue.WakeConserves` | core/src/futex.rs:74-86 | woken and kept waiters together are the queue, with multiplicity |
| `FutexQueue.WakeAllLeavesNone` | core/src/futex.rs:74-86 | a sufficient count leaves nobody who matches |
| `FutexQueue.WakeTakesPrefix` | core/src/futex.rs:74-86 | without zero bitsets, a wake-up under the full mask splits the queue into a prefix and the rest |
| `FutexQueue.RequeueExact` | api/src/syscall/sync/futex.rs:96-116 | the first `value` wake, the next `value2` go to the end of the target, in order, and the result counts both |
| `FutexQueue.RequeueConserves` | api/src/syscall/sync/futex.rs:96-116 | no waiter is lost or doubled |
| `FutexQueue.SkipHarmlessIff` | api/src/syscall/sync/futex.rs:108-114 | skipping the requeue never matters if and only if no waiter has a zero bitset |
| `FutexQueue.WaitQueue.Wake` | core/src/futex.rs:74-86 | the `retain` loop computes the specified split |
| `FutexQueue.WaitQueue.Requeue` | core/src/futex.rs:94-105 | the drained prefix is appended to the target, also when that is the same queue |
| `FutexQueue.SysWake` | api/src/syscall/sync/futex.rs:82-95 | the count and the queue left behind; nothing without an entry |
| `FutexQueue.SysRequeue` | api/src/syscall/sync/futex.rs:96-116 | when each error is returned, that errors change nothing, and both queues and the count otherwise, source equal to target included |
| `FutexProtocol.StepInv` | core/src/futex.rs:195-242 | every step of every thread keeps the table invariant |
| `FutexProtocol.RunInv` | core/src/futex.rs:195-242 | in every state of every run each guard's entry is the one its table holds, and an entry with waiters is reachable |
| `FutexProtocol.RemovedWasIdle` | core/src/futex.rs:236-242 | whatever disappears from a table in a run had no waiters and no other guard |
| `FutexProtocol.LastGuardIff` | core/src/futex.rs:236-242 | the reference count test succeeds if and only if this is the only guard on the key |
| `FutexProtocol.HoldersAgree` | core/src/task.rs:279-332 | all current holders of a region's table hold the same one |
| `FutexProtocol.SweptInv` | core/src/task.rs:320-331 | the sweep keeps the invariant |
| `FutexProtocol.SweepDiscardsIdle` | core/src/task.rs:320-331 | a table leaves the registry only in a hundredth call, with no holder and no entries |
| `FutexProtocol.NoLostWakeup` | api/src/syscall/sync/futex.rs:47-95 | in any run without requeues, after a wake-up of everybody nobody who slept on the old value is still asleep until that value is stored again |
| `FutexProtocol.QueueAfter` | core/src/futex.rs:47-86 | what a step does to each queue: a waiter joins at the end if and only if the word has the expected value, a wake-up takes out those it wakes, anything else nothing |
| `FutexProtocol.QueueInJoinOrder` | core/src/futex.rs:47-86 | in every run without requeues each queue holds its waiters in the order in which they joined |
| `FutexProtocol.FirstServed` | core/src/futex.rs:47-86 | over any such run a waiter who joined earlier and matches is woken if a later one is |
| `FutexProtocol.LeavesOnlyWhenReached` | core/src/futex.rs:47-86 | a waiter leaves the queue in a step if and only if that is a wake-up that reaches it |
| `FutexProtocol.WaitsUntilReached` | core/src/futex.rs:47-86 | over any such run, whoever joins stays in the queue until a wake-up reaches it |
| `FutexProtocol.RequeueIs` | core/src/futex.rs:94-105 | requeue moves the first `count` waiters to the end of the target, also of the same queue, and touches no other queue |
| `FutexProtocol.DropRemovesIff` | core/src/futex.rs:236-242 | dropping a guard removes the entry if and only if nobody waits there and no other guard is on the key |
| `FutexProtocol.RunNoneIdle` | core/src/futex.rs:195-242 | in every run every entry of a table has a waiter or a guard |
| `FutexProtocol.SweepIs` | core/src/task.rs:320-331 | the hundredth call keeps exactly the tables that are held or have entries, and any other call keeps all |
| `FutexProtocol.DelayedRemovalIff` | core/src/futex.rs:236-242 | removing the entry later keeps the invariant if and only if the test would still succeed then |
| `FutexProtocol.FinishInvIff` | core/src/futex.rs:236-242 | with test and removal as two steps, a step breaks the invariant if and only if it is the removal by a guard that passed the test and no longer would |
| `FutexProtocol.DropSafeUnlessTaken` | core/src/futex.rs:195-242 | in any run, the removal is safe unless another guard on the same key was taken between the test and it |
| `FutexProtocol.LostWakeup` | core/src/futex.rs:195-242 | a run in which that happens and a sleeper is missed by a wake-up of everybody |
| `FutexProtocol.FutexTables.Wake` | core/src/futex.rs:74-86 | the step of the protocol, and the number woken |
| `FutexProtocol.FutexTables.Requeue` | core/src/futex.rs:94-105 | the step of the protocol, and the number moved, also onto the same queue |
| `FutexProtocol.FutexTables.TakeTable` | core/src/task.rs:320-331 | counting, sweeping and inserting is the step of the protocol |
| `FutexProtocol.FutexTables.Get` | core/src/futex.rs:195-203 | a guard if and only if there is an entry |
| `FutexProtocol.FutexTables.GetOrInsert` | core/src/futex.rs:207-218 | the step of the protocol |
| `FutexProtocol.FutexTables.WaitIf` | core/src/futex.rs:47-70 | joins the queue, at its end (`QueueAfter`), if and only if the word still has the expected value |
| `FutexProtocol.FutexTables.DropGuard` | core/src/futex.rs:236-242 | the step of the protocol |
| `Epoll.Mode.ShouldNotify` | api/src/file/epoll.rs:67-84 | notifies exactly when enabled, and only a fired one-shot is disabled afterwards |
| `Epoll.PollStepInv` | api/src/file/epoll.rs:365-432 | every round of `poll_events` keeps the invariant |
| `Epoll.StepInv` | api/src/file/epoll.rs:220-432 | every operation, and every readiness change with the wakers it fires, keeps the invariant |
| `Epoll.RunInv` | api/src/file/epoll.rs:220-432 | in every run the flag says exactly who is queued, nobody is queued twice, and an enabled interest is queued or has its waker registered |
| `Epoll.ReadyIsQueued` | api/src/file/epoll.rs:289-316 | in every reachable state a level-triggered interest whose file is ready is in the queue |
| `Epoll.OneShotAtMostOnce` | api/src/file/epoll.rs:67-84 | over any run a one-shot interest is reported at most once |
| `Epoll.FrontReported` | api/src/file/epoll.rs:369-424 | a round reports the interest at the front, with the bits that are ready and asked for and its own data, if and only if it is registered, enabled and its file is ready for it, whatever its mode |
| `Epoll.FrontLeaves` | api/src/file/epoll.rs:369-424 | it goes to the back if it was reported and is level-triggered, and out of the queue otherwise |
| `Epoll.DueIsReported` | api/src/file/epoll.rs:365-432 | a call reports every such interest in the queue that it has room to get to |
| `Epoll.OnlyDueReported` | api/src/file/epoll.rs:365-432 | every report is of such an interest, with its own event |
| `Epoll.PollReportsDue` | api/src/file/epoll.rs:365-432 | in every state of every run, a call with room for the whole queue reports every interest in it that has something to report |
| `Epoll.PollReportsOnlyDue` | api/src/file/epoll.rs:365-432 | in every state of every run, a call reports nothing else |
| `Epoll.PollDropsStale` | api/src/file/epoll.rs:382-391 | a call unregisters the queued interests of closed files that it gets to |
| `Epoll.PollKeepsOpen` | api/src/file/epoll.rs:382-391 | and nobody whose file is open |
| `Epoll.OthersAppend` | api/src/file/epoll.rs:220-352 | nothing but a poll reorders the queue: whoever is woken lines up at its end |
| `Epoll.TriggerModes` | api/src/file/epoll.rs:56-84 | what the flags mean: a ready file is reported when it is added, again without a new event if and only if neither flag was given, and again after one if and only if it is not one-shot |
| `Epoll.InstallRegisters` | api/src/file/epoll.rs:318-352 | the interest registered has the key, events, data and mode given |
| `Epoll.ModifyIff` | api/src/file/epoll.rs:332-352 | `modify` keeps the invariant if and only if the old interest is not queued |
| `Epoll.ModifyMakesDeaf` | api/src/file/epoll.rs:332-352 | otherwise the new interest claims to be queued and is not |
| `Epoll.DeafForever` | api/src/file/epoll.rs:220-432 | over any run that does not modify or delete its key, such an interest stays registered and is never queued or reported |
| `Epoll.ModifyFails` | api/src/file/epoll.rs:318-352 | a run that gets there: a ready file is added and modified before it is polled |
| `Epoll.RoundRobin` | api/src/file/epoll.rs:365-432 | ready level-triggered interests are reported in turn, and the queue is left rotated by as many |
| `Epoll.PollGoesRound` | api/src/file/epoll.rs:365-432 | report t is of the interest at place t mod q, with its event, and the queue ends up rotated by m mod q |
| `Epoll.EverybodyReported` | api/src/file/epoll.rs:365-432 | once several calls together have room for the queue, every interest in it has itself been reported |
| `Epoll.EpollInner.WakeInterest` | api/src/file/epoll.rs:220-240 | queues a live interest once |
| `Epoll.EpollInner.CheckAndRegisterWaker` | api/src/file/epoll.rs:289-316 | queues what is ready and registers what is not |
| `Epoll.EpollInner.Add` | api/src/file/epoll.rs:318-330 | refuses exactly a known key, otherwise registers the key with the given events, data and mode, keeping the invariant |
| `Epoll.EpollInner.Modify` | api/src/file/epoll.rs:332-352 | refuses exactly an unknown key, otherwise registers it anew with what is given, and is valid afterwards if and only if the old interest was not queued |
| `Epoll.EpollInner.Delete` | api/src/file/epoll.rs:354-363 | removes the key and keeps the invariant |
| `Epoll.EpollInner.PollRound` | api/src/file/epoll.rs:369-424 | one round of the loop is the specified step, which `FrontReported` and `FrontLeaves` describe on interests and events |
| `Epoll.EpollInner.PollEvents` | api/src/file/epoll.rs:365-432 | the loop terminates with the specified reports and state; with room for the queue, every interest in it that has something to report is reported with its event |
| `LineDiscipline.FoldOnlyGrows` | api/src/terminal/ldisc.rs:88-155 | what has been emitted is never taken back, whatever is typed later |
| `LineDiscipline.EraseUndoes` | api/src/terminal/ldisc.rs:133-136 | erasing undoes typing a text byte, in any context |
| `LineDiscipline.EraseOfNothing` | api/src/terminal/ldisc.rs:133-136 | an erase on an empty line changes nothing that is delivered |
| `LineDiscipline.KillForgets` | api/src/terminal/ldisc.rs:129-132 | killing forgets the text of the line and nothing that was delivered |
| `LineDiscipline.TextAccumulates` | api/src/terminal/ldisc.rs:148-151 | text collects in the line, and nothing of it is emitted |
| `LineDiscipline.TextKeptIff` | api/src/terminal/ldisc.rs:148-151 | a byte without a function becomes part of the line if and only if it is a graphic character |
| `LineDiscipline.EchoedAndForgottenIff` | api/src/terminal/ldisc.rs:117-151 | a byte without a function is echoed as itself and leaves no trace if and only if it is the space |
| `LineDiscipline.WordsRunTogether` | api/src/terminal/ldisc.rs:117-184 | a line of words is echoed as typed and delivered without its spaces |
| `LineDiscipline.LineDelivered` | api/src/terminal/ldisc.rs:138-146 | a line is delivered whole, with its newline, when the newline is typed and not before |
| `LineDiscipline.TerminatorDelivers` | api/src/terminal/ldisc.rs:138-146 | newline, VEOL and with IEXTEN VEOL2 deliver the line with themselves, VEOF without |
| `LineDiscipline.OnlyTerminatorsDeliver` | api/src/terminal/termios.rs:89-99 | nothing else delivers anything in canonical mode |
| `LineDiscipline.ReturnIgnored` | api/src/terminal/ldisc.rs:108-111 | with IGNCR a carriage return changes nothing: not the line, the output, the echo or the signals |
| `LineDiscipline.ReturnIsNewline` | api/src/terminal/ldisc.rs:108-115 | with ICRNL and without IGNCR it is in all respects a newline |
| `LineDiscipline.ReturnEndsLine` | api/src/terminal/ldisc.rs:108-146 | so a line of words followed by it is delivered and shown with a newline |
| `LineDiscipline.ReturnForgotten` | api/src/terminal/ldisc.rs:108-151 | with neither flag it is shown as a line break and is no part of the line |
| `LineDiscipline.EchoOfByte` | api/src/terminal/ldisc.rs:170-184 | the echo of each class of bytes: as it is, in caret notation with ECHOCTL, or nothing |
| `LineDiscipline.SignalForByte` | api/src/terminal/termios.rs:101-107 | SIGINT for the VINTR byte and SIGQUIT for the VQUIT byte, with ICANON and ISIG, and nothing otherwise |
| `LineDiscipline.SignalCounts` | api/src/terminal/ldisc.rs:157-168 | for any text, as many interrupts as VINTR bytes and as many quits as VQUIT bytes |
| `LineDiscipline.ScreenShowsLine` | api/src/terminal/ldisc.rs:117-184 | while text is typed and corrected, the row on the screen is the prompt and the line being edited if and only if there were never more erases than other bytes |
| `LineDiscipline.PromptRubbedOut` | api/src/terminal/ldisc.rs:170-184 | an erase on an empty line rubs out the end of the prompt |
| `LineDiscipline.RawIsTransparent` | api/src/terminal/ldisc.rs:122-126 | in raw mode all bytes pass, up to carriage-return handling |
| `LineDiscipline.RawInBytes` | api/src/terminal/ldisc.rs:108-126 | in raw mode the bytes typed are handed over in order, a carriage return left out with IGNCR, and turned into a newline with ICRNL alone |
| `LineDiscipline.PushedIsPrefix` | api/src/terminal/ldisc.rs:88-155 | at any time what was pushed is a prefix of what the fold over past and future input emits |
| `LineDiscipline.InputReader.Poll` | api/src/terminal/ldisc.rs:78-155 | for any chunking and any pace of the reader, what is pushed is what the fold emits, up to a pending line that waits for room; echo and signals are those of the fold (in bytes: `ReturnIgnored` to `RawInBytes` above); after a drain it panics if and only if a line was partly delivered |
| `LineDiscipline.InputReader.Serve` | api/src/terminal/ldisc.rs:78-155 | over any run of polls, drains and reads from a new reader the above holds until a poll panics; a stuck reader processes and delivers nothing ever again |
| `LineDiscipline.DrainUnderPendingLine` | api/src/terminal/ldisc.rs:78-101 | a line longer than the ring, a drain, a poll: it panics |
| `LineDiscipline.InputReader.PushPending` | api/src/terminal/ldisc.rs:89-101 | pushes as much of the pending line as fits, and none exactly when the ring is full |
| `LineDiscipline.InputReader.EditLine` | api/src/terminal/ldisc.rs:128-151 | the buffer edits are the reference editing, with a complete line marked pending |
| `LineDiscipline.InputReader.Announce` | api/src/terminal/ldisc.rs:157-184 | signals and echo are those of the item typed |
| `LineDiscipline.InputReader.Refill` | api/src/terminal/ldisc.rs:79-85 | a drain request empties the edit buffer, even under a pending line, and a chunk is read only when nothing is left unread |
| `LineDiscipline.InputReader.Drain` | api/src/terminal/ldisc.rs:301-304 | the ring is emptied into nowhere and the next poll asked to forget the line |
| `Shm.InsertRefines` | core/src/shm.rs:205-212 | insertion keeps the two maps inverse and is insertion into an injective map, whatever collides |
| `Shm.InsertThenRemove` | core/src/shm.rs:205-244 | removing a new pair by either end gives the map back |
| `Shm.BiBTreeMap.Insert` | core/src/shm.rs:205-212 | the updates in place leave inverse maps that mean the overridden injective map |
| `Shm.BiBTreeMap.RemoveByKey` | core/src/shm.rs:227-234 | removes exactly the key, and returns what it had |
| `Shm.BiBTreeMap.RemoveByValue` | core/src/shm.rs:237-244 | removes exactly the value, and returns who had it |
| `Shm.AttachIff` | api/src/syscall/ipc/shm.rs:80-151 | after shmat the manager's and the segment's records agree if and only if mapping succeeded and the address was new to the process |
| `Shm.AttachFails` | api/src/syscall/ipc/shm.rs:120-149 | runs in which an address is reused, or mapping fails, and the records disagree |
| `Shm.DtInv` | api/src/syscall/ipc/shm.rs:193-228 | shmdt keeps all maps and counters in agreement |
| `Shm.ExitInv` | core/src/shm.rs:364-377 | so does process exit |
| `Shm.DetachedRecords` | core/src/shm.rs:169-175 | detaching removes exactly the one process from exactly the given segments |
| `Shm.StepInv` | core/src/shm.rs:260-378 | every operation keeps the invariant |
| `Shm.RunInv` | core/src/shm.rs:260-378 | in every run a process has a segment mapped at an address if and only if the segment records it there; attachment counts are right modulo 2^16 |
| `Shm.GoneIff` | core/src/shm.rs:355-377 | a segment disappears if and only if its last user detaches or exits after IPC_RMID |
| `Shm.MappedIff` | core/src/shm.rs:260-378 | after any step, a process has a segment at an address if and only if it had it and did not let it go, or attached it there in this step |
| `Shm.MarkIff` | api/src/syscall/ipc/shm.rs:169-170 | IPC_RMID marks its segment and nothing else does; a mark stays, and a new segment has none |
| `Shm.MarkedIff` | core/src/shm.rs:260-378 | in every run a segment is marked if and only if IPC_RMID was called for it |
| `Shm.RemovedIff` | core/src/shm.rs:355-377 | in every run a segment goes if and only if IPC_RMID was called for it and its only user lets it go |
| `Shm.PagesFit` | core/src/shm.rs:112 | the least whole number of pages that holds the size, except that sizes within a page of 2^64 wrap to none |
| `Shm.AttachmentLasts` | core/src/shm.rs:260-378 | over any run a process keeps its segment at its address until it detaches or exits itself |
| `Shm.ShmManager.Get` | api/src/syscall/ipc/shm.rs:34-78 | what is created and when, and that a successful answer names a segment of that size and those flags |
| `Shm.ShmManager.At` | api/src/syscall/ipc/shm.rs:80-151 | when it panics, when it succeeds, and when the records agree afterwards |
| `Shm.ShmManager.Dt` | api/src/syscall/ipc/shm.rs:193-228 | succeeds if and only if the address is attached and can be unmapped; otherwise nothing changes |
| `Shm.ShmManager.DetachProcess` | core/src/shm.rs:169-175 | the segment loses the process, and goes if it was marked and that was the last |
| `Shm.ShmManager.MarkRemoved` | api/src/syscall/ipc/shm.rs:169-170 | only marks |
| `Shm.ShmManager.ClearProcess` | core/src/shm.rs:364-377 | the loop detaches the process from all its segments, in any order, and forgets it |
| `MsgQueue.FlattenIs` | api/src/syscall/ipc/msg.rs:182-193 | the flattened buckets are ordered by type and hold each bucket in order |
| `MsgQueue.OrderUnique` | api/src/syscall/ipc/msg.rs:182-193 | there is only one such order |
| `MsgQueue.PushRefines` | api/src/syscall/ipc/msg.rs:102-117 | appending to a bucket is inserting behind all messages of the same or a smaller type |
| `MsgQueue.PopRefines` | api/src/syscall/ipc/msg.rs:642-644 | removing index 0 of the type found removes exactly the message found |
| `MsgQueue.PushAccounts` | api/src/syscall/ipc/msg.rs:102-117 | sending keeps both byte counters, the message count and conservation |
| `MsgQueue.PopAccounts` | api/src/syscall/ipc/msg.rs:196-220 | so does receiving, without underflow |
| `MsgQueue.FirstIs` | api/src/syscall/ipc/msg.rs:120-174 | the reference search finds the first message wanted, or none if there is none |
| `MsgQueue.NegativeTypeIff` | api/src/syscall/ipc/msg.rs:588-591 | a negative type means the types up to its absolute value, except for the most negative one |
| `MsgQueue.SelectedIs` | api/src/syscall/ipc/msg.rs:579-593 | what is found is the first message asked for, and nothing only if there is none: any for type 0, that type for a positive one, every other with MSG_EXCEPT, the types up to the absolute value for a negative one |
| `MsgQueue.RefusalIff` | api/src/syscall/ipc/msg.rs:545-650 | when each error of msgrcv is returned, by type or by index |
| `MsgQueue.AtMostIsLeast` | api/src/syscall/ipc/msg.rs:152-174 | what it finds is of the least type in the queue |
| `MsgQueue.OldestIff` | api/src/syscall/ipc/msg.rs:579-593 | the message taken is the oldest one wanted if and only if that one is of the least type wanted |
| `MsgQueue.YoungerFirst` | api/src/syscall/ipc/msg.rs:579-593 | types 2 and 1 are sent, and a receiver of any type gets the second |
| `MsgQueue.MessageQueue.FindFirst` | api/src/syscall/ipc/msg.rs:120-127 | element 0 of the reference order |
| `MsgQueue.MessageQueue.FindByType` | api/src/syscall/ipc/msg.rs:130-135 | the first message of the type |
| `MsgQueue.MessageQueue.FindNotEqual` | api/src/syscall/ipc/msg.rs:139-148 | the first message of another type |
| `MsgQueue.MessageQueue.FindLessEqual` | api/src/syscall/ipc/msg.rs:152-174 | the first message of a type up to the bound |
| `MsgQueue.MessageQueue.TotalCount` | api/src/syscall/ipc/msg.rs:177-179 | the length of the reference order |
| `MsgQueue.MessageQueue.ByIndex` | api/src/syscall/ipc/msg.rs:182-193 | element i of the reference order, present if and only if i is less than the count |
| `MsgQueue.MessageQueue.Enqueue` | api/src/syscall/ipc/msg.rs:102-117 | refuses exactly what exceeds the byte limit, otherwise appends and counts |
| `MsgQueue.MessageQueue.RemoveAt` | api/src/syscall/ipc/msg.rs:196-220 | the message, the bucket without it (gone when empty), and the counters |
| `MsgQueue.MessageQueue.Send` | api/src/syscall/ipc/msg.rs:442-508 | when it succeeds and which error otherwise; a failure changes nothing; received then queued is sent, for each type |
| `MsgQueue.MessageQueue.Receive` | api/src/syscall/ipc/msg.rs:545-664 | without MSG_COPY the first message asked for is taken out, and ENOMSG returned if and only if there is none; with it the message at the index is copied; truncated how, and which error otherwise; a failure or a copy changes nothing; received then queued is sent, for each type |
| `MsgQueue.MsgManager.Get` | api/src/syscall/ipc/msg.rs:336-415 | an existing queue, a new empty one, or an error that changes nothing |
| `MsgQueue.MsgManager.Send` | api/src/syscall/ipc/msg.rs:417-508 | touches only the queue named, when it succeeds and which error otherwise |
| `MsgQueue.MsgManager.Receive` | api/src/syscall/ipc/msg.rs:510-664 | touches only the queue named; the message returned and the queue left behind are as for `MessageQueue.Receive` |
| `MsgQueue.MsgManager.Remove` | api/src/syscall/ipc/msg.rs:784-874 | which error for an unknown queue, one already marked or a stranger; otherwise the queue and its keys go if and only if it is empty, and else it is only marked |
| `Timers.UpdateOk` | core/src/time.rs:91-103 | charging a timer keeps its law: emissions are covered by the charge, the first comes exactly when the value is |
| `Timers.NoEarlyEmission` | core/src/time.rs:91-103 | however time is cut into charges, n emissions take the value and n - 1 intervals, once at most without an interval, and the first exactly when the value is used up |
| `Timers.NextEmission` | core/src/time.rs:91-103 | after an emission, however time is cut into charges, the next one comes exactly when the charges since cover the interval |
| `Timers.FiredStartsOver` | core/src/time.rs:91-119 | a timer that fires in a poll starts over with its interval, and if it has one an alarm is pushed one interval after the clock was read |
| `Timers.AlarmsOnlyFor` | core/src/time.rs:91-119 | no other alarm is pushed |
| `Timers.EarlyIff` | core/src/time.rs:195-209 | counted from when it is set, a real timer can fire early if and only if that is not the moment of the last poll |
| `Timers.EarlyAlarm` | core/src/time.rs:169-209 | a timer set to 10 at time 9 fires at time 10 |
| `Timers.ChargedOk` | core/src/time.rs:169-186 | one poll keeps the law of all three timers |
| `Timers.TimeManager.Poll` | core/src/time.rs:169-186 | the time since the last poll goes to user time, system time or neither as the state says, signals go exactly to the charged timers that expire, and a real timer polled at its alarm has expired |
| `Timers.TimeManager.SetState` | core/src/task.rs:443-455 | the time up to now is charged to the old state before the new one begins |
| `Timers.TimeManager.SetITimer` | core/src/time.rs:195-209 | a new account for this timer only, the alarm pushed, and the old setting returned |
| `Timers.TimeManager.UpdateITimer` | core/src/time.rs:220-224 | one timer's update, its signal and its alarm |
| `Timers.AlarmRunInv` | core/src/time.rs:227-267 | in every run, with push and notification as separate steps, the entry being served stays in the heap, and a sleeping alarm task sleeps until the earliest entry unless it has been or is about to be notified |
| `Timers.PopMatchesIff` | core/src/time.rs:243-252 | the popped deadline is the peeked one if and only if nothing earlier was pushed in between |
| `Timers.PopMatches` | core/src/time.rs:105-119 | hence always, if reading the clock and pushing is one step |
| `Timers.PopFails` | core/src/time.rs:243-252 | a run with a deadline computed earlier in which the wrong entry is popped |
| `Timers.NeverOversleeps` | core/src/time.rs:254-265 | while an entry is due, a sleeping alarm task can wake up, at the latest after a notification that is on its way |
| `Pipe.PushKeeps` | api/src/file/pipe.rs:155-164 | bytes stored at the write index join the end of the contents, through wrap-around |
| `Pipe.PopKeeps` | api/src/file/pipe.rs:121-130 | moving the read index drops exactly a prefix |
| `Pipe.VacancyIsFree` | api/src/file/pipe.rs:155-164 | storing into the vacancy changes nothing until the write index moves |
| `Pipe.Pipe.ReadOnce` | api/src/file/pipe.rs:113-141 | exactly how many bytes are delivered for what the destination takes of each slice, or which error; they are the next ones in order; a failed read changes nothing; an ample destination gets everything |
| `Pipe.Pipe.WriteOnce` | api/src/file/pipe.rs:154-170 | exactly how many bytes are accepted for what the source gives for each slice; they are a prefix of the data, in order, as much as fits from an ample source; a failure accepts nothing |
| `Pipe.Pipe.Write` | api/src/file/pipe.rs:143-179 | over all attempts, with readers in between, exactly the first `total` bytes are accepted; a blocking success is a complete one |
| `Pipe.RoundUpIs` | api/src/file/pipe.rs:86 | the least whole number of pages, except that sizes within a page of 2^64 wrap to nothing |
| `Pipe.Pipe.Resize` | api/src/file/pipe.rs:85-101 | keeps the contents, and is refused if and only if they do not fit into the rounded size, which panics if it is zero |
| `Pipe.Pipe.BeginWrite` | api/src/file/pipe.rs:143-150 | a write through a user vector ends at once with success if and only if the number of bytes is a multiple of 2^64 |
| `Pipe.WholeWriteSkipped` | api/src/file/pipe.rs:143-150 | there is such a vector with 2^64 bytes |
| `IoVec.NewVector` | api/src/io.rs:23-36 | accepted if and only if there are at most 1024 readable segments of non-negative length; the total is exact modulo 2^64 |
| `IoVec.Cursor.Remaining` | api/src/io.rs:158-168 | exact if and only if what is left fits into 64 bits; zero if and only if it is a multiple of 2^64 |
| `IoVec.WrappedVector` | api/src/io.rs:23-36 | an accepted vector of 2^64 bytes whose total is zero |
| `IoVec.SkipKeeps` | api/src/io.rs:92-102 | leaving a segment that is used up leaves the same addresses |
| `IoVec.AddressAt` | api/src/io.rs:92-121 | byte j of segment k comes after the lengths of the earlier segments and is at its base plus j |
| `IoVec.PieceIsPrefix` | api/src/io.rs:113-121 | a piece of the current segment is the next stretch of the concatenation |
| `IoVec.RoundTripIff` | api/src/io.rs:105-151 | scatter then gather is the identity on all data if and only if no address repeats |
| `IoVec.WriteAllIs` | api/src/io.rs:130-151 | writes in any pieces are one write of the concatenation |
| `IoVec.ReadAllIs` | api/src/io.rs:106-126 | reads in any pieces are one read |
| `IoVec.PiecesRoundTrip` | api/src/io.rs:105-151 | over disjoint segments, what is written in any pieces, less or more than they hold, is read back in any pieces |
| `IoVec.Cursor.SkipEmpty` | api/src/io.rs:92-102 | ends in a segment with bytes left or at the end, with the same addresses ahead |
| `IoVec.Cursor.Read` | api/src/io.rs:106-126 | delivers the bytes at the next addresses; fails if and only if one of them cannot be read, and then stands at the segment with that address |
| `IoVec.Cursor.Write` | api/src/io.rs:130-151 | stores at the next addresses as many bytes as there are or fit; fails if and only if one of them cannot be written, with everything before that segment stored |
| `Brk.AlignUpLeast` | api/src/syscall/mm/brk.rs:25-26 | rounding gives the least page boundary |
| `Brk.HeapIsExact` | api/src/syscall/mm/brk.rs:15-28 | an address is mapped if and only if it is in the initial region or its page holds a byte below the break, and never beyond the limit |
| `Brk.Heap.constructor` | core/src/mm.rs:338-345 | the initial region is mapped |
| `Brk.Heap.MapArea` | api/src/syscall/mm/brk.rs:36-47 | is asked only for pages that are not mapped |
| `Brk.Heap.UnmapArea` | api/src/syscall/mm/brk.rs:56-61 | is asked only for pages that are mapped |
| `Brk.Heap.Brk` | api/src/syscall/mm/brk.rs:11-69 | exactly the pages up to the break (and the initial region) stay mapped; the break moves if and only if the address is in range and a needed mapping succeeds |

## Left out

- Everything above these cores: system call dispatch, file descriptor tables, the process tree, signals, clone, exec and exit, sockets, devices, procfs, ELF loading and address-space internals; they are wrappers, or their state lives in crates that are not part of this model.
- File contents, sizes, timestamps, ownership and symbolic links in the in-memory filesystem: easy field updates that do not touch the inode lifecycle.
- The directory cache of the filesystem layer above `DirNodeOps`: its answer is a parameter of rename (`DstLookup`), any answer being possible.
- The life of the node that linking a target of another filesystem hands out: it holds an inode of that filesystem, and only its entry here is modelled.
- Futex timeouts, robust lists, and interrupted waits: `NoLostWakeup` is about runs without them and without requeues.
- Private futex tables: they are tables that always have a holder, so the registry's treatment covers them.
- Steps between the two lock regions of requeue: `NoLostWakeup` and `RunInv` take requeue, and also dropping a guard, as one step; `FinishInvIff` and `DropSafeUnlessTaken` say what the latter is worth.
- Epoll on files whose `register` wakes at once, nested epoll instances, and waits with timeouts.
- The line discipline's `SimpleReader`, VMIN/VTIME, output processing, and delivery of signals to the foreground group: only the signal chosen is modelled.
- IPC_SET, IPC_STAT, IPC_INFO, permission bits, timestamps and last-pid fields of shared memory and message queues: field copies; permission is a parameter. IPC_SET can also overwrite the counters the invariants speak about.
- Physical pages of shared memory segments, and wrap-around of the 32-bit identifier counter shared by both IPC mechanisms.
- The bidirectional maps inside the shared memory manager are values (`BiMap`), so aliasing between them is not modelled; `BiBTreeMap` is the object on its own.
- Blocking msgsnd and msgrcv: the code returns an error instead, and so does the model.
- The internals of `BinaryHeap`, `BTreeMap`, `HashMap`, the ring buffer crate and the slab: a heap is a multiset with an earliest element, a map is a map, and iteration over a BTreeMap goes by increasing key.
- Overflow of the 64-bit nanosecond counters, and any difference between the wall clock and the monotonic clock other than a constant offset.
- Blocking of pipe reads and the waking of pollers: an attempt that would block says so; the reader's pace is a parameter of `Write`.
- Whether the arithmetic of a build panics on overflow: the models wrap around, as builds without overflow checks do. A ring buffer of no bytes is taken to be refused with a panic.
- IoVec.Cursor.Read: does not model wrap-around of user addresses at the end of the address space, nor a vector that changes in user memory during the transfer.
- Heap pages that the program maps or unmaps by other means than brk.
