# OS/161: a verified model of its core

This project models the hard core of OS/161 2.0.3 in Dafny and proves what that code keeps, over every input, every
run and every reachable state. The parts, and the files that hold them:

- **Long arithmetic on words** (`Bits`, `Digits`, `Options`, `LongDivide`, `LongSigned`, `LongMultiply`): division by
  Algorithm D and the three-multiplication product (sections 4.3.1 and 4.3.3 of TAOCP volume 2) on digits of any width
  `h`; the source's words are `h == 16`. Digit arrays are changed in place as the source does.
- **Thread system** (`ThreadSystem`, `ThreadRuns`, `ThreadList`, `Migration`, `Semaphore`, `Hangman`): a step machine
  over any number of CPUs and threads in which each step is one stretch of code under a lock, or a machine primitive,
  and what its runs do; the linked lists, the load balancer, semaphores and the deadlock detector.
- **Kernel heap** (`Chains`, `PagerefPool`, `HeapPage`, `HeapInvariant`, `KernelHeap`): free lists threaded through the
  words of the pages, packed page references on two linked lists, the pool of references and its bitmaps. The heap's
  lock is released around the page allocator, so each locked stretch is a method of its own and the allocator's answer
  is a parameter.
- **SFS** (`Bitmap`, `SfsLayout`, `SfsState`, `SfsVolume`, `Uio`, `SfsFile`, `SfsDir`, `SfsNames`, `SfsFormat`,
  `VnodeProtocol`): the free map in memory and on disk, block mapping and truncation, inode blocks as bytes, unaligned
  I/O over scattered buffers, the directory as a map from names to files with their link counts over whole runs, making
  and mounting a volume, and the vnode reference protocol as a step machine.
- **Printing and parsing** (`NumberText`, `Printf`): what every conversion prints, `%d` against `atoi`, the digit buffer,
  `vsnprintf`.
- **Disk driver** (`LhdProtocol`): the two-semaphore protocol as a step machine.

`SfsState.Fs` and `HeapInvariant.View` hold a volume's and a heap's variables as values together with what they stand
for (who owns each block; which blocks are free or live); a class keeps such a value as its one ghost field, tied to its
real fields. Machine integers are written out where their width matters (`% WORD`, `Wrap`, `FileBlock`, `DeviceBlock`).

Where a property one would expect is false of the code, the model keeps the code, states exactly when the property
holds, and shows an input or a run on which it fails:

- Giving back a page reference stops the system exactly when a lower root has slots in use but no page
  (`KernelHeap.Heap.Kfree`); 256 requests that could not get a page of references lead there
  (`KernelHeap.FailedRequestsThenFree`).
- A whole-page request is served in full exactly when rounding it up does not overflow 32 bits
  (`KernelHeap.WholePagesSuffice`); the largest request asks for no page at all (`KernelHeap.LargestRequest`).
- A file offset names its own block exactly below 2^41 (`SfsFile.FileBlockIs`, `SfsFile.LandsWhereAsked`); one byte
  written at 2^41 of a new file becomes its first byte and its recorded length becomes 1
  (`SfsFormat.FarWriteOnNewVolume`).
- A whole-block transfer reaches its own disk block exactly below block 2^23 (`SfsFile.DeviceBlockIs`); at 2^23 it
  overwrites the superblock (`SfsFormat.FarBlock`).
- Truncation keeps the indirect entry whose index equals the new length in blocks (`SfsVolume.Volume.Itrunc`); cutting a
  file to 15 blocks keeps its sixteenth (`SfsFormat.TruncateKeepsOne`).
- Truncation keeps all blocks below the new length exactly when the length in blocks fits 32 bits, or wraps to one that
  covers every block a file can have (`SfsVolume.KeepsWhatIsBelow`); a length of 2^41 - 1 cuts like a length of 0
  (`SfsFormat.FarTruncate`).
- A number printed with `-` and `0` together reads back exactly when no zero was added or it is 0
  (`Printf.ZerosOnTheRight`); 1 in two columns reads back as 10 (`Printf.OneReadsAsTen`).
- The most negative number divided by -1 gives itself (`LongSigned.Divide`).

`dafny verify dfyconfig.toml` checks the whole project.

## Model

| member | source | states |
|---|---|---|
| `Bits.OrIsSum` | os161/common/gcc-millicode/qdivrem.c:48 | or-ing a digit below a shifted one is addition: why the halves can be treated as digits |
| `Bits.AndMask` | os161/common/gcc-millicode/longlong.h:111 | masking low bits is a remainder |
| `Bits.ShrIsDiv` | os161/common/gcc-millicode/longlong.h:110 | shifting right bit by bit divides |
| `Bits.ShlIsTimes` | os161/common/gcc-millicode/longlong.h:112 | shifting left multiplies |
| `Digits.HalfWordOps` | os161/common/gcc-millicode/longlong.h:110-112 | the half-word macros, written with shifts, masks and ors, are the digit arithmetic used in the proofs |
| `Digits.ValConcat` | os161/common/gcc-millicode/qdivrem.c:60-66 | the value of a digit string is positional |
| `LongDivide.EstimateIsClose` | os161/common/gcc-millicode/qdivrem.c:185-210 | the estimate from three and two leading digits is the true quotient digit or one more, so one add-back suffices |
| `LongDivide.EstimateNotBelow` | os161/common/gcc-millicode/qdivrem.c:185-210 | an estimate below the true digit would not be the leading quotient |
| `LongDivide.EstimateNotTwoAbove` | os161/common/gcc-millicode/qdivrem.c:185-210 | nor can it be two above |
| `LongDivide.EstimateDigit` | os161/common/gcc-millicode/qdivrem.c:193-210 | the guess-and-correct loop returns the quotient of the leading digits, capped at the largest digit |
| `LongDivide.BorrowWord` | os161/common/gcc-millicode/qdivrem.c:217-223 | the halves of a wrapped difference are the digit and the borrow |
| `LongDivide.MultiplySubtract` | os161/common/gcc-millicode/qdivrem.c:217-226 | in place, the window loses `qhat` times the divisor, up to one borrow out |
| `LongDivide.AddBack` | os161/common/gcc-millicode/qdivrem.c:230-238 | in place, the window gains the divisor back, up to a carry out |
| `LongDivide.EstimateOfWindow` | os161/common/gcc-millicode/qdivrem.c:185-210 | for any divisor with a nonzero leading digit the estimate for a window is the digit or one more |
| `LongDivide.SettledAtOnce` | os161/common/gcc-millicode/qdivrem.c:217-238 | no borrow means the estimate was the true digit and the window is its remainder |
| `LongDivide.SettledByAddBack` | os161/common/gcc-millicode/qdivrem.c:226-238 | a borrow means it was one too big and one add-back gives the remainder |
| `LongDivide.QuotientDigit` | os161/common/gcc-millicode/qdivrem.c:185-240 | one round yields the true quotient digit and leaves its remainder in the window |
| `LongDivide.ShiftLeft` | os161/common/gcc-millicode/qdivrem.c:270-279 | the in-place left shift multiplies by a power of two, up to the bits that fall out |
| `LongDivide.ShiftRightExact` | os161/common/gcc-millicode/qdivrem.c:247-258 | un-normalising a multiple of the scale divides it exactly |
| `LongDivide.ShiftRight` | os161/common/gcc-millicode/qdivrem.c:247-256 | the in-place right shift recovers the remainder's digits |
| `LongDivide.DivideDigits` | os161/common/gcc-millicode/qdivrem.c:184-240 | the digit loop: dividend equals quotient digits times divisor plus what is left, which is below the divisor |
| `LongDivide.ShortDivide` | os161/common/gcc-millicode/qdivrem.c:124-149 | a one-digit divisor: exact quotient and remainder |
| `LongDivide.Normalise` | os161/common/gcc-millicode/qdivrem.c:167-175 | both numbers are scaled by the same power of two and the divisor's top bit is set |
| `LongDivide.Unscale` | os161/common/gcc-millicode/qdivrem.c:163-175 | scaling leaves the quotient alone and scales the remainder |
| `LongDivide.SkipZeros` | os161/common/gcc-millicode/qdivrem.c:157-161 | leading zero digits are skipped to the first nonzero one |
| `LongDivide.DivideLong` | os161/common/gcc-millicode/qdivrem.c:151-263 | a divisor of two or more digits: exact quotient, and exact remainder if wanted |
| `LongDivide.QDivRem` | os161/common/gcc-millicode/qdivrem.c:67-263 | for every u and v: the trap exactly for v = 0, else q v <= u < (q+1) v, and the remainder u - q v exactly if asked for |
| `LongSigned.TruncatedUnique` | os161/common/gcc-millicode/divdi3.c:44-62 | truncating division with the remainder's sign from the dividend is unique |
| `LongSigned.Divide` | os161/common/gcc-millicode/divdi3.c:44-62 | the quotient is truncated as in section 6.5.5 of ISO C99 for all operands but the most negative over -1, which gives itself |
| `LongSigned.Modulo` | os161/common/gcc-millicode/moddi3.c:45-62 | the remainder takes the dividend's sign, for all operands |
| `LongMultiply.ThreeProducts` | os161/common/gcc-millicode/muldi3.c:48-98 | three products with a signed middle term make the full product |
| `LongMultiply.AssembleProduct` | os161/common/gcc-millicode/muldi3.c:214-235 | all carries and borrows of the assembled double word accounted for |
| `LongMultiply.MultiplyWords` | os161/common/gcc-millicode/muldi3.c:183-241 | the exact double-word product of two words |
| `LongMultiply.ProductModulo` | os161/common/gcc-millicode/muldi3.c:132-158 | what is dropped from the high part is a multiple of the modulus |
| `LongMultiply.MultiplyLong` | os161/common/gcc-millicode/muldi3.c:124-158 | the product of two double words modulo the double-word range |
| `LongMultiply.Multiply` | os161/common/gcc-millicode/muldi3.c:99-164 | a b modulo 2^64 for all two's complement operands, the most negative included |
| `ThreadSystem.StepKeeps` | os161/kern/thread/thread.c:450-1075 | every step of fork, switch, wake, sleep, exit, exorcise, migration, spl, spinlock, interrupt and idle keeps the invariant; what each of them does is `ThreadRuns.StepEffects` |
| `ThreadSystem.InitInv` | os161/kern/thread/thread.c:163-253 | the system just started satisfies it |
| `ThreadSystem.RunInv` | os161/kern/thread/thread.c:450-1075 | so does every run |
| `ThreadSystem.SingleRunner` | os161/kern/thread/thread.c:450-767 | no thread is current on two CPUs, each is on at most one list, a run queue holds its own CPU's ready threads, none is lost |
| `ThreadSystem.ResumesSavedContext` | os161/kern/thread/thread.c:624-660 | a thread switched to has its context saved, or is the very thread switching, and no other CPU runs on its stack |
| `ThreadSystem.UnsavedIsOnItsCpu` | os161/kern/thread/thread.c:624-660 | a thread with an unsaved context is on, or leaving, its own CPU |
| `ThreadSystem.IplAccounting` | os161/kern/thread/spl.c:86-160 | a running thread's count is its level plus its CPU's spinlocks, interrupts are on exactly when it is 0, and a switched-out or new thread has 2 at high |
| `ThreadSystem.NoIdleWithWork` | os161/kern/thread/thread.c:642-651 | an idle CPU whose unlocked queue has work has the wake-up interrupt pending, is in a handler, or is about to look again |
| `ThreadSystem.ZombiesAreDead` | os161/kern/thread/thread.c:297-307 | a zombie being destroyed is saved and current nowhere |
| `ThreadSystem.AssertionsHold` | os161/kern/thread/spinlock.c:127-142 | the spinlock count is positive at release, the run queue lock is held exactly where the switch releases it and no other queue's ever, the channel's lock is held going to sleep, trap entry and exit find the levels they assert, and a switch is never stuck in its middle |
| `ThreadRuns.StepEffects` | os161/kern/thread/thread.c:450-1075 | in every run, for each step and without reference to how it is computed: which thread goes from which end of which list to which end of which other, every other list staying; where its CPU then is, what locks it holds, at what level its thread runs; which thread changes how, every other CPU and thread staying |
| `ThreadRuns.WakeTakesFirst` | os161/kern/thread/thread.c:1026-1063 | a wake takes exactly the first sleeper off its channel and puts it last among those in hand; every other list stays |
| `ThreadRuns.WakePutsOnOwnQueue` | os161/kern/thread/thread.c:452-487 | the first in hand becomes ready and the last of its own CPU's run queue, and that CPU is interrupted if it idles |
| `ThreadRuns.ChannelIsQueue` | os161/kern/thread/thread.c:1000-1075 | over any stretch of any run, those asleep on a channel and then those who go to sleep there are those woken and then those still asleep, in order |
| `ThreadRuns.WakingIsQueue` | os161/kern/thread/thread.c:1048-1075 | so are those a CPU has taken off channels and those it has made runnable |
| `ThreadRuns.WokenAreRunnable` | os161/kern/thread/thread.c:1019-1075 | before a CPU next switches, or leaves a handler, it has made runnable exactly those it has woken |
| `ThreadRuns.LeavesByWake` | os161/kern/thread/thread.c:1019-1075 | a sleeper leaves its channel in no other way than by a wake on it, as its first |
| `ThreadRuns.ReachesRunQueue` | os161/kern/thread/thread.c:452-487 | and one taken off a channel leaves the waker's hands only to be ready, last on its own CPU's run queue |
| `ThreadRuns.NoWakeWhileFallingAsleep` | os161/kern/thread/thread.c:604-616 | no wake on a channel happens between a sleeper's locking it and being on it: none is lost |
| `ThreadRuns.SleepJoinsChannel` | os161/kern/thread/thread.c:604-622 | going to sleep makes the thread the last on the channel it named and lets go of its lock |
| `ThreadRuns.ExitJoinsZombies` | os161/kern/thread/thread.c:617-622 | exiting makes it the last of its CPU's zombies |
| `ThreadRuns.DestroyedAreZombies` | os161/kern/thread/thread.c:297-307 | a thread is destroyed exactly when it is a zombie of a CPU on which a thread comes back, and then all of those are |
| `ThreadRuns.YieldAloneStays` | os161/kern/thread/thread.c:590-595 | yielding with nobody waiting changes no list and keeps the CPU |
| `ThreadRuns.YieldGivesWay` | os161/kern/thread/thread.c:597-661 | yielding with others waiting gives the CPU to the first of them and makes the thread the last, whatever other CPUs do meanwhile |
| `ThreadRuns.ReturnsAtItsLevel` | os161/kern/thread/thread.c:571-728 | a thread comes back from the switch at the interrupt level it entered it with, on whatever CPU and however much later |
| `ThreadRuns.NewStartsAtZero` | os161/kern/thread/thread.c:739-767 | a new thread first runs at level 0 with no reason to keep interrupts off |
| `ThreadRuns.LockExcludes` | os161/kern/thread/spinlock.c:76-142 | from acquiring a spinlock to letting go of it the CPU holds it and nobody acquires it; then nobody holds it |
| `ThreadRuns.SwitchGoesOn` | os161/kern/thread/thread.c:562-728 | in every reachable state a CPU in the switch, or idling, can take its next step, and one holding nothing, or the lock of the channel to sleep on, can enter it |
| `ThreadRuns.CanWake` | os161/kern/thread/thread.c:1019-1075 | who runs with the channel's lock can wake exactly when somebody sleeps there |
| `ThreadList.List.constructor` | os161/kern/thread/threadlist.c:60-72 | an empty list between two bookends |
| `ThreadList.List.IsEmpty` | os161/kern/thread/threadlist.c:91-97 | true exactly of the empty sequence |
| `ThreadList.List.InsertAfterNode` | os161/kern/thread/threadlist.c:105-120 | relinking keeps all links both ways and puts the node right after |
| `ThreadList.List.InsertBeforeNode` | os161/kern/thread/threadlist.c:125-140 | the same, right before |
| `ThreadList.List.RemoveNode` | os161/kern/thread/threadlist.c:145-157 | unlinking takes out that node only |
| `ThreadList.List.AddHead` | os161/kern/thread/threadlist.c:162-170 | the sequence with the thread in front |
| `ThreadList.List.AddTail` | os161/kern/thread/threadlist.c:172-180 | the sequence with the thread at the end |
| `ThreadList.List.RemHead` | os161/kern/thread/threadlist.c:182-198 | the first thread, or nothing exactly when empty |
| `ThreadList.List.RemTail` | os161/kern/thread/threadlist.c:200-216 | the last thread, or nothing exactly when empty |
| `ThreadList.List.InsertAfter` | os161/kern/thread/threadlist.c:218-224 | insertion after a thread on the list |
| `ThreadList.List.InsertBefore` | os161/kern/thread/threadlist.c:226-232 | insertion before a thread on the list |
| `ThreadList.List.Remove` | os161/kern/thread/threadlist.c:234-240 | the sequence without that thread |
| `Migration.ShareIsEven` | os161/kern/thread/thread.c:868 | the share is enough for all when every CPU has it, and one less would not be |
| `Migration.OneEvenShare` | os161/kern/thread/thread.c:868 | only one number is |
| `Migration.SumIsAll` | os161/kern/thread/thread.c:857-866 | the counts add up to the number of threads on the queues |
| `Migration.ShareCovers` | os161/kern/thread/thread.c:868-872 | the shares of all CPUs together cover the total |
| `Migration.RoomSuffices` | os161/kern/thread/thread.c:868-885 | the other CPUs' room up to the share adds up to at least what is sent |
| `Migration.TakeTail` | os161/kern/thread/thread.c:873-880 | the surplus comes off the tail in order, never from an empty queue |
| `Migration.Fill` | os161/kern/thread/thread.c:888-930 | a queue is filled up to the share from a list that never runs out; the running thread is never sent |
| `Migration.Spread` | os161/kern/thread/thread.c:882-932 | all other queues in turn; if something is left every one of them was full; nothing lost or duplicated |
| `Migration.Migrate` | os161/kern/thread/thread.c:847-950 | with T threads counted on n CPUs, and whatever the queues hold when locked: threads are conserved; a queue gains at its end, never the running thread, and holds less than T/n + 1 if it gained; with queues unchanged the sender keeps its s threads, T <= n s < T + n, plus one exactly when the running thread was among its surplus, or all it has if that is less |
| `Semaphore.StepKeeps` | os161/kern/thread/synch.c:88-135 | P and V keep the invariant |
| `Semaphore.RunInv` | os161/kern/thread/synch.c:88-135 | it holds at every point of every run |
| `Semaphore.CountIsConserved` | os161/kern/thread/synch.c:88-135 | count = initial + Vs - completed Ps at every point of every run |
| `Semaphore.SleepersInOrder` | os161/kern/thread/synch.c:88-135 | over any stretch of any run those asleep and then those whose P finds 0 are those V wakes, one each while any sleeps, and then those still asleep, in order |
| `Semaphore.WokenLooksAgain` | os161/kern/thread/synch.c:95-119 | whom V wakes is among those still to look at the count until its next P |
| `Semaphore.NoLostWakeup` | os161/kern/thread/synch.c:88-135 | while anyone sleeps, the count is at most the number of woken threads yet to recheck |
| `Hangman.ChainFits` | os161/kern/thread/hangman.c:50-70 | on an acyclic graph a walk meets no actor twice, hence ends |
| `Hangman.WalkEnds` | os161/kern/thread/hangman.c:58-68 | a walk that ends without meeting the target proves no chain leads there |
| `Hangman.ClosesCycle` | os161/kern/thread/hangman.c:109-129 | if the holder leads to the actor, waiting closes a cycle |
| `Hangman.StaysAcyclic` | os161/kern/thread/hangman.c:109-129 | if it does not, the graph stays acyclic |
| `Hangman.HolderChange` | os161/kern/thread/hangman.c:131-182 | acquiring and releasing create no cycle |
| `Hangman.Detector.Check` | os161/kern/thread/hangman.c:50-94 | terminates, and finds the target exactly when a chain leads there |
| `Hangman.Detector.Wait` | os161/kern/thread/hangman.c:109-129 | reports a deadlock exactly when the new edge would close a cycle, and otherwise adds it |
| `Hangman.Detector.Acquire` | os161/kern/thread/hangman.c:131-157 | moves the edge to the new holder; the graph stays acyclic; misuse exactly as checked |
| `Hangman.Detector.Release` | os161/kern/thread/hangman.c:159-182 | drops the holder; the graph stays acyclic; misuse exactly as checked |
| `Chains.Unlink` | os161/kern/vm/kmalloc.c:822-845 | walking a pointer to a link and storing past the element removes exactly it; absent, nothing changes |
| `PagerefPool.FullIffAllUsed` | os161/kern/vm/kmalloc.c:265-269 | the count reaches 256 exactly when every bit is set |
| `PagerefPool.FirstFree` | os161/kern/vm/kmalloc.c:274-292 | the search of a root that is not full finds its first clear bit and cannot fall through |
| `PagerefPool.Pool.Reserve` | os161/kern/vm/kmalloc.c:256-298 | the first free slot of the first root that has one; none exactly when all bits are set |
| `PagerefPool.Pool.PageArrived` | os161/kern/vm/kmalloc.c:218-251 | after the lock is retaken: the page is kept, or given back if someone else supplied one |
| `PagerefPool.SlotNumber` | os161/kern/vm/kmalloc.c:322-324 | the unsigned slot number is in range for the owning root only |
| `PagerefPool.Pool.Free` | os161/kern/vm/kmalloc.c:303-337 | clears exactly that slot's bit, or stops the system exactly when a lower root has slots in use but no page |
| `PagerefPool.ReleaseIsSafe` | os161/kern/vm/kmalloc.c:315-320 | releasing is safe exactly when every lower root with slots in use has a page |
| `HeapPage.WalkIsFree` | os161/kern/vm/kmalloc.c:924-942 | following the stored links from the head meets the free list in order and then NULL, however many more steps are allowed: acyclic and complete |
| `HeapPage.Push` | os161/kern/vm/kmalloc.c:1116-1138 | a block's first word takes the old head; the list gains exactly that block |
| `HeapPage.Pop` | os161/kern/vm/kmalloc.c:924-942 | the head's first word is the next head; the list loses exactly the head |
| `HeapPage.BlocksApart` | os161/kern/vm/kmalloc.c:1094-1097 | aligned blocks of a page do not overlap |
| `HeapPage.StoreOutside` | os161/kern/vm/kmalloc.c:43-53 | a store into a block in use cannot touch the free list |
| `HeapPage.AllFreeByCount` | os161/kern/vm/kmalloc.c:1140-1141 | the count reaches the page's capacity exactly when every block is free |
| `HeapPage.Carve` | os161/kern/vm/kmalloc.c:989-1008 | a fresh page, whatever it held, is linked so that every block is on the list once |
| `HeapInvariant.TakeKeeps` | os161/kern/vm/kmalloc.c:924-942 | taking a block keeps all of the heap's structure; the block was not live |
| `HeapInvariant.PutKeeps` | os161/kern/vm/kmalloc.c:1116-1138 | so does giving one back |
| `HeapInvariant.RemoveKeeps` | os161/kern/vm/kmalloc.c:1141-1144 | so does taking an empty page off both lists and releasing its slot |
| `HeapInvariant.InstallKeeps` | os161/kern/vm/kmalloc.c:989-1014 | so does adding a page |
| `HeapInvariant.ReserveKeeps` | os161/kern/vm/kmalloc.c:280-282 | so does reserving a slot |
| `HeapInvariant.RootPageKeeps` | os161/kern/vm/kmalloc.c:250 | so does giving a root its page |
| `HeapInvariant.StoreKeeps` | os161/kern/vm/kmalloc.c:43-53 | so does any store into a live block |
| `HeapInvariant.BigKeeps` | os161/kern/vm/kmalloc.c:1186-1198 | so does a whole-page allocation |
| `HeapInvariant.BigGone` | os161/kern/vm/kmalloc.c:1219-1222 | so does giving one back |
| `HeapInvariant.OneOwner` | os161/kern/vm/kmalloc.c:1072-1090 | the page an address lies on is the page of the block there: the search for it finds the right one |
| `HeapInvariant.ReservedNotListed` | os161/kern/vm/kmalloc.c:980-989 | a reserved reference is on no list yet |
| `KernelHeap.LiveBlocksApart` | os161/kern/vm/kmalloc.c:873-1160 | live blocks are pairwise disjoint |
| `KernelHeap.LiveBlockFits` | os161/kern/vm/kmalloc.c:851-942 | a live block is inside its page, aligned to its size and at least as large as asked for |
| `KernelHeap.WholePagesApart` | os161/kern/vm/kmalloc.c:1169-1206 | whole-page allocations overlap neither each other nor any live block |
| `KernelHeap.FreeListIsTheRest` | os161/kern/vm/kmalloc.c:873-1160 | following a page's links from its list head meets exactly its non-live blocks, each once, nfree of them, and then NULL, however long a walk is allowed; the head is the invalid offset exactly when nfree is 0 |
| `KernelHeap.PageAccounting` | os161/kern/vm/kmalloc.c:341-346 | a page is once on the all-pages list, once on its size's list and on no other; a slot's bit is set exactly for a reservation or a listed page, each page having its own slot |
| `KernelHeap.WholePagesSuffice` | os161/kern/vm/kmalloc.c:1190-1192 | the pages asked for suffice, with less than one to spare, exactly when rounding up does not overflow |
| `KernelHeap.LargestRequest` | os161/kern/vm/kmalloc.c:1190-1192 | the largest request asks for no pages |
| `KernelHeap.PackedByMasks` | os161/kern/vm/kmalloc.c:156-158 | the packed word's parts are what the masks take out |
| `KernelHeap.BlockTypeFor` | os161/kern/vm/kmalloc.c:851-867 | the smallest block type that fits, and none exactly above the largest |
| `KernelHeap.Heap.constructor` | os161/kern/vm/kmalloc.c:341-346 | the empty heap satisfies the invariant |
| `KernelHeap.Heap.Scan` | os161/kern/vm/kmalloc.c:914-920 | finds a page of the size with a free block exactly when there is one |
| `KernelHeap.Heap.TakeBlock` | os161/kern/vm/kmalloc.c:924-942 | one block that was not live becomes live |
| `KernelHeap.Heap.TryAlloc` | os161/kern/vm/kmalloc.c:905-955 | serves a request of the best-fitting size exactly when a page of it has a free block |
| `KernelHeap.Heap.ReserveRef` | os161/kern/vm/kmalloc.c:256-298 | a slot is reserved, or none is free at all |
| `KernelHeap.Heap.RefPageArrived` | os161/kern/vm/kmalloc.c:218-251 | the slot is usable exactly when its root has a page; otherwise it stays reserved for good |
| `KernelHeap.Heap.AddPage` | os161/kern/vm/kmalloc.c:989-1014 | the carved page goes to the front of both lists with all blocks free |
| `KernelHeap.Heap.InstallPage` | os161/kern/vm/kmalloc.c:989-1017 | and gives its first block to the request |
| `KernelHeap.Heap.SubpageKmalloc` | os161/kern/vm/kmalloc.c:873-1018 | the whole request. It fails exactly when no page of the best-fitting size has a free block and there is no new page, or no slot for a reference, or the first root with one has no page and gets none. From a page in use nothing but that block changes; from a new page the block lies on it, the page is the first of all, described in the first root with a slot, which has its own page or the one given. Failing, nothing changes, except that a slot whose root got no page is lost |
| `KernelHeap.Heap.KmallocLarge` | os161/kern/vm/kmalloc.c:1186-1198 | a whole-page request records pages at least as large as asked for |
| `KernelHeap.Heap.FindPage` | os161/kern/vm/kmalloc.c:1072-1090 | the page an address lies on, or none |
| `KernelHeap.Heap.PutBlock` | os161/kern/vm/kmalloc.c:1116-1138 | the block goes to the head of its page's free list |
| `KernelHeap.Heap.DropPage` | os161/kern/vm/kmalloc.c:1141-1147 | the page leaves both lists; stops the system exactly when a reservation sits in a lower root without a page |
| `KernelHeap.Heap.Kfree` | os161/kern/vm/kmalloc.c:1024-1223 | exactly that block or those pages go; a page is returned exactly when its last block is freed; memory changes in that block only, which is left filled past the link; stops the system exactly when `DropPage` does |
| `KernelHeap.Heap.StoreWord` | os161/kern/vm/kmalloc.c:47-52 | a store into a live block, the heap's or its client's, changes that word only and nothing the heap relies on |
| `KernelHeap.Heap.FillDeadbeef` | os161/kern/vm/kmalloc.c:43-53 | every word of the block is overwritten and no other; the heap stays sound |
| `KernelHeap.PagelessIff` | os161/kern/vm/kmalloc.c:316-320 | the condition that stops the system, in terms of reservations |
| `KernelHeap.FailedRequestsThenFree` | os161/kern/vm/kmalloc.c:256-337 | 256 failed requests, one served and freed: the system stops |
| `Bitmap.Map.constructor` | os161/kern/lib/bitmap.c:56-90 | no bit set; the leftover bits of the last byte are |
| `Bitmap.Map.Alloc` | os161/kern/lib/bitmap.c:98-121 | the lowest clear bit is set; none exactly when all are set; a leftover bit is never found |
| `Bitmap.Map.Mark` | os161/kern/lib/bitmap.c:134-145 | that bit is added to the set |
| `Bitmap.Map.Unmark` | os161/kern/lib/bitmap.c:147-158 | that bit is taken from the set |
| `Bitmap.Map.IsSet` | os161/kern/lib/bitmap.c:161-169 | membership |
| `Bitmap.BitsRoundTrip` | os161/kern/lib/bitmap.c:46-53 | a byte's bits are what it was made from |
| `Bitmap.BitIsWorth` | os161/kern/lib/bitmap.c:122-132 | bit k of a byte is worth 2^k |
| `SfsLayout.WordsRoundTrip` | os161/kern/fs/sfs/sfs_bmap.c:164-187 | an indirect buffer written and read back is the same |
| `SfsLayout.InodeRoundTrip` | os161/kern/fs/sfs/sfs_inode.c:46-61 | an inode written and read back is the same |
| `SfsLayout.InodeBytes` | os161/kern/include/kern/sfs.h:83-90 | where each field of an inode is in its block, most significant byte first, with zeros to the end |
| `SfsLayout.DecodeZeros` | os161/kern/fs/sfs/sfs_inode.c:208-217 | a zeroed block reads as an inode of no type, so creation may set it |
| `SfsState.OneOwnerEach` | os161/kern/fs/sfs/sfs_bmap.c:48-302 | two owners never share a block; every owned block is marked and on the disk |
| `SfsState.MarkedHasOwner` | os161/kern/fs/sfs/sfs_bmap.c:48-302 | every marked block has an owner: none is leaked |
| `SfsState.ZeroIsTaken` | os161/kern/fs/sfs/sfs_bmap.c:84-98 | block 0 is never free, so 0 can mean no block |
| `SfsState.MappedIsMarked` | os161/kern/fs/sfs/sfs_bmap.c:95-102 | a mapped block, an inode's block and its indirect block are marked: those panics are unreachable |
| `SfsState.GiveDirectKeeps` | os161/kern/fs/sfs/sfs_bmap.c:84-93 | a direct pointer taking a fresh block keeps ownership, all data and all other mappings |
| `SfsState.GiveIndirectKeeps` | os161/kern/fs/sfs/sfs_bmap.c:139-159 | so does an inode taking an indirect block |
| `SfsState.GiveEntryKeeps` | os161/kern/fs/sfs/sfs_bmap.c:173-188 | so does an indirect entry taking a fresh block |
| `SfsState.TakeDirectKeeps` | os161/kern/fs/sfs/sfs_bmap.c:234-241 | giving up a direct block touches no other block of any file |
| `SfsState.TakeEntryKeeps` | os161/kern/fs/sfs/sfs_bmap.c:264-270 | so does giving up an indirect entry |
| `SfsState.TakeIndirectKeeps` | os161/kern/fs/sfs/sfs_bmap.c:277-282 | so does giving up an indirect block without entries |
| `SfsState.WriteDataKeeps` | os161/kern/fs/sfs/sfs_io.c:210-218 | writing a file's block changes that block of that file only, and no mapping |
| `SfsState.SyncKeeps` | os161/kern/fs/sfs/sfs_inode.c:46-61 | writing an inode back changes no file and makes its block agree |
| `SfsState.NewInodeKeeps` | os161/kern/fs/sfs/sfs_inode.c:261-286 | a new inode's blocks are all holes and nobody else's data changes |
| `SfsState.DropInodeKeeps` | os161/kern/fs/sfs/sfs_inode.c:112-115 | discarding an inode without blocks frees its block only |
| `SfsState.LoadKeeps` | os161/kern/fs/sfs/sfs_inode.c:198-206 | loading an inode changes nothing anyone sees |
| `SfsState.ForgetKeeps` | os161/kern/fs/sfs/sfs_inode.c:117-132 | nor does forgetting a clean one |
| `SfsState.SetMetaKeeps` | os161/kern/fs/sfs/sfs_bmap.c:294-298 | nor does changing size, type or link count, as to blocks |
| `SfsState.FormattedInv` | os161/userland/sbin/mksfs/mksfs.c:95-184 | a newly made volume satisfies the invariant |
| `SfsState.FreemapContents` | os161/kern/fs/sfs/sfs_fsops.c:85-104 | writing the free map's blocks changes no file |
| `SfsState.FreemapCovers` | os161/kern/include/kern/sfs.h:59-62 | the map has a bit for every block, in as few blocks as will do |
| `SfsVolume.MapBitOnDisk` | os161/kern/fs/sfs/sfs_fsops.c:74-104 | the bit of block b is bit b % 8 of byte b / 8 of the blocks from block 2 on |
| `SfsVolume.Volume.constructor` | os161/kern/fs/sfs/sfs_fsops.c:451-465 | mounting reads the free map from its blocks, bit for bit |
| `SfsVolume.Volume.SyncFreemap` | os161/kern/fs/sfs/sfs_fsops.c:129-144 | afterwards the map is on disk as it is and not dirty; no file changed |
| `SfsVolume.Volume.Balloc` | os161/kern/fs/sfs/sfs_balloc.c:57-79 | the lowest free block, marked and zeroed, never block 0; no space exactly when every block is marked; the map is rounded up to whole blocks with the bits past the end set, so an invalid block is never found |
| `SfsVolume.Volume.Bfree` | os161/kern/fs/sfs/sfs_balloc.c:84-89 | unmarks a block that is in use |
| `SfsVolume.Volume.Bused` | os161/kern/fs/sfs/sfs_balloc.c:94-102 | whether a block is marked |
| `SfsVolume.Volume.BmapDirect` | os161/kern/fs/sfs/sfs_bmap.c:75-105 | a direct block, allocated on demand |
| `SfsVolume.Volume.AddIndirect` | os161/kern/fs/sfs/sfs_bmap.c:139-159 | the indirect block, zeroed; no file changes |
| `SfsVolume.Volume.BmapIndirect` | os161/kern/fs/sfs/sfs_bmap.c:107-197 | a block through the indirect block, allocated on demand |
| `SfsVolume.Volume.Bmap` | os161/kern/fs/sfs/sfs_bmap.c:48-198 | the mapped block; at most that one mapping changes and no file's bytes; too big exactly past the last entry; no space only when full |
| `SfsVolume.Volume.TruncDirect` | os161/kern/fs/sfs/sfs_bmap.c:230-241 | exactly the direct blocks from the new length on go |
| `SfsVolume.Volume.TruncEntries` | os161/kern/fs/sfs/sfs_bmap.c:262-275 | exactly the indirect entries past the new length go |
| `SfsVolume.Volume.TruncIndirect` | os161/kern/fs/sfs/sfs_bmap.c:252-292 | the indirect block goes once empty, else it is written back |
| `SfsVolume.Volume.Itrunc` | os161/kern/fs/sfs/sfs_bmap.c:203-302 | cut to `len`: every byte below `len` is what it was, every block that holds one stays in place, every direct block from `len` on goes, and every indirect one but the one that begins within a block of it; no other file changes, and the length recorded is `len` in 32 bits. A length counts modulo 2^41, and as 0 among the last 511 before that |
| `SfsVolume.Volume.GiveUpPast` | os161/kern/fs/sfs/sfs_bmap.c:230-292 | exactly the blocks past a length in blocks go, and the indirect block with the last entry |
| `SfsVolume.BlocksBelow` | os161/kern/fs/sfs/sfs_bmap.c:218 | the length in blocks counts the blocks that begin below the length |
| `SfsVolume.KeepsWhatIsBelow` | os161/kern/fs/sfs/sfs_bmap.c:218 | every block below the length survives exactly when the length in blocks does not overflow, or wraps to cover all |
| `SfsVolume.Volume.LoadInode` | os161/kern/fs/sfs/sfs_inode.c:185-233 | loading an inode in use reads what is on disk and changes nothing else; the system stops exactly if its type is unknown; its block is marked |
| `SfsVolume.Volume.SyncInode` | os161/kern/fs/sfs/sfs_inode.c:46-61 | afterwards disk and memory agree; no file's bytes, size, type or links changed, and nothing else loaded |
| `SfsVolume.Volume.Makeobj` | os161/kern/fs/sfs/sfs_inode.c:258-286 | a new empty object in a block nobody owned, loaded; everything else as it was; no space exactly when every block is marked |
| `SfsVolume.Volume.Reclaim` | os161/kern/fs/sfs/sfs_inode.c:96-136 | without links the file's blocks and inode go, with links it is written back; every other file's bytes, size, type and links and every other loaded inode stay |
| `Uio.Request.MovePiece` | os161/kern/lib/uio.c:83-115 | part of one piece moves |
| `Uio.Request.Move` | os161/kern/lib/uio.c:41-119 | however the memory is cut up, exactly the next bytes move, in order, and offset and residue by as many |
| `Uio.Request.MoveZeros` | os161/kern/lib/uio.c:121-145 | the next bytes become zeros |
| `SfsFile.FileBlockIs` | os161/kern/fs/sfs/sfs_io.c:176 | the 32-bit block number is the offset's own exactly below 2^41 |
| `SfsFile.DeviceBlockIs` | os161/kern/fs/sfs/sfs_io.c:265 | the 32-bit device offset addresses the block itself exactly below block 2^23 |
| `SfsFile.LowVolume` | os161/kern/fs/sfs/sfs_io.c:265 | on a volume of at most 2^23 blocks every request is in reach |
| `SfsFile.WroteBlock` | os161/kern/fs/sfs/sfs_io.c:203-217 | splicing bytes into one block writes exactly those bytes of the file |
| `SfsFile.PartialIo` | os161/kern/fs/sfs/sfs_io.c:148-221 | part of a block, read or written: exactly those bytes, holes as zeros, nothing on failure |
| `SfsFile.DeviceIo` | os161/kern/fs/sfs/sfs_io.c:58-102 | the device moves the block the request's offset addresses |
| `SfsFile.Direct` | os161/kern/fs/sfs/sfs_io.c:260-286 | offset and residue are set aside and come back moved by one block |
| `SfsFile.BlockIo` | os161/kern/fs/sfs/sfs_io.c:226-286 | a whole block, read or written, holes as zeros, for any block in the device offset's reach |
| `SfsFile.Transfer` | os161/kern/fs/sfs/sfs_io.c:322-372 | leading part, whole blocks, trailing part: together exactly the next bytes; what had moved before an error stays moved; no space only at a block the file did not have |
| `SfsFile.WroteMore` | os161/kern/fs/sfs/sfs_io.c:322-372 | two writes in a row are one write of both |
| `SfsFile.Grow` | os161/kern/fs/sfs/sfs_io.c:376-382 | the size grows to the end of the write, no other inode fact changes |
| `SfsFile.Io` | os161/kern/fs/sfs/sfs_io.c:290-389 | a write changes exactly those bytes of that file and no other, and then the file is as long as before or ends with them, whichever is longer, in 32 bits; a read below the size returns the bytes there, all that were asked for or up to the size, and one from the size on none; offset and residue move by exactly that |
| `SfsFile.ReadBack` | os161/kern/fs/sfs/sfs_io.c:290-389 | what was written is what a read finds |
| `SfsFile.LandsWhereAsked` | os161/kern/fs/sfs/sfs_io.c:176 | a write lands at its own offset exactly below 2^41 |
| `SfsFile.MetaRead` | os161/kern/fs/sfs/sfs_io.c:404-449 | metadata bytes within a block, zeros from a hole |
| `SfsFile.MetaWrite` | os161/kern/fs/sfs/sfs_io.c:404-480 | exactly those bytes are written, and the size is the larger of what it was and their end |
| `SfsFile.IoOnly` | os161/kern/fs/sfs/sfs_io.c:290-389 | reading or writing a file leaves every other file, and all types and link counts, alone |
| `SfsFile.TruncOnly` | os161/kern/fs/sfs/sfs_bmap.c:203-302 | so does truncating it |
| `SfsFile.FileSame` | os161/kern/fs/sfs/sfs_inode.c:46-286 | creating, loading, writing back and letting go of other inodes leaves a file alone |
| `SfsDir.EntryRoundTrip` | os161/kern/fs/sfs/sfs_dir.c:176-180 | an entry stored and read back is the same |
| `SfsDir.EntryBytes` | os161/kern/include/kern/sfs.h:95-98 | where an entry's inode number and name are, with zeros to the end |
| `SfsDir.NamesAre` | os161/kern/fs/sfs/sfs_dir.c:102-147 | a name is bound exactly when an entry in use has it, to that entry's inode |
| `SfsDir.NamesFull` | os161/kern/fs/sfs/sfs_dir.c:102-147 | with every entry in use there are as many names as entries |
| `SfsDir.DirFrame` | os161/kern/fs/sfs/sfs_dir.c:80-147 | whatever is done to other files, a directory keeps its uniqueness, its whole number of entries and its map |
| `SfsDir.FormattedRootIsEmpty` | os161/userland/sbin/mksfs/mksfs.c:167-184 | a newly made volume's root directory binds no name |
| `SfsDir.LinkAdds` | os161/kern/fs/sfs/sfs_dir.c:152-190 | storing an unbound name in a free slot or at the end adds exactly that binding and keeps names unique |
| `SfsDir.UnlinkRemoves` | os161/kern/fs/sfs/sfs_dir.c:194-206 | clearing a slot removes exactly its binding |
| `SfsDir.ReadSlot` | os161/kern/fs/sfs/sfs_dir.c:46-56 | the slot's entry |
| `SfsDir.WriteSlot` | os161/kern/fs/sfs/sfs_dir.c:62-73 | that slot and no other is set; the size stays a whole number of entries |
| `SfsDir.NumEntries` | os161/kern/fs/sfs/sfs_dir.c:80-96 | the number of slots; the size check cannot fail |
| `SfsDir.FindName` | os161/kern/fs/sfs/sfs_dir.c:102-147 | found exactly when bound, at its only slot; the last free slot; the uniqueness assertion holds |
| `SfsDir.Link` | os161/kern/fs/sfs/sfs_dir.c:152-190 | refused exactly when bound or too long; otherwise the map gains exactly that binding, or the disk is full, or the directory is, with 1144 names; no other file changes |
| `SfsDir.Unlink` | os161/kern/fs/sfs/sfs_dir.c:194-206 | the map loses exactly the slot's binding, if it has one, and then it cannot fail; no other file changes |
| `SfsNames.StepKeeps` | os161/kern/fs/sfs/sfs_vnops.c:281-512 | every operation keeps: each name is that of a file in use, each link count is the number of names |
| `SfsNames.RunInv` | os161/kern/fs/sfs/sfs_vnops.c:281-512 | so does every run from a newly made volume |
| `SfsNames.NamesLiveFiles` | os161/kern/fs/sfs/sfs_vnops.c:281-512 | in every run a name's file is in use with a positive link count, and a file that is reclaimed has no name |
| `SfsNames.OpsMean` | os161/kern/fs/sfs/sfs_vnops.c:281-512 | in every run, for each operation, which name is bound or unbound and which count changes by how much; every other name and count stays |
| `SfsNames.FormattedTree` | os161/userland/sbin/mksfs/mksfs.c:95-184 | a newly made volume is such a start, with no names |
| `SfsNames.LinksFit` | os161/kern/fs/sfs/sfs_vnops.c:337-341 | link counts cannot outgrow 16 bits |
| `SfsNames.LookOnce` | os161/kern/fs/sfs/sfs_dir.c:212-238 | finds a name exactly when bound and loads its file, whose link count is positive: no panic |
| `SfsNames.Create` | os161/kern/fs/sfs/sfs_vnops.c:281-347 | opens, refuses or makes the file exactly as asked: one new file with that one name, or one without a name exactly when the name is too long or the disk or the directory is full, or nothing when there is no block for it |
| `SfsNames.LinkFile` | os161/kern/fs/sfs/sfs_vnops.c:354-385 | one more name and one more link, refused exactly for the directory itself, for a name that is taken or too long, or when the disk or the directory is full |
| `SfsNames.Remove` | os161/kern/fs/sfs/sfs_vnops.c:390-422 | that name and one link go; erasing the entry cannot fail and the count cannot underflow |
| `SfsNames.Rename` | os161/kern/fs/sfs/sfs_vnops.c:430-512 | the file moves to the new name with its count unchanged; refused exactly as `LinkFile` refuses a name; the second half cannot fail, so there is never anything to undo |
| `SfsNames.FileIo` | os161/kern/fs/sfs/sfs_vnops.c:96-130 | reading and writing a file does what `SfsFile.Io` says and keeps names, counts and every other file |
| `SfsNames.Truncate` | os161/kern/fs/sfs/sfs_vnops.c:248-255 | so does truncating it, which cuts it as `Itrunc` says |
| `SfsNames.Fsync` | os161/kern/fs/sfs/sfs_vnops.c:220-232 | so does writing an inode back |
| `SfsNames.Load` | os161/kern/fs/sfs/sfs_inode.c:149-256 | so does loading one, which never stops the system |
| `SfsNames.Reclaim` | os161/kern/fs/sfs/sfs_inode.c:68-143 | a file without names goes, anything else stays; names and other files are kept |
| `SfsFormat.InitFreemap` | os161/userland/sbin/mksfs/mksfs.c:95-121 | exactly the superblock, root inode, map blocks and the bits past the end are marked |
| `SfsFormat.Format` | os161/userland/sbin/mksfs/mksfs.c:95-184 | refused exactly above 131072 blocks, where the map would be too large, and below 3, where it would not fit; otherwise a consistent volume with its map on disk |
| `SfsFormat.Remount` | os161/kern/fs/sfs/sfs_fsops.c:275-302 | unmounting and mounting again finds the same volume |
| `SfsFormat.FarBlock` | os161/kern/fs/sfs/sfs_io.c:260-277 | a whole-block transfer to disk block 2^23 overwrites block 0 |
| `SfsFormat.FarWriteOnNewVolume` | os161/kern/fs/sfs/sfs_io.c:176 | a byte written at 2^41 of the first file of a new volume becomes its first byte, and its length 1 |
| `SfsFormat.TruncateKeepsOne` | os161/kern/fs/sfs/sfs_bmap.c:264-270 | a truncation to 15 blocks keeps file block 15 |
| `SfsFormat.FarTruncate` | os161/kern/fs/sfs/sfs_bmap.c:218 | a file cut to 2^41 - 1 bytes loses its first block |
| `VnodeProtocol.StepKeeps` | os161/kern/fs/sfs/sfs_inode.c:68-256 | incref, decref, load and reclaim keep the invariant |
| `VnodeProtocol.RunInv` | os161/kern/fs/sfs/sfs_inode.c:68-256 | it holds at every point of every run |
| `VnodeProtocol.ReferencesAccounted` | os161/kern/vfs/vnode.c:79-123 | the count is references held plus reclaims pending, at most one of which; a held vnode exists; the table has one vnode per inode |
| `VnodeProtocol.DestroyedIsUnheld` | os161/kern/fs/sfs/sfs_inode.c:83-142 | a vnode being destroyed has count 1, no holder and no other reclaim |
| `VnodeProtocol.BusyReclaim` | os161/kern/fs/sfs/sfs_inode.c:83-94 | a reclaim that finds it picked up again consumes exactly its own reference |
| `VnodeProtocol.LoadGives` | os161/kern/fs/sfs/sfs_inode.c:160-256 | loading an inode gives exactly one reference more, to the vnode of that inode: the one in the table, or a new one that joins it when there is none |
| `VnodeProtocol.IncrefGives` | os161/kern/vfs/vnode.c:79-87 | one reference more to that vnode, nothing else |
| `VnodeProtocol.DecrefTakes` | os161/kern/vfs/vnode.c:93-123 | one reference fewer in hand; the count falls unless it was the last, which goes on to reclaim with this thread |
| `VnodeProtocol.ReclaimGoesAhead` | os161/kern/fs/sfs/sfs_inode.c:75-94 | reclaim goes ahead, with the big lock, exactly when nobody holds the vnode |
| `VnodeProtocol.ReclaimEnds` | os161/kern/fs/sfs/sfs_inode.c:117-142 | that vnode and no other leaves the table and goes |
| `LhdProtocol.StepKeeps` | os161/kern/dev/lamebus/lhd.c:102-265 | callers, device and interrupt handler keep the invariant |
| `LhdProtocol.RunInv` | os161/kern/dev/lamebus/lhd.c:102-265 | it holds at every point of every run |
| `LhdProtocol.OneInFlight` | os161/kern/dev/lamebus/lhd.c:185-265 | at most one request in flight and one thread in its turn; between turns the token is back and the card quiet |
| `LhdProtocol.OwnSector` | os161/kern/dev/lamebus/lhd.c:234-262 | a turn that succeeds has moved its own sector's data and restores the token |
| `LhdProtocol.OwnCompletion` | os161/kern/dev/lamebus/lhd.c:240-244 | the completion collected is the collector's own: no other thread is in a turn |
| `LhdProtocol.TurnOf` | os161/kern/dev/lamebus/lhd.c:185-265 | whoever is in a turn got there by its own steps, the device's and the handler's, in order |
| `LhdProtocol.AnswerIsTheDevices` | os161/kern/dev/lamebus/lhd.c:209-262 | the answer a thread leaves with is the code the device finished its request with, after it entered and started it and before it collected the interrupt; a read returns what the disk then held, a write is on it |
| `LhdProtocol.DiskChangesByWrites` | os161/kern/dev/lamebus/lhd.c:225-240 | the disk changes only as the device finishes the write of the thread that started it, by that sector |
| `LhdProtocol.FaultTouchesNothing` | os161/kern/dev/lamebus/lhd.c:225-232 | a turn whose data cannot be copied in never reaches the device and lets the next in |
| `NumberText.BufferSuffices` | os161/common/libc/printf/__printf.c:76-84 | every 64-bit number in bases 8 to 16 fits the buffer with its terminator |
| `NumberText.BufferIsTight` | os161/common/libc/printf/__printf.c:76-84 | the largest in octal fills it exactly |
| `NumberText.PrintDigits` | os161/common/libc/printf/__printf.c:413-467 | the buffer filled from the right holds the number's text; the pointer never leaves it |
| `NumberText.Accumulate` | os161/common/libc/stdlib/atoi.c:70-92 | the digits' value in an unsigned 32-bit word |
| `NumberText.Atoi` | os161/common/libc/stdlib/atoi.c:49-101 | blanks, a sign and digits parse to the signed 32-bit reading of their value |
| `NumberText.TextIsDigits` | os161/common/libc/printf/__printf.c:435-455 | a number's decimal text has its value |
| `NumberText.TextMeans` | os161/common/libc/printf/__printf.c:416-455 | in every base up to 16 a number's text is digits of that base, 0 to 9 and a to f, with its value and none wasted |
| `NumberText.ParsedParts` | os161/common/libc/stdlib/atoi.c:56-101 | blanks and tabs, `-`, `+` or no sign, digits or none, and anything after parse to the signed 32-bit reading of the digits, 0 for none |
| `NumberText.PartsOf` | os161/common/libc/stdlib/atoi.c:56-92 | every text divides in this way |
| `NumberText.Signed32Is` | os161/common/libc/stdlib/atoi.c:94-100 | the reading in 32 bits is the number in range that is the same modulo 2^32 |
| `Printf.AtoiUndoesPrint` | os161/common/libc/printf/__printf.c:365-404 | a number printed at any width, with any padding but zeros on the right, parses to itself |
| `Printf.ZerosOnTheRight` | os161/common/libc/printf/__printf.c:400-403 | with zeros on the right exactly when none was added or the number is 0 |
| `Printf.ShiftedBack` | os161/common/libc/stdlib/atoi.c:88 | appended zeros never wrap back to the same number, since 10^k - 1 is odd |
| `Printf.PrintThenParse` | os161/common/libc/printf/__printf.c:180-491 | both, for every string of modifiers |
| `Printf.PlainPrints` | os161/common/libc/printf/__printf.c:502-509 | text before the first % prints as it is |
| `Printf.OneConversion` | os161/common/libc/printf/__printf.c:496-563 | a conversion prints its field between what comes before and what comes after, which goes on with the arguments left |
| `Printf.PaddedParts` | os161/common/libc/printf/__printf.c:365-404 | a field is blanks, prefix, zeros, text and fill, as the flags ask, exactly as wide as asked or as its text |
| `Printf.NumberPrints` | os161/common/libc/printf/__printf.c:240-491 | d, u, o, x and p print the argument read in 32 or with ll in 64 bits, signed only for d: a sign if negative, 0x or 0 as # asks and always for p, and its digits in base 10, 8 or 16 |
| `Printf.TextPrints` | os161/common/libc/printf/__printf.c:535-562 | s prints its string, or "(null)", c its character, or nothing for 0, and any other character, like %, itself |
| `Printf.OneReadsAsTen` | os161/common/libc/printf/__printf.c:400-403 | 1 printed by `%-02d` is "10", which reads back as 10 |
| `Printf.Snp.Send` | os161/common/libc/printf/snprintf.c:73-93 | what fits is stored, what does not is dropped, nothing beyond is touched |
| `Printf.Printer.Modifier` | os161/common/libc/printf/__printf.c:180-233 | the record after one more modifier is what the modifiers so far ask for |
| `Printf.FlagsStep` | os161/common/libc/printf/__printf.c:180-233 | what each modifier adds to the record |
| `Printf.Printer.EndField` | os161/common/libc/printf/__printf.c:155-169 | the record is reset |
| `Printf.Printer.Fill` | os161/common/libc/printf/__printf.c:348-357 | that many fill characters |
| `Printf.Printer.PrintStuff` | os161/common/libc/printf/__printf.c:365-404 | the text in its field |
| `Printf.Printer.PrintNum` | os161/common/libc/printf/__printf.c:240-491 | the number's field |
| `Printf.Printer.SendChar` | os161/common/libc/printf/__printf.c:496-563 | what has been printed and what the rest of the format will print stay the same together |
| `Printf.Printer.Vprintf` | os161/common/libc/printf/__printf.c:570-592 | exactly what the format describes is sent, and its length returned |
| `Printf.Vsnprintf` | os161/common/libc/printf/snprintf.c:98-142 | the longest prefix that leaves room for a terminator, the terminator, nothing beyond; the untruncated length comes back, as in section 7.19.6.5 of ISO C99 |

## Left out

- `KernelHeap.Heap.KmallocLarge`: a request so large that rounding wraps asks for zero pages; what the page allocator answers to that is not part of this model.
- `KernelHeap.Heap.Kfree`: double frees and pointers that were never handed out are preconditions, as the source does not check them.
- `ThreadSystem.AssertionsHold`: for locks other than the run queues' and a sleeper's channel, that a lock is held when released and not held when acquired is left to the code that uses them, as the source leaves it.
- `SfsFile.Io`: on a volume of more than 2^23 blocks, a write of whole blocks is covered where the file already has those blocks in reach; where the allocator would put new ones is not followed.
- `SfsFile.Transfer`: the same, as `SfsFile.Io` rests on it.
- `SfsFile.BlockIo`: the same, for its one block.
- `Uio.Request.Move`: asking for more than the residue while the current piece is longer than the residue, where the source's residue wraps below zero, is excluded; no caller here does.
- `Uio.Request.MoveZeros`: asking for more than the residue is excluded likewise.
- `Printf.Printer.Vprintf`: the character count and the field width are unbounded integers, not 32-bit ones, and an argument missing or of the wrong kind prints as 0 or "(null)".
- `Semaphore.StepKeeps`: V is not a step when the 32-bit count would wrap to 0, where its assertion stops the system.
- `SfsNames.Remove`: the source lets go of its reference at the end, which may reclaim the file; here that is a step of its own, `SfsNames.Reclaim`, and when it may happen is `VnodeProtocol`.
- Device errors in SFS (the EIO retries and the error exits in the middle of block mapping and truncation): device I/O succeeds.
- Faults copying to and from user memory: requests are over kernel buffers.
- Memory exhaustion in `sfs_loadvnode` and `bitmap_create`: allocation of vnodes and bitmaps succeeds.
- The superblock's contents, its checks at mount and its write-back: mostly field copies. A volume's size is its device's.
- Sleep locks and condition variables, address spaces and semfs: unwritten or resting on unwritten code. The big lock is assumed to exclude.
- The heap's guard bands, labels and consistency checks: compiled out.
- Trap entry, switchframe, bus access and TLB: primitive steps; weak memory ordering is not modelled.
- VFS name tables, path parsing, ELF loading, other drivers, the menu and the console: dispatch and plumbing.
