# Verified models of the i386 locking, paging, checksum, DMA and string primitives

This project models, in Dafny, the small protocols and arithmetic kernels in the i386 headers of a Linux 2.6.20
driver environment (and the library code behind their slow paths), and proves what they guarantee.
`dafny verify dfyconfig.toml` checks everything.

**Concurrent code is a transition system.** Every locked instruction, plain load and plain store is one atomic step
of one context. A run is a schedule: a sequence of events naming who moves next and, for an idle context, which call
it begins. The main results quantify over all schedules and all numbers of contexts. Machine words wrap as they do in
the code, so each lock has an exact bound on contenders, stated as an if-and-only-if: up to the bound no schedule
breaks exclusion, and one context more lets a concrete schedule break it. Stores become visible in program order.

**Sequential code is imperative.** Checksum loops, string operations, the DMA controller and its driver, the floppy
driver, the page flags and the compare-and-swap loop are classes and methods with loops, proved against independent
reference definitions (the one's-complement sum of RFC 1071, an all-at-once copy, a plan of channel programs, bit
positions, one atomic addition).

| file | subject |
|---|---|
| `SpinLock`, `RwLock` | byte spinlock and biased read-write spinlock |
| `RwSem`, `RwSemInvariant`, `RwSemTheorems`, `RwSemStranding`, `RwSemBound`, `RwSemProgress` | read-write semaphore with its wait queue and wake-up code |
| `PageTable` | PAE page-table entries against a hardware walker |
| `LazyTlb` | lazy TLB switching against flush interrupts |
| `OnesComplement`, `IpChecksum`, `CsumPartial` | Internet checksums |
| `Atomic`, `PageCount` | `atomic_add_unless` and the life of a page reference count |
| `Dma8237`, `Floppy` | 8237 controllers, pseudo-DMA and hardware floppy DMA |
| `PageFlags` | packed section, node and zone numbers |
| `StringOps` | wide copies and fills |
| `Sums`, `Tallies`, `Words` | sums over contexts, machine words |

Where a promise is false of the code, the code is kept, a concrete case shows the failure, and the exact condition is
proved:

- The byte spinlock excludes for up to 129 contexts and for no more (`SpinLock.ExclusionExactly`).
- The read-write spinlock excludes exactly while all contributions fit the word (`RwLock.ExclusionExactly`).
- The read-write semaphore excludes, and its releases wake exactly when they must, in every run of any number of
  contexts whose contributions fit the halves of the count (`RwSemTheorems.ExclusionInEveryRun`,
  `RwSemTheorems.EveryReleaseWakes`); the bounds in the header's comment are enough (`RwSemInvariant.HeaderBoundsFit`).
  Counted in contexts alone, it excludes for up to 32769 and for no more (`RwSemBound.ExclusionExactly`).
- The wake-up code of the semaphore can lose a wake-up: the undo branch of `__rwsem_do_wake` compares the whole count
  with zero, where its own comment asks for a transition of the active part. One or two contexts are never left
  behind and three or more can be (`RwSemStranding.StrandingExactly`, with the schedule in `RwSemTheorems.LosingRun`);
  a run leaves somebody stranded exactly when a waker takes its increment back as the last one active
  (`RwSemTheorems.NoLostWakeupExactly`). The retry in that branch is dead code.
- `csum_partial` at an odd address drops the carry of its first addition; its result is right exactly when there is
  none, and over many calls each dropped carry takes one off the sum modulo 65535 (`CsumPartial.CsumPartial`, `CsumPartial.OddByteLosesCarry`,
  `CsumPartial.SumFragments`).
- `set_pte` onto a present entry can show a walker the halves of two entries (`PageTable.TearingRun`). A run with all
  its calls finished never did if and only if every `set_pte` was called on an entry that was not present or agreed
  with the new one in one half (`PageTable.CallsTearExactly`); the header's own rule is enough
  (`PageTable.RuleSuffices`).
- `page_zone_id` is documented as NODE:ZONE or SECTION:ZONE, but the macro that selects the second is looked up under
  a misspelt name. The id is SECTION:ZONE exactly when the section field is no wider than the node number that found no
  room (`PageFlags.ZoneIdIsSectionAndZoneExactly`, with a build in `PageFlags.SectionsConfused`).
- The copies are correct on overlapping buffers exactly when the destination does not lie inside the source above its
  start, or one move does it all (`StringOps.MemcpyExactly`, `StringOps.ConstantMemcpyExactly`, `StringOps.TwoBytesUp`).
- Hardware floppy DMA moves exactly its buffer if and only if the size is between 1 and 64K
  (`Floppy.HardDmaExactly`, `Floppy.EmptyMovesAll`); a page count tells used from unused exactly below 2^32 references
  (`PageCount.FaithfulExactly`).

## Model

| member | source | states |
|---|---|---|
| SpinLock.StepKeepsInv | include/linux26-x86/asm/spinlock.h:30-109 | every access of lock, lock_flags, trylock and unlock keeps: byte 1 means free, otherwise one holder and the byte no lower than minus the number of spinners |
| SpinLock.RunKeepsInv | include/linux26-x86/asm/spinlock.h:30-109 | the same in every reachable state of up to 129 contexts |
| SpinLock.ByteNeverWraps | include/linux26-x86/asm/spinlock.h:30-31 | the signed byte stays between -128 and 1, and is_locked says locked exactly when some context holds |
| SpinLock.OneTooManyBreaks | include/linux26-x86/asm/spinlock.h:35-47 | with 130 contexts the decrement after 128 failed ones wraps and two contexts hold |
| SpinLock.ExclusionExactly | include/linux26-x86/asm/spinlock.h:30-109 | mutual exclusion over all interleavings holds if and only if there are at most 129 contexts |
| SpinLock.AdmittedExactly | include/linux26-x86/asm/spinlock.h:35-109 | in every reachable state of up to 129 contexts a decrement or exchange is admitted if and only if nobody holds the lock, a spinner tries again exactly then, and an unlock frees it |
| RwLock.AccessTracks | include/linux26-x86/asm/spinlock.h:155-215 | each access changes the word by exactly the change of its context's contribution, undo steps of failed attempts included |
| RwLock.StepKeepsInv | src/lib/dde_linux26/arch/i386/lib/semaphore.S:120-153 | fast and slow paths keep: word = bias minus contributions, readers and writers as admitted |
| RwLock.RunKeepsInv | include/linux26-x86/asm/spinlock.h:155-215 | the same in every reachable state |
| RwLock.WordIsExact | include/linux26-x86/asm/spinlock.h:155-215 | whenever the largest sum of contributions fits, the word never wraps, equals BIAS minus read shares minus BIAS times write shares, and a writer is alone |
| RwLock.ReadersBesideWritersFit | include/linux26-x86/asm/spinlock.h:155-215 | fewer than 2^24 readers beside at most 128 writers fit |
| RwLock.OneTooManyBreaks | include/linux26-x86/asm/rwlock.h:20 | one contribution past the word's range reads as a free lock and a reader joins a writer |
| RwLock.ExclusionExactly | include/linux26-x86/asm/spinlock.h:155-215 | exclusion over all interleavings holds if and only if nobody writes or the worst pile of contributions fits the word |
| RwLock.CanLockPredicts | include/linux26-x86/asm/spinlock.h:151-204 | read_can_lock and write_can_lock say exactly whether an undisturbed trylock would succeed |
| RwLock.AdmittedExactly | include/linux26-x86/asm/spinlock.h:169-215 | in every reachable state each test is decided by the other contexts alone: readers by the absence of write shares, writers by the absence of all shares |
| RwLock.UndisturbedCalls | src/lib/dde_linux26/arch/i386/lib/semaphore.S:120-153 | a call nobody interferes with gets the lock if it is free and otherwise leaves the word as it was, spinning or giving up; lock and unlock undo each other |
| RwSem.LeadingReaders | src/linux26/lib/rwsem.c:101-112 | the run of readers at the front of the queue, up to a writer or the end |
| RwSemInvariant.CountDecodes | include/linux26-x86/asm/rwsem.h:8-24 | while the contributions fit, the low half of the count is the active ones and zero means none of either kind |
| RwSemInvariant.SignDecodes | include/linux26-x86/asm/rwsem.h:8-24 | while the contributions fit, to a context without a waiting share the count is exact and negative just when somebody has one |
| RwSemInvariant.DownReadKeepsInv | include/linux26-x86/asm/rwsem.h:97-132 | down_read and its trylock loop keep the invariant, admitted or not |
| RwSemInvariant.DownWriteKeepsInv | include/linux26-x86/asm/rwsem.h:137-171 | down_write and its trylock keep the invariant, admitted or not |
| RwSemInvariant.UpKeepsInv | include/linux26-x86/asm/rwsem.h:176-207 | releases keep the invariant |
| RwSemInvariant.DowngradeKeepsInv | include/linux26-x86/asm/rwsem.h:212-224 | a downgrade keeps the invariant |
| RwSemInvariant.EnqueueKeepsInv | src/linux26/lib/rwsem.c:163-163 | joining the queue keeps it matched with the contexts that wait |
| RwSemInvariant.AdjustKeepsInv | src/linux26/lib/rwsem.c:165-170 | turning an active share into a waiting one keeps the invariant |
| RwSemInvariant.TryKeepsInv | src/linux26/lib/rwsem.c:63-67 | the waker's increment keeps the invariant |
| RwSemInvariant.UndoNeverRetries | src/linux26/lib/rwsem.c:139-143 | undoing the increment never finds the count zero, so the retry is dead code |
| RwSemInvariant.FrontWriterKeepsInv | src/linux26/lib/rwsem.c:69-88 | granting the writer in front keeps the invariant |
| RwSemInvariant.FrontReadersSums | src/linux26/lib/rwsem.c:101-120 | counting in the leading readers moves their shares from the waiting to the active half |
| RwSemInvariant.GrantKeepsInv | src/linux26/lib/rwsem.c:122-134 | waking the counted readers one by one keeps the invariant |
| RwSemInvariant.StepKeepsInv | include/linux26-x86/asm/rwsem.h:97-224 | every access of every context, fast path, queue and wake-up code, keeps the invariant while the contributions fit |
| RwSemInvariant.RunKeepsInv | include/linux26-x86/asm/rwsem.h:97-224 | the invariant holds in every run of any number of contexts whose contributions fit |
| RwSemInvariant.HeaderBoundsFit | include/linux26-x86/asm/rwsem.h:19-23 | contributions within the header's bounds, 65535 active and 32766 waiting, fit |
| RwSemInvariant.FewRunFits | include/linux26-x86/asm/rwsem.h:19-23 | every run of up to 32769 contexts fits and keeps the invariant |
| RwSemTheorems.ExclusionInEveryRun | include/linux26-x86/asm/rwsem.h:8-24 | in every run whose contributions fit: one writer or only readers, however admitted, and the count is active minus 0x10000 times waiting, modulo the word |
| RwSemTheorems.ReleaseWakesExactly | include/linux26-x86/asm/rwsem.h:176-224 | the sign and zero tests of a release look at the queue exactly when nobody active but some waiter remains; of a downgrade, exactly when a waiter remains |
| RwSemTheorems.EveryReleaseWakes | include/linux26-x86/asm/rwsem.h:176-224 | the same for every release and downgrade of every run whose contributions fit |
| RwSemTheorems.NoOvertaking | include/linux26-x86/asm/rwsem.h:97-171 | no fast path or trylock is admitted past a queued waiter |
| RwSemTheorems.GrantsAreFifo | src/linux26/lib/rwsem.c:69-134 | a context leaves the queue only from its front and with the kind of lock it asked for |
| RwSemTheorems.AllLeadingReadersWoken | src/linux26/lib/rwsem.c:96-134 | when a waker is done no reader is left at the front |
| RwSemTheorems.StrandsExactly | src/linux26/lib/rwsem.c:139-143 | exactly one kind of step can leave waiters behind: an undo by the last one active |
| RwSemTheorems.NoLostWakeupExactly | src/linux26/lib/rwsem.c:49-144 | a run whose contributions fit strands nobody if and only if it contains no such step |
| RwSemTheorems.StrandedStays | src/linux26/lib/rwsem.c:174-180 | a stranded queue stays as it is until somebody calls down again |
| RwSemTheorems.LosingRun | src/linux26/lib/rwsem.c:139-143 | a schedule of 22 steps and three contexts ending with nobody active and one context asleep |
| RwSemTheorems.LosingRunStrands | src/linux26/lib/rwsem.c:139-143 | three contexts suffice for a lost wake-up |
| RwSemStranding.DuelStep | src/linux26/lib/rwsem.c:49-185 | with two contexts every access keeps: an increment is undone only while the other one's failed attempt waits for the wait lock |
| RwSemStranding.TwoNeverStrand | src/linux26/lib/rwsem.c:49-252 | one or two contexts never leave a waiter behind |
| RwSemStranding.ThreeStrand | src/linux26/lib/rwsem.c:139-143 | three or more contexts have a schedule that does |
| RwSemStranding.StrandingExactly | src/linux26/lib/rwsem.c:49-252 | no run strands anybody if and only if there are at most two contexts |
| RwSemBound.PileOne | src/linux26/lib/rwsem.c:149-185 | a failing down_write takes six accesses to queue up and lowers the count by 0x10000 |
| RwSemBound.ReaderSlipsIn | include/linux26-x86/asm/rwsem.h:97-109 | behind a writer and 32768 waiters down_read takes the wrapped count for a free lock |
| RwSemBound.ExclusionExactly | include/linux26-x86/asm/rwsem.h:97-224 | writers exclude everybody over all interleavings if and only if there are at most 32769 contexts |
| RwSemProgress.AdmittedExactly | include/linux26-x86/asm/rwsem.h:97-171 | from every state that keeps the invariant: a reader is admitted if and only if nobody waits, a writer if and only if nobody is active or waits, by trylock or not; otherwise it queues up or gives up, and a mismatch of the read trylock goes around |
| RwSemProgress.AdmittedInEveryRun | include/linux26-x86/asm/rwsem.h:97-171 | the same at every step of every run whose contributions fit |
| RwSemProgress.UndisturbedReadTrylock | include/linux26-x86/asm/rwsem.h:114-132 | left alone, down_read_trylock takes one read share if nobody waits and changes nothing if somebody does |
| RwSemProgress.UndisturbedWriteTrylock | include/linux26-x86/asm/rwsem.h:163-171 | left alone, down_write_trylock gets the lock if nobody is active or waits and changes nothing otherwise |
| RwSemProgress.RoundTrips | include/linux26-x86/asm/rwsem.h:97-207 | an uncontended down followed by its up restores the state exactly, for readers and writers |
| RwSemProgress.GrantedAt | src/linux26/lib/rwsem.c:77-134 | granting a part of the queue makes each of its contexts a holder of the kind it asked for and moves nobody else |
| RwSemProgress.TryServes | src/linux26/lib/rwsem.c:49-144 | a waker that finds nobody active serves the writer in front or all leading readers, otherwise nobody, and lets go of the wait lock |
| RwSemProgress.UndisturbedWake | src/linux26/lib/rwsem.c:219-252 | left alone, rwsem_wake and rwsem_downgrade_wake take exactly those off the queue, a downgrade only readers, and return to the caller; one more active share must fit |
| PageTable.HardwareKeepsInv | include/linux26-x86/asm/pgtable-3level.h:46-73 | the walker's accessed and dirty updates never disturb the pairing of the halves |
| PageTable.StepKeepsInv | include/linux26-x86/asm/pgtable-3level.h:52-132 | every store, exchange and bit operation keeps: between calls the halves are clear or belong together, and each call knows which half it has stored |
| PageTable.RunKeepsInv | include/linux26-x86/asm/pgtable-3level.h:52-132 | the same in every reachable state |
| PageTable.TearsExactly | include/linux26-x86/asm/pgtable-3level.h:52-57 | in each step a whole entry becomes torn if and only if the step is the first store of a set_pte over a present entry that differs in both halves |
| PageTable.RunTearsExactly | include/linux26-x86/asm/pgtable-3level.h:46-132 | over any run no walker ever sees a torn entry if and only if no such store is made |
| PageTable.CallsTearExactly | include/linux26-x86/asm/pgtable-3level.h:46-57 | over any run whose calls have returned that holds if and only if every set_pte was called on an entry not present or agreeing in one half |
| PageTable.RuleSuffices | include/linux26-x86/asm/pgtable-3level.h:46-51 | calling set_pte only on entries that are not present, as the header demands, is enough |
| PageTable.TearingRun | include/linux26-x86/asm/pgtable-3level.h:52-57 | a five-step schedule after which a walker sees the old low half with the new high half |
| PageTable.NeverTorn | include/linux26-x86/asm/pgtable-3level.h:52-92 | with safe calls, whenever the present bit is set, both halves come from one entry given to set_pte or set_pte_present, the one installed last or the one being stored, up to accessed, dirty and a withdrawn write bit |
| PageTable.AtRestWhole | include/linux26-x86/asm/pgtable-3level.h:52-132 | between calls both halves are clear or belong to one given entry, present or not |
| PageTable.CallReturns | include/linux26-x86/asm/pgtable-3level.h:52-132 | every call of every run, with any walks in between, has done its job when it returns: both halves installed or cleared, the bit cleared and reported, the write bit withdrawn, nothing else changed but accessed and dirty |
| PageTable.UndisturbedCall | include/linux26-x86/asm/pgtable.h:303-355 | without walks in between the entry and the returned value are exactly those, after at most three accesses |
| PageTable.AgedExactly | include/linux26-x86/asm/pgtable.h:303-355 | what walks may do to an entry: nothing, or set accessed, or on a writable entry set accessed and dirty |
| PageTable.GetAndClearWhole | include/linux26-x86/asm/pgtable-3level.h:122-132 | get-and-clear returns both halves of one given entry, present or not, or the cleared one |
| PageTable.KeptExactly | include/linux26-x86/asm/pgtable.h:303-355 | in each step a tracked hardware bit stays or is reported if and only if the step is no plain overwrite without it |
| PageTable.BitsConserved | include/linux26-x86/asm/pgtable.h:303-355 | in every run a bit the hardware set is still there, was reported by the call that removed it, or was overwritten by a later plain store |
| LazyTlb.StepKeepsInv | include/linux26-x86/asm/mmu_context.h:16-63 | every store of switch_mm and enter_lazy_tlb, page-table change, flush request and interrupt keeps the link between mask, active mm, table and TLB |
| LazyTlb.RunKeepsInv | include/linux26-x86/asm/mmu_context.h:16-63 | the same in every reachable state of any number of CPUs |
| LazyTlb.SwitchedIsTracked | include/linux26-x86/asm/mmu_context.h:25-63 | a CPU that has completed switch_mm is in the mm's mask, on its table, and its TLB is current or will be flushed |
| LazyTlb.UndisturbedSwitch | include/linux26-x86/asm/mmu_context.h:25-63 | left alone, switch_mm clears the old mask bit, sets the new one and loads its table; between equal mms it reloads exactly when the mask bit was clear, and stops on another active mm |
| LazyTlb.UndisturbedLazy | include/linux26-x86/asm/mmu_context.h:16-23 | enter_lazy_tlb marks the CPU lazy and changes nothing else |
| LazyTlb.SwitchReturns | include/linux26-x86/asm/mmu_context.h:25-63 | in every run a switch between two mms that has returned left the old mask, whatever interrupts and changes came in between, and is on the new one |
| LazyTlb.FlushReachesEveryUser | include/linux26-x86/asm/mmu_context.h:31-41 | once a requested flush is handled nobody uses that mm through a stale TLB |
| LazyTlb.SkippedReloadIsSound | include/linux26-x86/asm/mmu_context.h:50-61 | the reload is skipped just when the mask bit was still set, and then the TLB was kept up to date |
| LazyTlb.ReloadIsNeeded | include/linux26-x86/asm/mmu_context.h:54-59 | a reachable state in which the bit is clear and the TLB is stale with no flush on its way |
| OnesComplement.ByteOrderIndependence | include/linux26-x86/asm/checksum.h:63-92 | a word standing for the little-endian sum, byte-swapped, is the network-order one's-complement sum (section 2(B) of RFC 1071) |
| OnesComplement.AdcHolds | include/linux26-x86/asm/checksum.h:71-77 | an add with carry loses nothing: all-ones and carry never meet |
| OnesComplement.AdcFinishes | include/linux26-x86/asm/checksum.h:78-78 | adding the last carry neither overflows nor changes what the word stands for |
| IpChecksum.IpFastCsum | include/linux26-x86/asm/checksum.h:63-92 | for five words and more the loop and fold give the Internet checksum of the header; for fewer, the low half of the first word |
| IpChecksum.AdcChain | include/linux26-x86/asm/checksum.h:67-77 | the unrolled additions and the loop accumulate every word, carries included |
| IpChecksum.VerifyAdds | include/linux26-x86/asm/checksum.h:63-92 | checking a header adds the stored field to the sum of the rest |
| IpChecksum.VerifiesExactly | include/linux26-x86/asm/checksum.h:63-92 | a header verifies as zero if and only if the stored field is the computed checksum, or 0xffff in place of a computed 0 |
| IpChecksum.StampAndVerify | include/linux26-x86/asm/checksum.h:63-92 | zeroing the field, storing the result of ip_fast_csum and running it again yields zero, for every header |
| IpChecksum.CsumFold | include/linux26-x86/asm/checksum.h:98-108 | the folded complement stands for the 32-bit sum |
| IpChecksum.CsumTcpudpNofold | include/linux26-x86/asm/checksum.h:110-123 | the result stands for the sum of addresses, shifted length and protocol, and initial sum |
| IpChecksum.TcpudpMagicIsChecksum | include/linux26-x86/asm/checksum.h:129-135 | the checksum of the pseudo-header of section 3.1 of RFC 793 followed by any message the initial sum stands for |
| CsumPartial.SumBlocks | src/linux26/arch/i386/lib/checksum.S:80-104 | the 32-byte loop sums its blocks with every carry |
| CsumPartial.SumAligned | src/linux26/arch/i386/lib/checksum.S:80-124 | blocks, dwords and tail stand for the whole buffer plus the initial sum |
| CsumPartial.SumEven | src/linux26/arch/i386/lib/checksum.S:71-124 | the same from a two-byte aligned address, which may need a leading word |
| CsumPartial.CsumPartial | src/linux26/arch/i386/lib/checksum.S:51-132 | at any address the result stands for initial sum plus buffer if and only if the first byte's addition at an odd address does not overflow; otherwise for 2^32 less |
| CsumPartial.OddByteLosesCarry | src/linux26/arch/i386/lib/checksum.S:62-67 | a concrete buffer and initial sum whose carry is lost |
| CsumPartial.SumFragments | include/linux26-x86/asm/checksum.h:8-20 | a message summed by csum_partial piece by piece, with even lengths before the last: the result is congruent modulo 65535 to the whole sum less the number of lost carries, so to the whole sum if and only if that number is a multiple of 65535; with none lost it stands for the whole |
| CsumPartial.IpComputeCsum | include/linux26-x86/asm/checksum.h:142-145 | the Internet checksum of any buffer at any address |
| CsumPartial.Ipv6MagicIsChecksum | include/linux26-x86/asm/checksum.h:148-170 | the checksum of the pseudo-header of section 8.1 of RFC 2460 followed by any message the initial sum stands for |
| Atomic.Counter.Cmpxchg | include/linux26-x86/asm/atomic.h:210-210 | returns the old value and stores only on a match |
| Atomic.Counter.AddUnless | include/linux26-x86/asm/atomic.h:222-235 | against any stores by others the call is one atomic addition at one point of their stream, or finds the forbidden value there; it goes around only because the value changed |
| PageCount.AccessKeepsInv | include/linux26-x86/asm/atomic.h:94-131 | every access keeps: count = outstanding references modulo 2^32, freed once if and only if none are left |
| PageCount.RunKeepsInv | include/dde_linux26/linux/mm.h:258-296 | the same in every reachable state below 2^32 references |
| PageCount.FreedOnceAndOnlyWhenUnused | include/dde_linux26/linux/mm.h:255-262 | exactly one put_page_testzero has returned true if no reference is left, none if some are |
| PageCount.FreedForGood | include/dde_linux26/linux/mm.h:264-272 | after that no call gets a reference and no put returns true again |
| PageCount.CallReturns | include/dde_linux26/linux/mm.h:258-287 | in every run a call that has returned has taken or dropped exactly one reference of its caller, whatever others did in between; only get_page_unless_zero may have taken none |
| PageCount.PutTakesEffect | include/dde_linux26/linux/mm.h:258-262 | from every reachable state put_page_testzero drops exactly one reference of its caller and returns true if and only if it was the last |
| PageCount.GetTakesEffect | include/dde_linux26/linux/mm.h:281-287 | from every reachable state get_page adds exactly one reference to its caller |
| PageCount.UnlessZeroTakesEffect | include/dde_linux26/linux/mm.h:268-272 | from every reachable state, left alone, get_page_unless_zero adds exactly one reference if any is out and changes nothing if none is |
| PageCount.UnlessZeroIsAtomic | include/linux26-x86/asm/atomic.h:222-236 | get_page_unless_zero succeeds on an access that finds a nonzero count and adds one; it fails exactly on an access made when nobody holds a reference; otherwise it retries with the count it found |
| PageCount.FaithfulExactly | include/dde_linux26/linux/mm.h:258-296 | a zero count means no references, in every run, if and only if fewer than 2^32 are held or asked for at once |
| Dma8237.Controller.ClearFf | include/linux26-x86/asm/dma.h:175-181 | clears the flip-flop of that channel's controller only |
| Dma8237.Controller.EnableDma | include/linux26-x86/asm/dma.h:152-158 | unmasks that channel only |
| Dma8237.Controller.DisableDma | include/linux26-x86/asm/dma.h:160-166 | masks that channel only |
| Dma8237.Controller.SetMode | include/linux26-x86/asm/dma.h:184-190 | the mode goes to the channel its low bits and the channel number together name; for a mode with clear low bits, to that channel only |
| Dma8237.Controller.SetPage | include/linux26-x86/asm/dma.h:197-222 | sets the page register of that channel, without bit 0 on the word channels |
| Dma8237.Controller.SetAddr | include/linux26-x86/asm/dma.h:228-238 | the registers decode to the address modulo 16 MB, even on word channels; flip-flop clear again, nothing else changed |
| Dma8237.Controller.SetCount | include/linux26-x86/asm/dma.h:249-259 | the channel will move that many bytes; zero means the maximum, odd counts round up on word channels |
| Dma8237.Controller.GetResidue | include/linux26-x86/asm/dma.h:270-282 | bytes left modulo 64K or 128K, registers and flip-flop as before |
| Dma8237.Perform | include/linux26-x86/asm/dma.h:168-282 | any sequence of calls, begun with the flip-flops of the controllers it uses clear, programs and reports exactly what an abstract plan of channels says and leaves flip-flops, the other controller and other channels alone |
| Dma8237.TicksAt | include/linux26-x86/asm/dma.h:24-70 | the registers after n transfers |
| Dma8237.UnbrokenExactly | include/linux26-x86/asm/dma.h:34-34 | a channel touches one unbroken block if and only if the block stays in its 64K (128K) page |
| Dma8237.ResidueTracks | include/linux26-x86/asm/dma.h:262-269 | the residue is what is left at every point, and zero with the channel masked at terminal count |
| Floppy.PumpedStops | include/linux26-x86/asm/floppy.h:78-87 | one interrupt pumps up to the first status that is not ready, or all that is left |
| Floppy.StatusBits | include/linux26-x86/asm/floppy.h:80-98 | which status bytes are ready for a byte and which end a transfer |
| Floppy.ReadyInterruptsMove | include/linux26-x86/asm/floppy.h:54-117 | while no status ends the transfer, every interrupt moves a byte unless its first status is not ready or nothing is left |
| Floppy.ReadyAllAlong | include/linux26-x86/asm/floppy.h:78-87 | a controller ready for all that is left gets all of it moved by one interrupt |
| Floppy.SlowController | include/linux26-x86/asm/floppy.h:54-117 | a concrete controller that pauses after one byte is served by the next interrupt |
| Floppy.CrossesExactly | include/linux26-x86/asm/floppy.h:24-25 | for every address and size when the 64K test says crossing, wrap-around of the address space and empty buffers included |
| Floppy.FitsExactly | include/linux26-x86/asm/floppy.h:24-25 | a transfer of up to 64K passes the chooser's two address tests if and only if it lies in one 64K page below 16 MB on the bus |
| Floppy.HardDmaExactly | include/linux26-x86/asm/floppy.h:179-223 | a channel programmed for a transfer the chooser left to hardware moves exactly the buffer if and only if the size is 1 to 64K |
| Floppy.EmptyMovesAll | include/linux26-x86/asm/floppy.h:179-223 | a concrete empty transfer that falls to hardware and moves 64K |
| Floppy.Driver.VirtualSetup | include/linux26-x86/asm/floppy.h:196-205 | a new transfer with everything left to move |
| Floppy.Driver.MoveByte | include/linux26-x86/asm/floppy.h:83-86 | moves the next byte in order in the direction of the transfer |
| Floppy.Driver.Pump | include/linux26-x86/asm/floppy.h:73-89 | moves as many bytes as there are ready statuses and keeps conservation, order and contents |
| Floppy.Driver.HardInt | include/linux26-x86/asm/floppy.h:54-117 | exactly the pumped bytes moved; ended and handed on exactly when the last status says so, what is left then becoming residue; until then what is left stays to be moved and the residue as it was |
| Floppy.Driver.Disable | include/linux26-x86/asm/floppy.h:119-126 | gives up what is left without losing track of what was moved; masks the channel when hardware DMA is in use |
| Floppy.Driver.Residue | include/linux26-x86/asm/floppy.h:138-141 | size minus bytes moved, as counted at the data port |
| Floppy.Driver.Transfer | include/linux26-x86/asm/floppy.h:54-205 | for every device behaviour and every sequence of interrupts and disables: how many bytes move, as a function of the statuses and interrupts alone; these were moved once each, in order, and nothing else changed |
| Floppy.Driver.ChooseMode | include/linux26-x86/asm/floppy.h:179-191 | with a free choice, hardware for up to 64K if and only if the buffer starts in low memory and lies in one 64K page below 16 MB on the bus, never for more; otherwise the configured way |
| Floppy.Driver.HardSetup | include/linux26-x86/asm/floppy.h:207-223 | from any flip-flop state the channel decodes to bus address and size, with the mode, unmasked |
| Floppy.Driver.Start | include/linux26-x86/asm/floppy.h:179-223 | chooser and setup together: hardware DMA moves exactly a non-empty buffer, below 16 MB |
| PageFlags.GetSet | include/dde_linux26/linux/mm.h:465-533 | a number put into a field reads back cut to the field |
| PageFlags.GetOther | include/dde_linux26/linux/mm.h:465-533 | setting one field leaves what another reads |
| PageFlags.LayoutIsSound | include/dde_linux26/linux/mm.h:408-463 | for every build that compiles the fields fit, lie apart and stay in the reserved top bits |
| PageFlags.LayoutAsDrawn | include/dde_linux26/linux/mm.h:404-425 | for every build that compiles: sections in the top bits, below them the node if all three fit, below that the zone |
| PageFlags.Page.Put | include/dde_linux26/linux/mm.h:517-533 | bit by bit: the field takes v, every other bit stays, and the field reads back v cut to its width |
| PageFlags.Page.SetLinks | include/dde_linux26/linux/mm.h:535-541 | zone and section read back cut to their fields, the node too exactly when sections, zones and nodes fit the reserved bits and as zero otherwise; no other bit changes |
| PageFlags.LinksInAnyOrder | include/dde_linux26/linux/mm.h:535-541 | the three setters commute |
| PageFlags.NoWidth | include/dde_linux26/linux/mm.h:439-446 | a field of no width reads zero and setting it changes nothing |
| PageFlags.ZoneIdIsNodeAndZone | include/dde_linux26/linux/mm.h:448-487 | with the node in the flags two pages have the same id if and only if node and zone agree |
| PageFlags.ZoneIdIsSectionAndZoneExactly | include/dde_linux26/linux/mm.h:448-487 | without it the id is SECTION:ZONE if and only if the section field is no wider than the node number |
| PageFlags.SectionsConfused | include/dde_linux26/linux/mm.h:448-487 | a concrete build and two pages of different sections with the same id |
| StringOps.CopyExactly | include/linux26-x86/asm/string.h:203-281 | a copy by units is right for every memory if and only if the destination is not inside the source above its start, or one unit suffices |
| StringOps.OverlapGoesWrong | include/linux26-x86/asm/string.h:203-281 | otherwise some memory shows the second unit reading what the first wrote |
| StringOps.TwoBytesUp | include/linux26-x86/asm/string.h:207-214 | a concrete memory and overlap where the copy differs from the move |
| StringOps.RepMovs | include/linux26-x86/asm/string.h:207-207 | count units copied upwards, pointers advanced past them |
| StringOps.Memcpy | include/linux26-x86/asm/string.h:203-219 | dwords then bytes; the byte copy on every length without harmful overlap, nothing outside changed |
| StringOps.MemcpyExactly | include/linux26-x86/asm/string.h:203-219 | usable as a memmove exactly for those overlaps and for sizes 0, 1 and 4 |
| StringOps.ConstantMemcpy | include/linux26-x86/asm/string.h:225-281 | every size case, dword part and tail equals the byte copy on every length without harmful overlap |
| StringOps.ConstantMemcpyExactly | include/linux26-x86/asm/string.h:225-281 | usable as a memmove exactly for those overlaps and for sizes 0, 1, 2 and 4 |
| StringOps.MemsetGeneric | include/linux26-x86/asm/string.h:349-359 | every byte of the range is c, no other changes |
| StringOps.ConstantCMemset | include/linux26-x86/asm/string.h:369-385 | the pattern over and over, with the tail as the stores lay it out |
| StringOps.ConstantCAndCountMemset | include/linux26-x86/asm/string.h:418-455 | the same bytes through the cases for small counts and remainders |
| StringOps.FillExactly | include/linux26-x86/asm/string.h:364-385 | a pattern fill is a byte fill if and only if the pattern's first byte (from one byte on), second (from two) and last two (from four) are that byte |
| StringOps.Memset | include/linux26-x86/asm/string.h:457-471 | whichever variant is picked, a byte fill of exactly the range |

## Left out

- SpinLock, RwLock, RwSem, PageTable, LazyTlb and PageCount are step functions on states, not methods that update fields in place: the interleavings between the steps are their subject.
- Weak memory ordering, compiler barriers and instruction patching: stores are taken to become visible in program order, as include/linux26-x86/asm/system.h:399-415 says.
- Interrupts, preemption and fairness around the spin loops: a schedule may starve a context; what is stated is safety, lost wake-ups for the semaphore, and what a call that runs undisturbed or has returned has done.
- Sleeping and waking of tasks: a waiter of the semaphore waits until its entry is taken off the queue.
- Allocation of tasks and of queue entries in `rwsem.c`: entries are values in a sequence.
- Preemption accounting around the spinlocks (include/dde_linux26/linux/spinlock.h): simple counters.
- PageTable names the present, write, accessed and dirty bits of a low half and keeps the other bits together as one number; `ptep_get_and_clear_full` with full set and the two-level page tables are plain accesses.
- The code of the flush interrupt and of leave_mm is not part of this model: they are environment steps as described at include/linux26-x86/asm/mmu_context.h:55-57. The LDT reload is left out.
- The PentiumPro variant of `csum_partial`, copying checksums with fault fixups, and user-access checksums.
- Compound pages: `get_page` redirects to the head page and the DDE `put_page` does not.
- PageCount.RunKeepsInv: each context calls get_page and put_page_testzero only for references it holds, as the header's own checks ask.
- Floppy.Driver.Transfer: the transfer size is below 2 GB, the range of the int that holds it; the FLOPPY_SANITY_CHECK test of hard_dma_setup, defined nowhere in the repository, is off.
- Slow ports (`outb_p`), the DMA lock, request and free of channels and interrupts.
- `strncat`, string comparison and scanning, MMX copies: not part of the copy and fill refinement.
- Semaphores, mutexes, CRC tables, register constants, descriptor and swap-entry encodings, APIC and ACPI tables, and the interfaces for net, block, input, USB and audio: declarations, plumbing, or code that would only add easy members.
