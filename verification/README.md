# FujoOS: a Dafny model of its state machines, codecs and allocators

This project models the parts of FujoOS that are algorithms rather than device access, and proves what they keep.
Every group has a specification on values (functions and step relations), lemmas about all inputs and all runs of that
specification, and classes or methods that do what the Rust or Python code does, in the same order and on arrays
updated in place, proved to refine the specification.

| group | files |
|---|---|
| bytes, text, hashing, rings | `Bytes.dfy`, `Text.dfy`, `Fnv.dfy`, `Ring.dfy` |
| FJFS volume | `FjfsLayout.dfy` (format, plans), `FjfsProofs.dfy` (invariant, crash atomicity), `FjfsSpace.dfy` (cost), `FjfsMedium.dfy` (room and bytes on the medium), `Fjfs.dfy` (code) |
| virtual memory | `MemLayout.dfy` (walk), `MemWalk.dfy` (the walk in numbers), `MemSpaces.dfy` (invariant), `MemHeaps.dfy` (abstract machine), `MemProofs.dfy`, `MemBoot.dfy` (start), `Mem.dfy` (code), `MemIdentity.dfy` and `MemMapper.dfy` (identity mapper) |
| rule distillation | `RuleBook.dfy` (semantics, bytecode, correctness), `RuleParam.dfy` (which rule, which number), `RuleWire.dfy` (bytes), `RuleEngine.dfy` (code), `RuleInduction.dfy` |
| FUJR container | `FujrLayout.dfy`, `FujrProofs.dfy`, `FujrFaults.dfy`, `FujrBytes.dfy`, `Fujr.dfy` (code) |
| BOX-BRIDGE | `BoxProtocol.dfy`, `BoxProofs.dfy`, `BoxGate.dfy`, `BoxSchema.dfy` (what is accepted), `BoxWire.dfy` (lines), `Box.dfy` (code) |
| scheduler | `SchedSpec.dfy`, `Sched.dfy` (code) |
| events and replies | `EventLog.dfy`, `Events.dfy` (code), `Link.dfy`, `LinkTime.dfy` (timeouts) |
| pipes, descriptors, objects | `PipeSpec.dfy`, `PipeProofs.dfy`, `PipeCalls.dfy` (creation, closing), `Pipes.dfy` (code) |
| governance | `GovSpec.dfy`, `GovProofs.dfy`, `GovActs.dfy` (what acts do), `Governance.dfy` (code) |
| drawing | `Raster.dfy`, `Screen.dfy` (code) |
| assembler | `AsmCode.dfy` (instructions), `AsmSource.dfy` (parsing), `AsmLayout.dfy`, `AsmProofs.dfy`, `AsmText.dfy` and `AsmNumbers.dfy` (lines and their bytes), `Asm.dfy` (code) |

`dafny verify dfyconfig.toml` checks the whole project.

## What stands for what

- Bytes and machine words are integer subset types; wrapping arithmetic is written out. Rust arithmetic has the
  release build's meaning: it wraps, and `debug_assert!` does nothing.
- The disk is an array of sectors of a device with at least 8196 sectors, and sector writes do not fail. A power cut is
  a prefix of the sequence of sector writes.
- RAM is an array of 4 KiB pages of 64-bit words. A page table that lies outside it reads as not present. Tasks whose
  `as_create` failed share space 0.
- A serial line is the sequence of bytes that arrive before the time limit; one round of a wait loop reads the clock
  once. Timer ticks, the interrupt's frame address and its mode are parameters.
- User memory is a parameter or a result, and an address check is a Boolean that says whether the address passed it.
- Serial logging, performance counters and screen output other than pixels are not modelled.

## Where the code differs from its comments and documents

- `write_file` never frees the clusters of the contents that it replaces, so a volume takes a bounded number of writes
  (`FjfsSpace.RunSpace`, `FjfsSpace.FewWrites`), and a write into a full directory keeps its clusters until the next
  mount (`FjfsSpace.WriteUses`).
- `map_phys_identity` is documented for addresses below 4 TiB and tests for 2^44. It masks the PDPT index with 3, so
  it answers true for addresses that it leaves unmapped, and moves others (`MemMapper.PdptIndex`,
  `MemIdentity.SelfMappedIff`, `MemMapper.HighAddressLost`). Its flags `0x83` set bit 7, not the cache-disable bit
  that the comment names.
- `fujo_munmap` is said to keep the shared page but clears its entry like any other (`MemHeaps.UnmapDetachesShared`).
  After a fork the box page at 0xA10000 is a private copy.
- `as_copy_heap` passes over pages when frames run out (`MemHeaps.ForkCompleteIff`, `MemHeaps.ForkMissesPage`), and
  `as_create` loses the frames that it took before it found none (`Mem.MemoryManager.AsCreate`).
- `docs/02` demands that a reader reject a container whose major version is not 0; `read_run` does not look at it
  (`FujrFaults.VersionIgnored`). A section whose offset and size wrap around in 64 bits makes `read_run` panic and the
  kernel read outside the module (`FujrFaults.ReadPanicsIff`, `FujrFaults.LoadStraysIff`,
  `FujrFaults.WrappingExample`).
- The kernel's loader does not ask that sections lie behind the table, so a byte of a section's own table entry, or of
  the other fields that the loader reads, can change unnoticed (`FujrProofs.TamperInsideTable`); exactly when is
  `FujrProofs.TamperLoadedIff`.
- The receiver of BOX-BRIDGE does not compare the sequence number of a reply (`BoxProofs.SequenceIgnored`), and passes
  over DATA lines with fewer than five words. After a failed schema (-3) or a timeout (-4) the gated bytes stay
  readable through `fujo_box_result`. The gate looks at one block at a time, so a stream can split the head of an
  executable over two blocks (`BoxGate.ReceivedHeadIff`, `BoxGate.SplitHeadExample`).
- `fujo_ctx_events` drops one event when the buffer is too small, although the comment says that the rest is not
  consumed (`EventLog.TakeMeaning`).
- `cfg_set` assumes 30 and 70 for unset thresholds, `fujo_cfg_get` returns 35 and 46 (`GovProofs.DefaultsDisagree`).
- The system call for actions writes two audit records for every action but a launch, and a successful launch counts
  as a denial because it returns the task's slot (`GovProofs.SyscallRecorded`, `GovProofs.LaunchCountedAsDenial`,
  `GovProofs.FirstLaunchDenied`).
- `dom_adjust` grants a revoked domain again (`GovProofs.AdmitRegrantsIff`, `GovProofs.RevokedComesBack`), and the
  quality window stops rising once it is full (`GovProofs.RatingNeverRises`).
- Giving the slot of the dead current task to a new task leaves the processor on the old kernel stack and address
  space (`SchedSpec.CoherentIff`, `SchedTable.IncoherentExample`).
- A label on the line of an instruction marks the place behind it (`AsmProofs.MarksItsLineIff`); a jump to an
  undefined label below the highest defined one uses the address of an earlier program (`AsmProofs.NoStaleLabelsIff`,
  `AsmProofs.StaleExample`); pass one measures an instruction by emitting it to address 0; the output is not held to
  `cap` (`AsmProofs.OutputFitsIff`, `AsmProofs.OverrunExample`); a `mov` with an empty second operand makes the code
  panic.

## Model

| member | source | states |
|---|---|---|
| FjfsProofs.CrashAtomicity | kernel/src/fjfs.rs:125-293 | for every reachable volume, file name, contents and number of sector writes that reached the medium: after remounting, the written file is wholly new exactly once its root sector landed and wholly as before otherwise; every other file is unchanged |
| FjfsProofs.RunRefinesMap | kernel/src/fjfs.rs:125-333 | over every run of writes, power cuts and remounts a file reads as the data of its last durable write |
| FjfsProofs.WriteRefinesMap | kernel/src/fjfs.rs:237-333 | a write changes the contents under its own 15-byte name or nothing: success reads back exactly, failure changes no file |
| FjfsProofs.WriteSucceedsIff | kernel/src/fjfs.rs:237-293 | a write succeeds if and only if the size is 1..=MAX, a free run exists, and the directory lists the name or has a free slot |
| FjfsProofs.FirstFitIff | kernel/src/fjfs.rs:194-222 | the allocator finds a run exactly when one exists |
| FjfsProofs.SlotIff | kernel/src/fjfs.rs:263-283 | the slot search succeeds exactly when the name is listed or a slot is free |
| FjfsProofs.RootFlips | kernel/src/fjfs.rs:230-234 | of the two root sectors a write puts out, one makes the directory change from old to new at once |
| FjfsProofs.FreshRun | kernel/src/fjfs.rs:194-222 | a run found free overlaps no file on the medium |
| FjfsProofs.ContentFrame | kernel/src/fjfs.rs:237-293 | writes to clusters that the bitmap calls free leave every stored file's contents alone |
| FjfsProofs.MountFormats | kernel/src/fjfs.rs:125-178 | mounting a foreign medium yields an empty volume and leaves the data area as it was |
| FjfsProofs.FormatRestartable | kernel/src/fjfs.rs:125-178 | formatting may be cut after any sector: the next mount ends in the same volume |
| FjfsProofs.Remounts | kernel/src/fjfs.rs:125-178 | remounting a consistent volume keeps the invariant and every file |
| FjfsSpace.WriteUses | kernel/src/fjfs.rs:194-293 | a write takes its clusters from the free ones whenever there is a run for it, even when the directory turns out to be full |
| FjfsSpace.CutBitmap | kernel/src/fjfs.rs:224-293 | a write that is cut leaves memory's new bitmap on the medium or the old one, and the new one once it is durable |
| FjfsSpace.StepUses | kernel/src/fjfs.rs:194-293 | a durable write takes its clusters from the medium's free ones, and no write, cut or mount gives any back |
| FjfsSpace.RunSpace | kernel/src/fjfs.rs:125-333 | over every run the durable writes, overwriting ones too, share the clusters that were free at the start |
| FjfsSpace.FewWrites | kernel/src/fjfs.rs:125-333 | a volume takes at most 2048 durable writes in all |
| FjfsMedium.RoomAfterMount | kernel/src/fjfs.rs:163-168 | after mounting, a write succeeds exactly when it has 1 to 65536 bytes, the bitmap on the medium has a free run for it, and the directory lists the name or has a free slot |
| FjfsMedium.RoomAfterCut | kernel/src/fjfs.rs:163-293 | the same after a power cut during any write, about the bitmap and the directory that the cut left |
| FjfsMedium.MountKeeps | kernel/src/fjfs.rs:135-168 | a medium that begins with the magic is mounted as it is, with the bitmap of sector 1 and the directory of sectors 2 and 3 |
| FjfsMedium.ClusterCount | kernel/src/fjfs.rs:241-241 | a file takes the least number of 2 KiB clusters that holds it |
| FjfsMedium.WriteOnMedium | kernel/src/fjfs.rs:224-293 | a successful write byte for byte: one 32-byte slot is rewritten, the data lies from LBA 4 + 4 * cluster on, padded with zeros, the bitmap sector has the run marked, and every other slot keeps its bytes |
| FjfsMedium.SlotFields | kernel/src/fjfs.rs:51-60 | where a slot of the medium holds its name, size and first cluster |
| FjfsMedium.NameBytes | kernel/src/fjfs.rs:114-122 | names are cut at 15 bytes or the first NUL and padded with NULs |
| FjfsMedium.FormattedBytes | kernel/src/fjfs.rs:137-162 | the bytes of a freshly formatted medium |
| FjfsLayout.EntryRoundTrip | kernel/src/fjfs.rs:43-72 | a directory entry decodes to what was encoded |
| FjfsLayout.SectorRoundTrip | kernel/src/fjfs.rs:230-234 | a root sector of sixteen entries decodes to what was encoded |
| FjfsLayout.FmtNameInjective | kernel/src/fjfs.rs:114-122 | names that agree after formatting agree on their first 15 bytes, and conversely |
| Fjfs.StoredOutcome | kernel/src/fjfs.rs:237-293 | the phase-by-phase plan of a stored file is the outcome of the write specification |
| Fjfs.Volume.WriteFile | kernel/src/fjfs.rs:237-293 | the code leaves exactly the medium, bitmap and directory of the write specification and returns its verdict |
| Fjfs.Volume.ReadFile | kernel/src/fjfs.rs:310-333 | returns the first min(size, max) bytes of the file found, or nothing, and changes only the caller's buffer |
| Fjfs.Volume.AllocRuns | kernel/src/fjfs.rs:194-222 | returns the lowest free run of n clusters, or none |
| Fjfs.Volume.Init | kernel/src/fjfs.rs:125-178 | mounts, formatting first when the magic is missing |
| Fjfs.Volume.Format | kernel/src/fjfs.rs:140-168 | writes the superblock, an empty bitmap and an empty directory in the order of the format plan |
| Fjfs.Volume.Lookup | kernel/src/fjfs.rs:181-191 | finds the used slot that carries the formatted name |
| Fjfs.Volume.FlushTables | kernel/src/fjfs.rs:224-234 | bitmap sector first, then the two root sectors |
| Fjfs.Volume.WriteData | kernel/src/fjfs.rs:246-262 | puts the contents, padded with zeros, into the sectors of the run |
| Fjfs.Volume.MarkClusters | kernel/src/fjfs.rs:215-219 | marks exactly the clusters of the run |
| Fjfs.Volume.CopyFile | kernel/src/fjfs.rs:318-331 | copies the first bytes of the stored sectors |
| MemSpaces.FramesExclusive | kernel/src/mem.rs:383-559 | no pool frame sits in two heap entries of any spaces, and none that sits in one is marked free |
| MemSpaces.WalkHeap | kernel/src/mem.rs:568-598 | the four-level walk of a heap address ends in the entry that `heap_table` finds (Intel SDM volume 3A, section 4.5) |
| MemSpaces.PteUpdate | kernel/src/mem.rs:741-782 | writing one heap entry keeps the invariant of every space |
| MemSpaces.UserEntries | kernel/src/mem.rs:483-559 | every present entry of every heap carries exactly the present, writable and user bits |
| MemWalk.SharedAtHome | kernel/src/mem.rs:362-371 | a space that has the shared page or the box page maps it at its own physical address, 0xA00000 or 0xA10000 |
| MemWalk.SmallPage | kernel/src/mem.rs:568-598 | four present entries, none of them large, lead to the page that the last one names |
| MemWalk.MegabytePage | kernel/src/mem.rs:588-590 | a large second-level entry maps the two megabytes around the address |
| MemWalk.GigabytePage | kernel/src/mem.rs:580-582 | a large third-level entry maps the gigabyte around the address |
| MemWalk.EntryPage | kernel/src/mem.rs:568-598 | which bits of an entry name the page, say that it is present, and say that it is large |
| MemWalk.OrBits | kernel/src/mem.rs:580-590 | the or of base and offset, bit by bit |
| MemHeaps.Isolation | kernel/src/mem.rs:480-559 | whatever runs on behalf of other spaces, a space's mappings and private pages do not change |
| MemHeaps.Noninterference | kernel/src/mem.rs:480-559 | after any run a space has the mappings and private pages that its own operations alone would have given it |
| MemHeaps.CopyCompleteIff | kernel/src/mem.rs:523-559 | a copy is complete exactly when there is a free frame for every mapped page of the source but the shared one |
| MemHeaps.ForkCompleteIff | kernel/src/mem.rs:523-559 | a child has all of its parent's heap exactly when that many frames are left once its tables are made |
| MemHeaps.ForkMissesPage | kernel/src/mem.rs:541-556 | with no frame left, a child lacks a page that its parent reads |
| MemHeaps.LoadStable | kernel/src/mem.rs:480-559 | later writes by others show in a space only through the pinned pages |
| MemHeaps.ForkReads | kernel/src/mem.rs:523-559 | a forked child reads exactly what its parent had, and the parent is undisturbed |
| MemHeaps.ForkSeparates | kernel/src/mem.rs:523-559 | after a fork a store on one side is seen on the other only through the page at 0xA00000 |
| MemHeaps.UnmapDetachesShared | kernel/src/mem.rs:408-432 | unmapping the shared page is not refused: the next touch finds a private zero page |
| MemProofs.AddSpace | kernel/src/mem.rs:480-520 | the five frames of a new space become its own tables, with an empty heap, and disturb no other space |
| MemProofs.KernelMapShared | kernel/src/mem.rs:480-520 | outside its heap window a new space translates every address as the boot tables do |
| MemProofs.AbsWellFormed | kernel/src/mem.rs:351-380 | the heaps that the tables implement map the pinned pages only at their own addresses |
| MemProofs.SlotUpdate | kernel/src/mem.rs:741-782 | changing one heap entry changes exactly one slot of one heap |
| MemProofs.FrameUpdate | kernel/src/mem.rs:741-782 | changing a private frame changes exactly the slot it backs |
| MemProofs.PinnedUpdate | kernel/src/mem.rs:351-380 | changing a pinned page changes only the shared part |
| Mem.MemoryManager.FrameAllocZero | kernel/src/mem.rs:383-403 | returns the lowest free frame, zeroed and marked, or nothing exactly when the pool is used up |
| Mem.MemoryManager.FrameFree | kernel/src/mem.rs:702-715 | frees a pool frame, ignores every other address |
| Mem.MemoryManager.DemandZero | kernel/src/mem.rs:741-782 | a fault in the heap window maps a zero page, refines the abstract first touch, and fails only without frames |
| Mem.MemoryManager.AsCreate | kernel/src/mem.rs:480-520 | adds a space with an empty private heap exactly when five frames are free; with fewer it takes them all and adds nothing |
| Mem.MemoryManager.AsCopyHeap | kernel/src/mem.rs:523-559 | the mapped pages of the source appear in any destination in page order as long as there are frames; into a heap without pages of its own the copy is complete exactly when the frames suffice |
| Mem.MemoryManager.Fork | kernel/src/sched.rs:341-350 | a new space exactly with five free frames, holding the whole of the parent's heap exactly with one more for each page to copy |
| Mem.MemoryManager.DemandZeroInit | kernel/src/mem.rs:351-380 | links the two heap tables into the boot tables and pins the two shared pages |
| Mem.MemoryManager.constructor | kernel/src/mem.rs:351-380 | on the boot stub's tables the manager starts with the invariant, the system's own space and a pool of free frames |
| MemBoot.StubRamIsStub | kernel/boot/gen_stub32.py:88-124 | there is a memory that holds the tables which the boot stub writes |
| MemBoot.BootInv | kernel/src/mem.rs:351-380 | after `demand_zero_init` the system's space satisfies the invariant, and its heap has the two shared pages and nothing else |
| MemBoot.BootTree | kernel/boot/gen_stub32.py:88-124 | the boot tables form a tree, none of it in the frame pool |
| MemBoot.BootSmall | kernel/boot/gen_stub32.py:88-124 | no address meets a large page in the boot tables |
| Mem.MemoryManager.Munmap | kernel/src/mem.rs:408-432 | exactly the pages that start in the range disappear, and their pool frames become free |
| Mem.MemoryManager.UserStore | kernel/src/mem.rs:568-598 | a store through the tables refines the abstract store |
| Mem.MemoryManager.UserLoad | kernel/src/mem.rs:568-598 | a load through the tables refines the abstract load |
| MemMapper.Mapper.MapPhysIdentity | kernel/src/mem.rs:603-662 | true exactly when all pages have been entered; what each address then translates to, and exactly which pages of the range translate to themselves; false below the limit only without two adjacent free frames; it always ends |
| MemMapper.Mapper.constructor | kernel/boot/gen_stub32.py:88-124 | on the boot tables the mapper starts with its invariant and without large pages |
| MemIdentity.SelfMappedIff | kernel/src/mem.rs:627-660 | an address of a mapped range translates to itself exactly when its PDPT index is below 4 and the address 4 GiB on is not in the range, or its index is higher and it did so before |
| MemIdentity.RangeSelfMappedIff | kernel/src/mem.rs:627-660 | the range as a whole translates to itself exactly when this holds of each of its addresses |
| MemIdentity.LowRange | kernel/src/mem.rs:627-660 | with every PDPT index below 4 exactly the range comes to translate to itself and nothing else changes |
| MemIdentity.Missed | kernel/src/mem.rs:627-660 | an address at whose page no entry of the range is written translates as before |
| MemIdentity.MaskedIndices | kernel/src/mem.rs:627-629 | the entry written for an address has that address's indices but for the PDPT index modulo 4 |
| MemMapper.HighAddressLost | kernel/src/mem.rs:627-660 | mapping the page at 256 GiB on the boot tables leaves it unmapped and moves address 0 there |
| MemMapper.PdptIndex | kernel/src/mem.rs:628-628 | masking the PDPT index with 3 picks the walk's own entry exactly when that index is below 4 |
| MemMapper.Mapper.AllocFrames | kernel/src/mem.rs:665-699 | the lowest run of n free frames, marked and zeroed, or none |
| MemMapper.Mapper.EnsurePt | kernel/src/mem.rs:603-662 | creates the missing levels of the path that the mapper follows, PDPT index modulo 4, without changing any translation |
| MemMapper.Mapper.FillPt | kernel/src/mem.rs:652-656 | fills entries of one page table: each page enters the translation as the last one written at its place |
| MemMapper.AlignedFlags | kernel/src/mem.rs:654-656 | for a page-aligned address the bits below the page number are 0x83 |
| MemIdentity.LinkWalk | kernel/src/mem.rs:603-662 | linking an empty table into an absent entry changes no translation |
| MemIdentity.LeafWalk | kernel/src/mem.rs:652-656 | writing one page-table entry changes only the addresses of that page |
| MemIdentity.WalkRoles | kernel/src/mem.rs:568-598 | the pages that a walk reads are those that hang where its address says |
| MemIdentity.PokeElsewhere | kernel/src/mem.rs:568-598 | a word that a walk does not read may change without changing its result |
| RuleBook.CompilerCorrect | tools/distill_rules.py:101-141 | for every accepted book that fits the loader's 8 KiB, as books of up to 64 rules always do, every ASCII text and duty: compiling, loading and matching give the first hit of `simulate` on the first 64 rules, with its parameter in 64 bits |
| RuleBook.ExactIff | kernel/src/ai.rs:2017-2055 | the kernel's answer is that of the whole book exactly when the parsed parameter fits 64 bits and one of the first 64 rules applies or none at all |
| RuleBook.PrefixDecides | tools/distill_rules.py:101-120 | a rule that applies among the first n decides the answer of the whole book |
| RuleBook.LoadCompiled | kernel/src/ai.rs:2059-2098 | loading compiled bytes installs exactly the first 64 rules; books over 8 KiB are refused |
| RuleBook.MatchAgrees | kernel/src/ai.rs:2017-2055 | matching lowered rules is the reference semantics, for every text and duty |
| RuleBook.BodyFits | tools/distill_rules.py:133-141 | an encoded book takes at most 47 bytes a rule, so 64 rules always fit the loader |
| RuleBook.EmittedBookIsFaithful | tools/distill_rules.py:101-141 | of a book that passes the fidelity gate the kernel answers a training case as recorded exactly when one of the first 64 rules applies and the recorded parameter fits 64 bits |
| RuleBook.ReadEncodedBody | kernel/src/ai.rs:2059-2098 | reading an encoded body gives back its rules, as many as there is room for |
| RuleParam.FirstFitting | tools/distill_rules.py:106-124 | the answer is that of the first rule whose duty is 0 or the one asked for and whose needle is somewhere in the text |
| RuleParam.NumberBehind | tools/distill_rules.py:113-121 | a decimal number behind the first occurrence of the needle, after any blanks, becomes the parameter of the hit |
| RuleParam.OwnNumber | tools/distill_rules.py:113-121 | without a digit there, or without the parameter flag, the hit has the number of the rule |
| RuleParam.ParameterOf | kernel/src/ai.rs:2034-2050 | on a book whose first fitting rule takes a parameter, the reference semantics answers with the number n written in the text and the kernel with n modulo 2^64 |
| RuleParam.NoParameterOf | kernel/src/ai.rs:2034-2050 | without a number there both answer with the number of the rule |
| RuleParam.NoneFits | kernel/src/ai.rs:2017-2055 | where no rule fits neither the book nor the kernel answers |
| RuleParam.KillTaskExample | tools/distill_rules.py:39-39 | "kill task 2" names task 2 |
| RuleParam.CountersMean | tools/distill_rules.py:101-130 | the two counters are the numbers of cases that are answered and that are answered as recorded |
| RuleWire.HeaderBytes | tools/distill_rules.py:133-141 | the sixteen header bytes of a compiled book |
| RuleWire.RuleBytes | tools/distill_rules.py:133-141 | where each rule of a compiled book stands, and the order of its fields |
| RuleWire.CompilesIff | tools/distill_rules.py:133-141 | exactly which books compile |
| RuleWire.LoadMeaning | kernel/src/ai.rs:2059-2098 | which buffers the kernel loads, and which entries of any buffer end up in its table |
| RuleEngine.CompileFjru | tools/distill_rules.py:133-141 | the accumulation loop puts out exactly the specified bytes, or raises |
| RuleEngine.SimulateCase | tools/distill_rules.py:101-130 | the rule loop finds the first hit of the reference semantics |
| RuleEngine.Simulate | tools/distill_rules.py:101-130 | the two counters are the covered and the kept cases |
| RuleEngine.FindSub | kernel/src/ai.rs:1997-2014 | the lowest occurrence; an empty needle occurs nowhere |
| RuleEngine.Engine.Load | kernel/src/ai.rs:2059-2098 | installs the specified table and clears the hit count, or returns -22 with nothing changed |
| RuleEngine.Engine.RulesMatch | kernel/src/ai.rs:2017-2055 | the first matching rule of the table, and one more hit exactly when there is one |
| Text.FoldIsDecimal | kernel/src/ai.rs:2017-2055 | the kernel's digit accumulation is the decimal value modulo 2^64 |
| RuleInduction.Induce | tools/induct_rules.py:34-85 | one rule for each new needle in the order of the cases, built from the first case with that needle; every case ends up covered, every rule is justified, no two rules of a duty share a needle |
| RuleInduction.BookDiscriminates | tools/induct_rules.py:34-111 | if no case needed its whole text as needle, first match gives every case its own value and no negative any rule |
| RuleInduction.GoodRule | tools/induct_rules.py:50-59 | a rule with a discriminating needle answers its cases with their value and no negative |
| RuleInduction.WordNeedleOccurs | tools/induct_rules.py:23-31 | every needle of `word_needles` occurs in the text it was made from |
| RuleInduction.Choose | tools/induct_rules.py:64-71 | the first needle in the generator's order that is not bad; none exactly when there is no such needle |
| RuleInduction.FirstNeedleFound | tools/induct_rules.py:23-31 | the first candidate found is a word needle that is not bad, and when none is found every candidate is too short or bad |
| RuleInduction.BuildRule | tools/induct_rules.py:75-84 | the rule's arguments are the most common pair of its group, the first one on ties, and its confidence the largest of the group |
| Fnv.StepInjective | fujo-compat/src/run.rs:73-80 | each FNV-1a round is injective in the state and in the byte |
| Fnv.Unmul | fujo-compat/src/run.rs:73-80 | multiplication by the prime modulo 2^32 can be undone |
| Fnv.OneByteChange | fujo-compat/src/run.rs:73-80 | changing any single byte changes the hash |
| FujrBytes.HashRounds | fujo-compat/src/run.rs:73-80 | the starting value of the hash and its round for each byte, with the prime 16777619 |
| FujrBytes.XorBits | fujo-compat/src/run.rs:76-76 | the exclusive or of the round, bit by bit |
| FujrBytes.HashOfA | fujo-compat/src/run.rs:73-80 | the hash of "a" is 0xE40C292C |
| Fnv.Fnv1a | kernel/src/fujr.rs:40-49 | the loop computes the hash |
| FujrProofs.RoundTrip | fujo-compat/src/run.rs:123-263 | reading what was written returns every metadata field and one section for each part |
| FujrProofs.PartInPlace | fujo-compat/src/run.rs:162-177 | each part lies, byte for byte, where its section says, with its own tag and flags |
| FujrProofs.SectionsDisjoint | fujo-compat/src/run.rs:162-171 | sections lie one behind the other |
| FujrProofs.Alignment | fujo-compat/src/run.rs:162-171 | sections after the first start at multiples of 4096; the first starts right behind the table |
| FujrProofs.AcceptsIff | fujo-compat/src/run.rs:186-263 | `read_run` accepts exactly the files with a good header whose sections lie inside the file behind the table and hash as recorded |
| FujrBytes.GoodHeaderIff | fujo-compat/src/run.rs:186-230 | the header that the reader takes, field by field |
| FujrBytes.HeaderBytes | fujo-compat/src/run.rs:123-149 | the 64 header bytes of a written container |
| FujrBytes.EntryBytes | fujo-compat/src/run.rs:150-177 | the 32 bytes of each section entry |
| FujrBytes.PlaceOf | fujo-compat/src/run.rs:162-171 | each part after the first lies at the first multiple of 4096 behind the one before it |
| FujrBytes.PaddingZero | fujo-compat/src/run.rs:166-170 | between a part and the next one are zeros |
| FujrFaults.ReadPanicsIff | fujo-compat/src/run.rs:231-250 | `read_run` panics exactly on a good header whose first unsound section lies behind the table and ends, in 64 bits, at a place inside the file |
| FujrFaults.LoadStraysIff | kernel/src/fujr.rs:136-153 | the kernel reads outside the module exactly when the first unsound section's end wraps to a place inside it |
| FujrFaults.WrappingExample | fujo-compat/src/run.rs:231-250 | one file of 96 bytes makes both happen |
| FujrFaults.VersionIgnored | fujo-compat/src/run.rs:186-230 | whatever bytes stand in the version fields of an accepted container, it is accepted with that version and otherwise the same information, by both readers |
| FujrProofs.TamperRefused | fujo-compat/src/run.rs:231-250 | any change of one byte of section data in an accepted file is refused, naming the first section that holds it |
| FujrProofs.TamperRejected | kernel/src/fujr.rs:143-153 | any one-byte change of section data that the kernel reads neither as a header field nor in the table is rejected by the kernel |
| FujrProofs.LoadedIff | kernel/src/fujr.rs:81-170 | the kernel loads exactly the modules with their table inside, an EMBED section and sound sections only |
| FujrProofs.TamperLoadedIff | kernel/src/fujr.rs:143-153 | exactly when a loaded module still loads with one byte changed, wherever it lies: the magic and an EMBED section stay, every unchanged entry leaves the byte out, and every changed one is sound |
| FujrProofs.TamperNotLoaded | kernel/src/fujr.rs:143-153 | changing a byte that a section covers prevents loading as long as that section's own entry stays |
| FujrProofs.TamperInsideTable | kernel/src/fujr.rs:143-153 | the table bound is needed: a section that covers its own table entry can be changed in one byte unnoticed |
| FujrProofs.ReadersAgree | kernel/src/fujr.rs:81-170 | the kernel takes from an accepted file exactly what its section list offers |
| FujrProofs.LoadedThenRead | kernel/src/fujr.rs:81-170 | what the kernel loads, `read_run` accepts, once the header checks pass and sections lie behind the table |
| FujrProofs.KernelRoundTrip | kernel/src/fujr.rs:81-170 | from a written file the kernel extracts the bytes of the last EMBED part |
| FujrProofs.Gathered | kernel/src/fujr.rs:154-170 | the loader keeps the last EMBED, the last MANIFEST and the first eight DATA sections |
| FujrProofs.SectionDataFound | fujo-compat/src/run.rs:265-268 | `section_data` returns the bytes of the first section with the tag |
| Fujr.Write | fujo-compat/src/run.rs:123-184 | placeholders and back-patching put out exactly the specified file |
| Fujr.PatchOffsets | fujo-compat/src/run.rs:173-177 | back-patching turns the placeholder table into the final one |
| Fujr.WritePayload | fujo-compat/src/run.rs:162-171 | appends each part padded to the alignment and notes where it starts |
| Fujr.Parse | fujo-compat/src/run.rs:186-263 | the reader's checks and loops give the specified verdict, panic included |
| Fujr.LoadModule | kernel/src/fujr.rs:81-170 | the kernel's section scan gives the specified outcome |
| BoxProofs.VerdictIff | kernel/src/boxbridge.rs:339-463 | the verdict on every byte stream, told from its lines alone: -4 without END, -2 unless the five-word DATA lines before it are gated and in order, -3 and 0 by the schema; on 0 and -3 the buffer is their concatenation |
| BoxProofs.InOrderIff | kernel/src/boxbridge.rs:360-409 | in order means: each block is there and its offset is the number of bytes before it, inside the buffer |
| BoxProofs.MisplacedBlockRefused | kernel/src/boxbridge.rs:360-409 | one reordered, repeated, skipped, ungated or unreadable five-word DATA line forces -2 |
| BoxProofs.SequenceIgnored | kernel/src/boxbridge.rs:339-409 | a reply with another request's number is received just the same |
| BoxGate.HeadSplitIff | kernel/src/boxbridge.rs:188-212 | behind a gated first block the whole begins like an executable exactly when that block splits the head, which for printable products means a lone "M" before a "Z" |
| BoxGate.ReceivedHeadIff | kernel/src/boxbridge.rs:373-463 | a product of any stream that gets past the gate begins like an executable exactly when its first block splits the head |
| BoxGate.SentHasNoHead | tools/box_server.py:283-290 | no product that the host's 64-byte blocks get through begins like an executable |
| BoxGate.SplitHeadExample | kernel/src/boxbridge.rs:373-463 | two one-byte blocks that are accepted and make up the head of a PE image |
| BoxProofs.SentVerdict | kernel/src/boxbridge.rs:295-463 | the verdict on everything the host can send: -2 exactly for an empty or oversized product or an ungated 64-byte block, else by the schema |
| BoxProofs.Transport | tools/box_server.py:283-290 | a product whose blocks pass the gate arrives whole; every other one is quarantined |
| BoxProofs.PassesIff | kernel/src/boxbridge.rs:373-406 | passing means at most 3072 bytes and a gated block at every multiple of 64 |
| BoxSchema.GateIff | kernel/src/boxbridge.rs:132-153 | what a block must be to get past the gate, byte by byte |
| BoxSchema.SchemaDecides | kernel/src/boxbridge.rs:339-463 | a product of the host is quarantined unless it has 1 to 3072 bytes and is clean from every multiple of 64 on; then the schema decides |
| BoxSchema.HashVerdict | kernel/src/boxbridge.rs:192-192 | a hash is accepted exactly when it is 64 hexadecimal digits |
| BoxSchema.InfoVerdict | kernel/src/boxbridge.rs:193-193 | file information is accepted from four bytes on |
| BoxSchema.SizeVerdict | kernel/src/boxbridge.rs:194-194 | a size is accepted exactly when it is one to twenty decimal digits |
| BoxSchema.SizeAccepted | tools/box_server.py:157-158 | every size below 10^20 is accepted as the host prints it |
| BoxSchema.EchoVerdict | kernel/src/boxbridge.rs:195-195 | an echo is accepted exactly when it is the argument |
| BoxSchema.PdfVerdict | kernel/src/boxbridge.rs:196-197 | a document is accepted exactly when it has eight bytes, begins with "%PDF-" and contains "%%EOF" |
| BoxSchema.PictureVerdict | kernel/src/boxbridge.rs:198-209 | a picture is accepted exactly when it has 2358 bytes and its header says so, pixels at 54, 32 wide, 24 high, 24 bits each |
| BoxSchema.OtherVerdict | kernel/src/boxbridge.rs:210-212 | no other verb accepts anything |
| BoxSchema.HostBitmapAccepted | tools/box_server.py:115-127 | the bitmap that the host draws gets past the gate and is accepted |
| BoxWire.OneBlockSent | tools/box_server.py:281-290 | the bytes that the host sends for a product of one block |
| BoxWire.NextBlockSent | tools/box_server.py:282-288 | one DATA line for every 64 bytes, with its offset and length |
| BoxWire.AnyDataLine | kernel/src/boxbridge.rs:366-406 | what a DATA line of anyone carries: the block its digits spell, if the length is right, at most 64, and the block clean |
| BoxWire.WordIff | kernel/src/boxbridge.rs:78-98 | words are what blanks and tabs separate |
| BoxWire.UnHexIff | kernel/src/boxbridge.rs:114-121 | which digits spell which bytes, in either case |
| BoxWire.HexDigits | tools/box_server.py:286-287 | the digits of the host are lowercase, high half first |
| BoxWire.UpIff | kernel/src/boxbridge.rs:349-365 | lines are cut at 256 bytes, and the provider counts as up exactly when a line before END reports status 1 |
| Box.RecordsMean | kernel/src/boxbridge.rs:284-292 | which quality marks and audit records a session leaves, told from its verdict |
| BoxProofs.ReceiveGated | kernel/src/boxbridge.rs:343-418 | whatever arrives, the buffer consists of gated blocks |
| BoxProofs.FeedIsLines | kernel/src/boxbridge.rs:343-418 | assembling bytes and acting on newlines is acting on the lines, each cut at 256 bytes |
| BoxProofs.DataLineRead | kernel/src/boxbridge.rs:360-409 | a sender's DATA line yields exactly the block it was made from, or is refused at the gate |
| Text.ParseNumIff | kernel/src/boxbridge.rs:100-112 | `parse_num` accepts exactly the nonempty digit strings below 2^64, with their value |
| Text.UnHexOfHex | kernel/src/boxbridge.rs:378-391 | decoding hexadecimal digits undoes encoding them |
| Text.NextLine | kernel/src/boxbridge.rs:350-418 | a terminated line is cut at the line buffer and the next one starts afresh |
| Box.FindWord | kernel/src/boxbridge.rs:78-98 | the nested scanning loops find the k-th word |
| Box.ParseDigits | kernel/src/boxbridge.rs:100-112 | checked accumulation |
| Box.DecodeBlock | kernel/src/boxbridge.rs:378-391 | decodes the block, stopping at the first character that is no digit |
| Box.Serve | tools/box_server.py:283-290 | the chunking loop sends exactly the specified lines |
| Box.Bridge.Run | kernel/src/boxbridge.rs:295-463 | return code, buffer, counters, audit records and quality records of every session |
| Box.Bridge.Await | kernel/src/boxbridge.rs:339-419 | the receive loop |
| Box.Bridge.TakeData | kernel/src/boxbridge.rs:366-406 | one DATA line against the gate |
| Box.Bridge.CheckSchema | kernel/src/boxbridge.rs:190-212 | the schema of each verb |
| Box.Bridge.Judge | kernel/src/boxbridge.rs:420-463 | the verdict logic with its records |
| Box.Bridge.Result | kernel/src/boxbridge.rs:483-495 | copies out at most the received product |
| SchedSpec.Liveness | kernel/src/sched.rs:655-703 | with a fixed table, a task that stays runnable becomes current within count - 1 user-mode ticks, whatever suspends, kills, resumes and crashes hit the others |
| SchedSpec.BecomesCurrent | kernel/src/sched.rs:655-703 | with a growing table too: distance plus slots added bounds the user-mode ticks needed |
| SchedSpec.NearestRunnable | kernel/src/sched.rs:671-677 | the search loop finds the nearest runnable slot ahead, the current one last |
| SchedSpec.TickSwitches | kernel/src/sched.rs:655-703 | a tick switches exactly when it comes from user mode and another task is runnable; it lands on the next one with its own frame, kernel stack and address space |
| SchedSpec.TerminateIff | kernel/src/sched.rs:55-82 | a crash is survived exactly when there are two tasks and another one is runnable |
| SchedSpec.StepInv | kernel/src/sched.rs:552-598 | every step keeps the table shape; the current task is never a suspended one |
| SchedSpec.SuspendResume | kernel/src/sched.rs:568-598 | suspending and resuming changes nothing |
| SchedSpec.TaskControl | kernel/src/sched.rs:552-598 | kill, suspend and resume answer 0 exactly for a task in the right state, which alone changes its state; otherwise -1 |
| SchedSpec.DeliveryIff | kernel/src/sched.rs:240-272 | exactly when a pending signal becomes active |
| SchedSpec.CoherentIff | kernel/src/sched.rs:521-549 | kernel stack and address space stay the current task's, except when the dead current task's slot is given away |
| SchedTable.IncoherentExample | kernel/src/sched.rs:602-650 | from boot on: a launched task is killed while current, and the next launch leaves the processor in the dead one's address space |
| SchedSpec.ResumesWhereItStopped | kernel/src/sched.rs:655-703 | a task interrupted with frame f resumes on exactly frame f |
| SchedTable.ExecSpawnIsStep | kernel/src/sched.rs:602-650 | a launch first registers the implicit task in an empty table; a successful one then takes a dead aux slot or a new one and touches no other task |
| SchedTable.SpawnIff | kernel/src/sched.rs:602-650 | what a launch answers, which slot it takes, and what the implicit task is registered as |
| SchedSpec.StartInv | kernel/src/sched.rs:36-54 | the empty table satisfies the invariant |
| SchedTable.Scheduler.TickSched | kernel/src/sched.rs:655-703 | the tick hook on the task array |
| SchedTable.Scheduler.TerminateCurrentAndNext | kernel/src/sched.rs:55-82 | the crash path on the task array |
| SchedTable.Scheduler.KillById | kernel/src/sched.rs:552-565 | kills a runnable task, else -1 |
| SchedTable.Scheduler.SuspendById | kernel/src/sched.rs:568-583 | suspends a runnable task other than the current one, else -1 |
| SchedTable.Scheduler.ResumeById | kernel/src/sched.rs:586-598 | resumes a suspended task, else -1 |
| SchedTable.Scheduler.Spawn | kernel/src/sched.rs:602-650 | the launch path on the task array |
| SchedTable.Scheduler.FindNext | kernel/src/sched.rs:671-676 | the search loop |
| SchedTable.Scheduler.DeliverSignal | kernel/src/sched.rs:240-272 | the flags of a signal delivery |
| EventLog.TakeMeaning | kernel/src/ctx.rs:156-183 | a read delivers matching events in order, each once; one is lost exactly when more match than the buffer holds |
| EventLog.MaskAdmits | kernel/src/ctx.rs:165-170 | which kinds a mask admits |
| EventLog.SubscribeMeans | kernel/src/ctx.rs:143-183 | after subscribing, a read delivers exactly the later events that the new mask admits |
| EventLog.StepFaithful | kernel/src/ctx.rs:127-183 | every push, subscribe and read keeps the delivered stream in order, free of duplicates, and complete but for overwritten and dropped events |
| EventLog.RunComplete | kernel/src/ctx.rs:127-183 | with buffers of 128 records nothing is missed over any run but events more than 128 behind |
| EventLog.DeltaIff | kernel/src/ctx.rs:261-282 | zero critical events counted means that none of the newest 128 since the snapshot is critical |
| EventLog.DeltaCounts | kernel/src/ctx.rs:261-282 | the number returned is that of the critical events since the snapshot among the newest 128 |
| EventLog.CriticalIff | kernel/src/ctx.rs:272-279 | which kinds a mask names as critical |
| EventLog.DeltaExact | kernel/src/ctx.rs:261-282 | while at most 128 events followed the snapshot, zero means none at all |
| Ring.HoldsPush | kernel/src/ctx.rs:127-140 | overwriting slot w mod n keeps the ring equal to the newest n entries of the log |
| Events.EventRing.EvPush | kernel/src/ctx.rs:127-140 | the ring holds the newest 128 events of the log |
| Events.EventRing.CtxSubscribe | kernel/src/ctx.rs:143-152 | sets the mask and moves the cursor to the end |
| Events.EventRing.CtxEvents | kernel/src/ctx.rs:156-183 | copies out exactly the records that the read specification delivers |
| Events.EventRing.EvDeltaCritical | kernel/src/ctx.rs:261-282 | the backward scan counts the critical events |
| Link.AcceptedIsFresh | kernel/src/ai.rs:299-358 | an accepted reply has the request's number, is within its lifetime, and no window, exit or anomaly event was logged since the request, if at most 128 were logged |
| Link.AcceptedIffFresh | kernel/src/ai.rs:311-341 | the first reply with the right number is accepted exactly when it is fresh |
| Link.FirstAnswerDecides | kernel/src/ai.rs:299-358 | the verdict is that on the first line with the right number |
| Link.NoAnswer | kernel/src/ai.rs:299-358 | without such a line the wait times out or goes on |
| LinkTime.TimedOutIff | kernel/src/ai.rs:299-358 | the wait gives up exactly when, before any answer, a round that ends no line is more than 600 ticks after the start or the 120,000,001st of its kind |
| LinkTime.PendingIff | kernel/src/ai.rs:299-358 | it goes on exactly while no round has answered or run out of time |
| LinkTime.FirstEndDecides | kernel/src/ai.rs:299-358 | the first round that answers or runs out of time decides the outcome |
| LinkTime.TimelyReply | kernel/src/ai.rs:305-358 | a line "FJAI:RSP n ..." of up to 94 bytes that is typed within 600 ticks is judged as it was typed |
| LinkTime.LineOf | kernel/src/ai.rs:344-350 | the line begun is what arrived since the last newline, cut at 94 bytes |
| LinkTime.RefusalIff | kernel/src/ai.rs:311-341 | a matching line is refused for a critical event first, then for its lifetime, and never without a snapshot |
| LinkTime.Lifetime | kernel/src/ai.rs:361-376 | the lifetime of a line is the number behind its first "TTL=" |
| Link.SeqOkIff | kernel/src/ai.rs:379-390 | the number test compares the decimal digits modulo 2^64 |
| Link.FindTtl | kernel/src/ai.rs:361-376 | the digits after the first TTL= |
| Link.Session.TakeSnapshot | kernel/src/ai.rs:207-223 | the snapshot of a request |
| Link.Session.WaitRsp | kernel/src/ai.rs:299-358 | the wait loop: outcome, and the snapshot used up by whatever ends it |
| PipeSpec.WriteAppends | kernel/src/ipc.rs:170-187 | a ring write appends to the queue as many bytes as fit |
| PipeSpec.ReadTakes | kernel/src/ipc.rs:146-167 | a ring read takes from the front as many bytes as there are |
| PipeProofs.RunIsQueue | kernel/src/ipc.rs:66-187 | after every run: bytes read are a prefix of bytes written and the rest waits in the pipe; the end count is the number of descriptors; a pipe is used exactly when a descriptor points at it |
| PipeProofs.StepKeeps | kernel/src/vfs.rs:48-105 | every create, read, write, close, open and object call keeps the cross-table invariant |
| PipeProofs.DirectFreeIff | kernel/src/kobj.rs:139-145 | freeing an object directly keeps it exactly when no pipe descriptor owns the object |
| PipeProofs.OwnersDistinct | kernel/src/vfs.rs:65-86 | two pipe descriptors never share an object |
| PipeProofs.CloseEverything | kernel/src/vfs.rs:1000-1014 | closing every descriptor leaves no pipe in use, no byte waiting, and no pipe object but directly made ones |
| PipeProofs.AllClosed | kernel/src/vfs.rs:1000-1014 | the same from the state alone |
| PipeProofs.FailedCreateUndone | kernel/src/ipc.rs:84-94 | a failed creation changes no pipe and no descriptor and leaves no object behind |
| PipeCalls.CreateIff | kernel/src/ipc.rs:66-109 | when a pipe can be made and when which error is returned, and that it gets the lowest spare pipe and the two lowest free descriptors |
| PipeCalls.CloseIff | kernel/src/vfs.rs:1000-1014 | what closing a descriptor frees, and when the pipe is cleared |
| PipeCalls.EndObject | kernel/src/vfs.rs:65-86 | the object that goes with a pipe end |
| PipeCalls.ObjectCalls | kernel/src/kobj.rs:55-96 | which slot a new object gets, and when freeing one succeeds |
| PipeProofs.CountUpdate | kernel/src/vfs.rs:65-105 | how the number of a pipe's descriptors changes with one slot |
| Pipes.Tables.NewPipe | kernel/src/ipc.rs:66-109 | pipe creation on the tables |
| Pipes.Tables.Put | kernel/src/ipc.rs:170-187 | the write loop |
| Pipes.Tables.Get | kernel/src/ipc.rs:146-167 | the read loop |
| Pipes.Tables.CloseFd | kernel/src/vfs.rs:1000-1014 | closing a descriptor, its end, and with the last one the pipe |
| Pipes.Tables.AllocEnd | kernel/src/vfs.rs:65-86 | a descriptor for a pipe end with its object |
| Pipes.Tables.ReleaseFd | kernel/src/vfs.rs:89-105 | a descriptor and its object given back |
| Pipes.Tables.AllocObject | kernel/src/kobj.rs:55-76 | the first free object slot, with its generation raised |
| Pipes.Tables.FreeObject | kernel/src/kobj.rs:79-96 | an object slot cleared |
| GovProofs.RunKeepsTrail | kernel/src/capability.rs:53-228 | over every run the denial counter equals the refused and failed records ever logged, stored tau_high stays above stored tau_low, and settings stay in range |
| GovProofs.ExecRecorded | kernel/src/capability.rs:142-163 | every `fujo_cap_exec` appends exactly one record, a denial exactly on failure, and changes nothing without the act bit of the current domain |
| GovActs.TaskActs | kernel/src/capability.rs:142-163 | with the act bit, 1 kills a runnable task, 2 suspends one other than the current, 5 resumes a suspended one, each answering 0 exactly then and -1 otherwise with nothing changed |
| GovActs.SettingIff | kernel/src/capability.rs:53-97 | with the act bit, 4 accepts a setting exactly in its range and on the right side of the other threshold, and it is then read back; every other setting stays |
| GovActs.OtherActs | kernel/src/capability.rs:150-157 | with the act bit, 6 clears the pending anomaly, and 3, 7 and 8 answer -22 and change nothing |
| GovActs.ReadSetting | kernel/src/capability.rs:100-119 | what a setting reads as, with the defaults 50, 46, 35 and 0 |
| GovActs.AuthorizedIff | kernel/src/capability.rs:123-129 | an act from 1 to 8 is authorised exactly by its bit of the current domain, slot 6 standing for domain 0 |
| GovActs.CheckIff | kernel/src/capability.rs:191-204 | a check passes exactly when the slot is granted with every bit asked for; a refusal is counted and recorded |
| GovActs.GrantThenCheck | kernel/src/capability.rs:176-204 | after a grant a check passes exactly for the bits granted |
| GovActs.BootState | kernel/src/capability.rs:19-41 | what is granted, set and recorded at boot |
| GovActs.NewDomainIff | kernel/src/capability.rs:338-361 | which slot a new domain gets and with which bits, and when there is none |
| GovActs.DomainChanges | kernel/src/capability.rs:364-397 | what revoking and adjusting a domain do |
| GovActs.EntryIff | kernel/src/capability.rs:430-446 | where a launch may begin, for each domain |
| GovActs.AdmitIff | kernel/src/ai.rs:1125-1183 | when re-admission widens, shrinks or keeps the current domain, and to which bits |
| GovActs.BindMeans | kernel/src/sched.rs:137-160 | binding makes the domain the current one |
| GovActs.FillingWindow | kernel/src/ai.rs:1070-1101 | while the window of 64 fills, every nonzero mark is a hit and the rating is their share |
| GovActs.FullWindowMark | kernel/src/ai.rs:1079-1084 | once it is full only odd marks are hits, each weighing one 64th |
| GovProofs.SyscallRecorded | kernel/src/syscall.rs:1908-1936 | the system call writes one record when it refuses or launches and two when it passes the action on |
| GovProofs.LaunchCountedAsDenial | kernel/src/syscall.rs:1928-1934 | a launch returns a positive slot, and is recorded and counted as a denial although it succeeds, exactly when no aux task runs and a dead aux slot behind the first or a new slot is there |
| GovProofs.FirstLaunchDenied | kernel/src/syscall.rs:1928-1934 | from boot on, the first launch succeeds and is counted as a denial |
| GovProofs.KeysStay | kernel/src/capability.rs:53-97 | a key once set stays set |
| GovProofs.EffectiveOrderIff | kernel/src/capability.rs:100-119 | exactly when the thresholds in force are in order, given the defaults that `fujo_cfg_get` uses |
| GovProofs.DefaultsDisagree | kernel/src/capability.rs:67-119 | setting tau_low to 60 first is accepted and puts the thresholds in force in the wrong order |
| GovProofs.RevokedForGood | kernel/src/capability.rs:364-376 | a revoked domain is refused every act over every run that neither creates nor re-admits a domain |
| GovProofs.AdmitRegrantsIff | kernel/src/ai.rs:1125-1183 | re-admission grants a revoked domain again exactly when the domain itself asks and the duty is high for the second time in a row or below a positive low mark |
| GovProofs.RevokedComesBack | kernel/src/ai.rs:1125-1183 | from boot on, a domain that was created, bound and revoked may do everything after two questions, without one sample |
| GovProofs.StartInv | kernel/src/capability.rs:19-41 | the state at boot satisfies the invariant |
| GovProofs.WidenNeedsTwo | kernel/src/ai.rs:1125-1183 | a domain is widened only if its duty is rated high now and was at the question before |
| GovProofs.LowShrinksAtOnce | kernel/src/ai.rs:1125-1183 | the first low rating shrinks the domain to the acknowledging act |
| GovProofs.FullWindow | kernel/src/ai.rs:1081-1084 | with a full window a hit does not raise a nonzero count and a miss lowers it by one |
| GovProofs.RatingNeverRises | kernel/src/ai.rs:1081-1084 | so from a full window on the count never rises, except from zero to one |
| Governance.Governor.AudNote | kernel/src/capability.rs:166-173 | the ring holds the newest 32 records of the log |
| Governance.Governor.AudRead | kernel/src/capability.rs:213-228 | returns the newest records that fit, oldest first |
| Governance.Governor.Execute | kernel/src/capability.rs:142-163 | the exec path on the tables and the scheduler |
| Governance.Governor.SystemExec | kernel/src/syscall.rs:1908-1936 | the system call on the tables and the scheduler |
| Governance.Governor.SetKey | kernel/src/capability.rs:53-97 | the domain and order checks of a setting |
| Governance.Governor.ExecAuthorized | kernel/src/capability.rs:123-129 | the act bit of the current domain |
| Governance.Governor.CheckSlot | kernel/src/capability.rs:191-204 | a refused check is counted and logged |
| Governance.Governor.CreateDomain | kernel/src/capability.rs:338-361 | the first free domain, with its bits masked |
| Governance.Governor.RevokeDomain | kernel/src/capability.rs:364-376 | the domain's grant withdrawn and logged |
| Governance.Governor.AdjustDomain | kernel/src/capability.rs:380-397 | new bits, granted again unless empty, logged |
| Governance.Governor.FeedDuty | kernel/src/ai.rs:1070-1089 | one more sample |
| Governance.Governor.AdmitDomain | kernel/src/ai.rs:1125-1183 | rating, verdict, and the domain's new bits; -22 for an unknown duty or a bad address |
| Governance.Governor.constructor | kernel/src/capability.rs:310-316 | the tables at boot, which satisfy the invariant |
| Raster.BandIff | kernel/src/gl.rs:96-115 | for each step on the longer axis exactly one step count on the other stays within the error band |
| Raster.HalfPixel | kernel/src/gl.rs:96-115 | rounding a position on the ideal line moves it by at most half a pixel |
| Raster.LineHalfPixel | kernel/src/gl.rs:90-117 | every point of a line lies within half a pixel of the ideal line on its minor axis, and the point of round k is k steps along the major one |
| Raster.LineEnds | kernel/src/gl.rs:96-115 | the line starts and ends at the given points and has max(|dx|, |dy|) + 1 points |
| Raster.LineInBox | kernel/src/gl.rs:96-115 | no point overshoots either axis |
| Raster.Advance | kernel/src/gl.rs:106-114 | from any point but the last the two tests on the error term lead to the next point |
| Raster.ErrorRange | kernel/src/gl.rs:96-115 | the range of twice the error term in terms of the two extents |
| Raster.ErrorMoves | kernel/src/gl.rs:105-114 | as long as the exact terms fit, a round in wrapping arithmetic leaves the exact error term |
| Raster.LongLineStrays | kernel/src/gl.rs:90-117 | a horizontal line of 2^62 steps leaves its row in the first round |
| Raster.FillIsHull | kernel/src/gl.rs:67-85 | a triangle that is not degenerate covers exactly the pixels of the convex hull of its corners |
| Raster.OrderIrrelevant | kernel/src/gl.rs:67-85 | all six orders of the corners cover the same pixels |
| Raster.InsideBox | kernel/src/gl.rs:62-72 | the box that the loops visit contains every covered pixel |
| Raster.PaintedIsInside | kernel/src/gl.rs:53-87 | as long as twice the area fits 64 bits, and on their outer side the edge functions at the corners of the box, the test in wrapping arithmetic paints exactly the covered pixels |
| Raster.SmallBoxSafe | kernel/src/gl.rs:53-87 | a box of fewer than 2^63 pixels meets that condition |
| Raster.HugeTriangle | kernel/src/gl.rs:67-85 | a triangle over the whole 32-bit range whose area wraps, and a pixel of it that is left out |
| Raster.WrapDifference | kernel/src/gl.rs:67-77 | products and differences that wrap one by one wrap to the same number as the whole |
| Screen.Surface.Line | kernel/src/gl.rs:90-117 | paints exactly the points of the line; the loop ends |
| Screen.Surface.Triangle | kernel/src/gl.rs:53-87 | for all 32-bit corners, paints exactly the pixels that pass the test in wrapping arithmetic |
| Screen.Surface.SetPixel | kernel/src/gl.rs:12-20 | one pixel, or nothing outside the screen |
| AsmCode.DecodeEncoded | kernel/src/asm.rs:93-262 | every emitted instruction reads back as itself, wherever it stands (Intel SDM volume 2, section 2.1) |
| AsmCode.EncodeInjective | kernel/src/asm.rs:93-262 | different instructions have different bytes |
| AsmCode.StepOverEncoded | kernel/src/asm.rs:477-526 | the length decoder steps over each emitted instruction exactly |
| AsmText.StepIff | kernel/src/asm.rs:477-526 | how far the length decoder steps on any bytes, and where it stops |
| AsmText.NoOperands | kernel/src/asm.rs:93-262 | the bytes of the instructions without operands |
| AsmText.OneRegister | kernel/src/asm.rs:93-262 | the bytes of inc and dec with each register |
| AsmText.StackRegister | kernel/src/asm.rs:93-262 | the bytes of push and pop with each register |
| AsmText.MovRegister | kernel/src/asm.rs:93-262 | the bytes of mov with two registers |
| AsmText.AluRegister | kernel/src/asm.rs:93-262 | the bytes of add, sub, xor and cmp with two registers |
| AsmText.MovNumber | kernel/src/asm.rs:93-262 | the bytes of mov with a number |
| AsmText.AluNumber | kernel/src/asm.rs:93-262 | the bytes of add, sub, xor and cmp with a number |
| AsmText.DataLines | kernel/src/asm.rs:389-473 | the bytes of the data directives |
| AsmText.JumpBytes | kernel/src/asm.rs:231-262 | the bytes of a jump |
| AsmText.LabelLines | kernel/src/asm.rs:267-372 | which lines define and use which label |
| AsmText.LabelIff | kernel/src/asm.rs:313-333 | which lines define a label, and what is then assembled |
| AsmText.DistanceIff | kernel/src/asm.rs:215-262 | the distance of a jump for every label number and table |
| AsmText.OutcomeIff | kernel/src/asm.rs:336-400 | how a program fails, and that it does not otherwise |
| AsmText.EmptyOperand | kernel/src/asm.rs:117-121 | a `mov` with an empty second operand makes the code panic |
| AsmText.Numbers | kernel/src/asm.rs:24-56 | the value of a decimal operand with a sign or a dollar |
| AsmNumbers.HexNumbers | kernel/src/asm.rs:24-56 | the value of a hexadecimal operand of any length, in either case, with a sign or a dollar |
| AsmNumbers.LabelNumbers | kernel/src/asm.rs:223-231 | the number of a label name, in 64 signed bits, and which names have none |
| AsmText.RegisterNames | kernel/src/asm.rs:58-87 | the names of the eight registers |
| AsmText.Alone | kernel/src/asm.rs:267-474 | a program of one such line becomes those bytes |
| AsmCode.Verify | kernel/src/asm.rs:477-526 | the counting loop |
| AsmProofs.InPlace | kernel/src/asm.rs:267-474 | both passes agree: each line's bytes stand where pass one placed it |
| AsmProofs.LabelOffsetIff | kernel/src/asm.rs:313-370 | a label stands at the offset of its last definition |
| AsmProofs.MarksItsLineIff | kernel/src/asm.rs:334-370 | a label marks the beginning of its line exactly when it is alone there or what follows takes no space |
| AsmProofs.JumpLands | kernel/src/asm.rs:231-262 | every jump to a defined label reads back as a jump, and leads to the label exactly when the distance fits 32 bits, as it does in any program below 2^31 bytes |
| AsmProofs.VerifyCounts | kernel/src/asm.rs:477-526 | on a program without data the length decoder counts exactly the instructions up to the first ret |
| AsmProofs.AssembledCount | kernel/src/asm.rs:267-526 | the same for whatever assembles |
| AsmProofs.NoStaleLabelsIff | kernel/src/asm.rs:380-388 | the output is the same for all contents of the label table exactly when every jump below the highest defined label goes to a defined one |
| AsmProofs.NoStaleLabels | kernel/src/asm.rs:380-388 | under that condition the output does not depend on earlier programs |
| AsmProofs.StaleLabel | kernel/src/asm.rs:231-262 | a jump to an undefined label below the highest defined one comes out differently for two label tables |
| AsmProofs.StaleExample | kernel/src/asm.rs:380-388 | a program of a label and a jump whose output depends on what an earlier program left behind |
| AsmProofs.OutputFitsIff | kernel/src/asm.rs:386-480 | the output has the length that pass one computes, and stays inside the caller's buffer exactly when that length does |
| AsmProofs.OverrunExample | kernel/src/asm.rs:386-480 | nops that assemble past the end of the buffer, such as 65 into 64 bytes |
| Asm.EmitInsn | kernel/src/asm.rs:93-262 | the encoder's branches give the specified bytes, refusal or crash |
| Asm.Assembler.PassOne | kernel/src/asm.rs:267-372 | sizes every line and notes the labels |
| Asm.Assembler.PassTwo | kernel/src/asm.rs:389-473 | puts out the specified bytes |
| Asm.Assembler.StoreLabels | kernel/src/asm.rs:380-388 | defined labels replace what the table held |
| Asm.Assembler.Run | kernel/src/asm.rs:267-474 | the whole assembly: outcome and label table |

## Left out

- Device and port input and output, desktop, fonts, shell, network, ACPI and SMP: no state worth a theorem, or output only.
- `map_high_user` and `wmap_fault`: they break frame ownership, so no invariant of this model holds across them.
- The signal frame on the user stack: only the pending and active flags of a delivery are modelled.
- Exclusive use of kernel stacks across the spawn paths: fixed addresses are reused, so no such claim holds.
- `spawn_single`, `spawn_tasks` and `spawn_proxy`: they add tasks like the launch path, which stands for them; their user stacks and frames are not modelled.
- The frame construction and user-stack copy of `fork_current`: its heap part is modelled, in the memory group.
- Page cache, linker, C translator, PE and Mach-O loaders, the disk path of the VFS.
- Resource names and permission lines in a container's manifest: output and a fixed-size name table.
- The request side of BOX-BRIDGE and of the reply link beyond the snapshot: it writes a frame that nothing here reads back.
- `ev_stats_recent`, `counts`, `fujo_dom_info` and the unified audit export: read-only summaries.
- Splitting source text into lines and words in the assembler: both passes contain the same loop, and the model starts from its result.
- Non-ASCII text in the rule tools: Python characters and kernel bytes then differ.
- MemMapper.Mapper.MapPhysIdentity: for ranges below 2^48 whose entries are not behind a large page, because there the code writes its entries into that page's memory, or over the entries of lower addresses. Failure is told from the frames left at the end, not from those free before, because that depends on where first-fit finds pairs of frames between the tables that it makes.
- FujrProofs.RoundTrip: for at most 2^32 - 1 parts and files below 2^64 bytes, which is what the fields of the format hold.
- Screen.Surface.Line: for extents that `Raster.Roomy` admits, because beyond them twice the error term can wrap, as in `Raster.LongLineStrays`.
- Asm.Assembler.PassOne: does not model the bytes that measuring an instruction writes at address 0, because memory outside the output is not part of this model.
