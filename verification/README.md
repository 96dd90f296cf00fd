# OpenVMM: a verified model

A Dafny model of the parts of OpenVMM where a whole output or a whole run has to be right: the ACPI
tables whose nodes point at each other by byte offset, the state unit that starts and stops virtual
processors, the initramfs generator, the flow engine's variables, configs, cache, patches and
scripts, and the input distributor.

`dafny verify dfyconfig.toml` checks everything.

## How it is built

Code that works step by step is modelled step by step: a class or a method with loops, whose
contract equates the result or the new state with a specification function or states the property
itself. What the code is for is then proved of the specification.

- **ACPI tables** (`Wire`, `Pptt`, `Iort`, `Dmar`, `Ivrs`). `Wire` has little-endian words and
  `Frames`, a reader that cuts bytes into structures by their length fields. Each table has an
  emitter (methods that append bytes and remember offsets), a description of the intended nodes
  that mentions no bytes, and a reader that only looks at bytes. The theorems say what a reader of
  the emitted bytes finds, and what it gets by following the pointers.
- **Partition unit** (`PartitionUnit`, `PartitionUnitLoop`). The class has the fields and methods
  of the event loop; `PartitionUnit` has the same steps as functions, the clients with their
  requests, replies and stop guards, and runs: every sequence of events the callers may cause. The
  class's loop computes exactly these runs. A log of what happened to the backend is judged by a
  monitor.
- **initramfs** (`Cpio`, `CpioWriter`, `CfgCond`, `CfgCondEvaluator`, `InitRamFsConfig`). The newc
  archive writer against a reader of the format; the `#[cfg(...)]` evaluator against a grammar and
  its meaning; the configuration loop against a description of which lines survive.
- **Flowey** (`ConfigMerge`, `SecretFlow`, `LocalCache`, `BashScript`, `PatchResolver`). Merging
  against lookups, the secret flag against pairs of runs, the cache against the history of jobs,
  printing against a shell tokeniser, patches against the routes their effects take.
- **Input** (`InputDistributor`). The event loop against the history of events.

## Where the code and its promises differ

Each of these has a concrete counterexample or an exact condition among the lemmas.

- The target VTL of `set_initial_regs` is documented to be scrubbed when needed. Only the first VTL
  set after a run is: `ScrubPromiseExact`, `SecondVtlNotScrubbed`.
- With SMT off, a processor that shares its core with an earlier one gets no PPTT node: `LeafFound`.
- A device ID has the bridge's segment exactly when the first SMMU for that bridge has it:
  `RoutingExact`.
- A DMAR unit with too many scopes for its 16-bit length breaks the walk: `Dmar.WalkRecovers`.
- The comment on the IORT reserved-memory node puts the memory ranges before the ID mapping; the
  code emits the mapping first, and so does the model.
- The cpio byte count misses the link records of a hard-linked file: `CountExact`. All link records
  carry the file's own name. An entry named like the trailer ends the archive: `RoundTripExact`.
- The generator's header comment says only the last of several `cfg` lines in a row matters; the
  code raises an error: `InitRamFsConfig.Config.AddFile`.
- `cond` and `expr` of the evaluator call each other forever on a token that starts neither a group
  nor a comparison; the model fails there, as the interpreter does when its stack runs out.
- A cache key with outer white space or a line break is never found again: `SavedKeyFound`. Worse,
  its trimmed lines look saved although they have no directory, so a job that uses one of them as
  its key fails, and keeps failing: `OtherLineFails`, `SplitKeyFails`, `StuckKey`. The empty key is
  such a line of every index. `RestoreFails` is the exact condition over all histories.
- `set_initial_regs` and `accept_initial_pages` assert that VPs are held off: `PanicsExactly` says
  when a client meets the assertion, `UnheldCallPanics` gives a run.
- Injected effects can be lost or end up under the wrong node when swaps interact:
  `ConservedExactly`, `SharedTargetLoses`.

## Model

| member | source | states |
|---|---|---|
| Pptt.NodeRoundTrip | vm/acpi_spec/src/pptt.rs:35-125 | Every representable processor and cache node has its declared length and is read back from its bytes |
| Pptt.WalkRecovers | vmm_core/src/acpi_builder.rs:1030-1148 | Walking the table by lengths finds exactly the intended nodes in order, each with its intended content |
| Pptt.FoundAt | vmm_core/src/acpi_builder.rs:1030-1148 | Every intended node is found at the byte offset the builder recorded for it |
| Pptt.LeafFound | vmm_core/src/acpi_builder.rs:1105-1147 | A processor has exactly one node of its own if SMT is on or it is first on its core, and none otherwise |
| Pptt.TopologyRecovered | vmm_core/src/acpi_builder.rs:1068-1148 | Following parent references in the bytes, two processors meet at a core node iff they share socket and core, and at a package node iff they share a socket |
| Pptt.ProcessorFields | vmm_core/src/acpi_builder.rs:1068-1148 | Read from a processor's node: its own number, marked valid; a core without a number under SMT; a package marked as one, without a parent |
| Pptt.CachesRecovered | vmm_core/src/acpi_builder.rs:1030-1132 | Read through the references from a processor's node: the package shows the first L3 cache of the configuration, the core its first L1 caches in order, both leading to the first L2 cache, each with the configured size, line size, associativity and type; missing levels are absent |
| Pptt.FindExact | vmm_core/src/acpi_builder.rs:1031-1034 | The first cache of a level and kind is found, and none iff there is none |
| Pptt.ConstantBytes | vm/acpi_spec/src/pptt.rs:35-95 | Everything the builder does not set is zero |
| Pptt.ReferencesResolve | vmm_core/src/acpi_builder.rs:1030-1148 | Every parent, private-resource and next-level reference is the start of an earlier node of the right kind |
| Pptt.EmitCache | vmm_core/src/acpi_builder.rs:1030-1062 | A cache node is appended iff the machine has such a cache, and its offset is returned |
| Pptt.EmitSocket | vmm_core/src/acpi_builder.rs:1074-1092 | The bytes grow by exactly the socket's nodes, and the package's offset is returned |
| Pptt.EmitCore | vmm_core/src/acpi_builder.rs:1096-1131 | The bytes grow by exactly the core's nodes, and the core's offset is returned |
| Pptt.EnsureSocket | vmm_core/src/acpi_builder.rs:1072-1093 | The socket map stays the map of recorded offsets, and nodes are emitted only on first use |
| Pptt.EnsureCore | vmm_core/src/acpi_builder.rs:1095-1132 | The core map stays the map of recorded offsets, and nodes are emitted only on first use |
| Pptt.Build | vmm_core/src/acpi_builder.rs:1019-1156 | For every configuration, one pass over the processors emits exactly the intended table, its offsets in 32 bits |
| Iort.NodeRoundTrip | vm/acpi_spec/src/iort.rs:60-391 | Every representable ITS, SMMU, root-complex and reserved-memory node is read back from its bytes, mappings and ranges included |
| Iort.WalkRecovers | vmm_core/src/acpi_builder.rs:678-844 | Walking the table by lengths finds exactly the intended nodes in order |
| Iort.NodeCountDeclared | vmm_core/src/acpi_builder.rs:660-674 | The declared node count, computed before anything is emitted, is the number of nodes a walk finds |
| Iort.ReferencesResolve | vmm_core/src/acpi_builder.rs:678-844 | Every output reference lands on the start of a node of the required kind |
| Iort.RcFields | vmm_core/src/acpi_builder.rs:754-798 | The node read at a bridge's place is a root complex with the bridge's index and segment, and one mapping iff there is an SMMU for it or an ITS |
| Iort.SmmuFields | vmm_core/src/acpi_builder.rs:690-752 | The node read at an SMMU's recorded offset has its index, registers and interrupts, is coherent, and has its device ID mapping iff there is an ITS |
| Iort.ItsFields | vmm_core/src/acpi_builder.rs:678-685 | The first node read is the ITS group with the one ITS |
| Iort.RmrFields | vmm_core/src/acpi_builder.rs:803-844 | Every SMMU with reserved ranges has a reserved-memory node with exactly those ranges and its number |
| Iort.ConstantBytes | vm/acpi_spec/src/iort.rs:60-391 | The types, revisions and fixed fields of all node kinds |
| Iort.RcRoutes | vmm_core/src/acpi_builder.rs:687-798 | From any root complex, any 16-bit BDF arrives at the ITS group, through an SMMU or not, with the routed segment in its device ID |
| Iort.RoutingExact | vmm_core/src/acpi_builder.rs:687-798 | The device ID is (segment << 16) or BDF for every BDF iff the first SMMU that names the bridge has the bridge's segment |
| Iort.DeviceIdsDistinct | vmm_core/src/acpi_builder.rs:687-798 | Under that condition, distinct (segment, BDF) pairs never share a device ID |
| Iort.EmitSmmus | vmm_core/src/acpi_builder.rs:687-752 | The bytes grow by exactly the SMMU nodes, and the offset list pairs every bridge index with its SMMU's offset |
| Iort.EmitRcs | vmm_core/src/acpi_builder.rs:754-798 | The bytes grow by exactly the root-complex nodes |
| Iort.EmitRmr | vmm_core/src/acpi_builder.rs:813-843 | Exactly one reserved-memory node is appended, its mapping before its ranges |
| Iort.EmitRmrs | vmm_core/src/acpi_builder.rs:800-844 | Succeeds iff every reserved-memory node's length fits, and then appends exactly those nodes |
| Iort.Build | vmm_core/src/acpi_builder.rs:654-852 | For every configuration, succeeds iff no reserved-memory node's length overflows, and then gives the declared count and the intended table, its offsets in 32 bits |
| Dmar.ScopeRoundTrip | vmm_core/src/acpi_builder.rs:975-1005 | A scope states its length, and its device and function are recovered from its path |
| Dmar.DrhdRoundTrip | vmm_core/src/acpi_builder.rs:953-1005 | A unit is read back with its scopes, and states its own length iff that length fits 16 bits |
| Dmar.WalkRecovers | vmm_core/src/acpi_builder.rs:952-1006 | Walking by lengths recovers every unit and its scopes iff all lengths fit 16 bits |
| Dmar.UnitsRead | vmm_core/src/acpi_builder.rs:952-1006 | A reader finds every unit with its segment and base, and for each device in order a scope with its type, bus, device and function; then the IOAPIC's iff the unit is the one it belongs to |
| Dmar.ConstantBytes | vm/acpi_spec/src/dmar.rs:84-165 | Type, flags, register size and the lengths of scopes |
| Dmar.IoapicScopesCounted | vmm_core/src/acpi_builder.rs:939-1006 | The table holds one IOAPIC scope for every unit that covers the IOAPIC's requester ID |
| Dmar.EmitUnit | vmm_core/src/acpi_builder.rs:953-1005 | Exactly the unit's structure is appended |
| Dmar.Build | vmm_core/src/acpi_builder.rs:931-1017 | Succeeds iff a given IOAPIC is covered by exactly one unit, and then emits the intended table |
| Ivrs.IvhdRoundTrip | vmm_core/src/acpi_builder.rs:887-915 | A block is read back with its range and special-device entries |
| Ivrs.WalkRecovers | vmm_core/src/acpi_builder.rs:866-916 | Walking by lengths recovers every IOMMU and its entries |
| Ivrs.BlocksRead | vmm_core/src/acpi_builder.rs:866-916 | A reader finds every IOMMU with its device, capability, registers, segment, features and bus range, and the IOAPIC iff the IOMMU covers it |
| Ivrs.ConstantBytes | vm/acpi_spec/src/ivrs.rs:144-312 | Block and entry types, and no reserved field set |
| Ivrs.ClaimsBusRange | vmm_core/src/acpi_builder.rs:907-911 | A BDF lies in a block's range iff its bus is in the configured bus range |
| Ivrs.IoapicEntriesCounted | vmm_core/src/acpi_builder.rs:873-915 | The table holds one IOAPIC entry for every segment-0 IOMMU whose buses cover it |
| Ivrs.IoapicAtMostOnce | vmm_core/src/acpi_builder.rs:873-915 | With disjoint bus ranges the IOAPIC appears at most once, and once iff some IOMMU covers it |
| Ivrs.EmitIommu | vmm_core/src/acpi_builder.rs:867-915 | Exactly the IOMMU's block is appended |
| Ivrs.Build | vmm_core/src/acpi_builder.rs:858-929 | The loop emits the intended table |
| PartitionUnit.EveryRunIsSafe | vmm_core/src/partition_unit.rs:345-467 | At every event boundary of every run: VPs run iff the unit is started, no halt is recorded and no stop is outstanding; then time runs and no guard is live; the latch counts pending halts plus the recorded one; every stop is a guard, a reply, a queued resume or lost for good |
| PartitionUnit.NextKeeps | vmm_core/src/partition_unit.rs:345-467 | Every event keeps all of that |
| PartitionUnit.EventEffects | vmm_core/src/partition_unit.rs:345-467 | What each event does to the started flag, the recorded halt and the queue of halts; a clear request leaves no halt |
| PartitionUnit.ClientEffects | vmm_core/src/partition_unit.rs:394-417 | What each event does to guards, replies, lost stops and queued requests |
| PartitionUnit.RequestEffects | vmm_core/src/partition_unit.rs:394-417 | A clear request clears the halt, a stop or dump stops VPs first, and no request touches anything else of these |
| PartitionUnit.LogsAreOrdered | vmm_core/src/partition_unit.rs:431-655 | In the log of every run: registers are loaded only after a clean that follows the last start or restore; between a VP start and the next stop nothing else happens; a reported halt is cleared before another is reported or VPs start |
| PartitionUnit.HandleHaltSettles | vmm_core/src/partition_unit.rs:431-467 | Handling one halt request, first, duplicate or MTRR replay, leaves the latch balanced and VPs running iff they may |
| PartitionUnit.HandleHaltEffects | vmm_core/src/partition_unit.rs:431-467 | The first halt is recorded and kept; MTRRs are replayed iff there are registers to replay |
| PartitionUnit.ClearHaltSettles | vmm_core/src/partition_unit.rs:487-496 | Clearing a halt releases its latch and restarts VPs iff they may run |
| PartitionUnit.FlushSettles | vmm_core/src/partition_unit.rs:626-636 | Draining the halts that raced with a stop keeps the latch balanced, leaves no request behind, and records the first of them iff none was recorded before |
| PartitionUnit.StopSettles | vmm_core/src/partition_unit.rs:626-636 | Stopping leaves VPs stopped, time frozen and the queue of halts empty, with the earliest halt recorded |
| PartitionUnit.ResetSettles | vmm_core/src/partition_unit.rs:638-644 | A reset, successful or not, keeps the invariant; a successful one leaves no halt recorded and the partition clean |
| PartitionUnit.ResetExact | vmm_core/src/partition_unit.rs:638-644 | A reset is logged, drops the halt and marks the partition clean iff both parts succeed; otherwise nothing changes |
| PartitionUnit.RestoreSettles | vmm_core/src/partition_unit.rs:651-655 | A restore, at whatever point it fails, keeps the invariant |
| PartitionUnit.RestoreExact | vmm_core/src/partition_unit.rs:651-746 | A restore always dirties the partition, succeeds under exactly the stated answers, and then reports the saved halt and nothing else |
| PartitionUnit.SetInitialRegsSettles | vmm_core/src/partition_unit.rs:498-530 | Setting registers, failed scrubs included, keeps the invariant |
| PartitionUnit.SetInitialRegsExact | vmm_core/src/partition_unit.rs:498-530 | Succeeds iff a needed scrub and a needed load do; a scrub is logged iff both its parts succeeded, registers are loaded only after a needed scrub, and a failed scrub leaves the partition in need of one |
| PartitionUnit.ResumeVpsSettles | vmm_core/src/partition_unit.rs:557-565 | Giving back one stop restarts VPs iff it was the last and nothing else holds them |
| PartitionUnit.PanicsExactly | vmm_core/src/partition_unit.rs:503-563 | In every run, an event meets a failing assertion iff it sets registers while the unit is started with no guard, reply, queued resume or lost stop, or accepts pages while started; giving back a stop never does |
| PartitionUnit.HeldGuardSuffices | vmm_core/src/partition_unit.rs:294-317 | A client that holds a guard across its call never meets the assertion |
| PartitionUnit.UnheldCallPanics | vmm_core/src/partition_unit.rs:498-503 | A run in which a client without a guard does |
| PartitionUnit.ScrubPromiseExact | vmm_core/src/partition_unit.rs:303-317 | The target VTL is clean when its registers are loaded iff the partition needed a reset at the call, or was last cleaned by a reset or by a scrub of this VTL |
| PartitionUnit.SecondVtlNotScrubbed | vmm_core/src/partition_unit.rs:498-530 | After a run, setting two VTLs' registers loads the second without scrubbing it |
| PartitionUnit.SaveRestoreKeepsHalt | vmm_core/src/partition_unit.rs:690-746 | A saved halt is recorded, latched and reported again by a restore |
| PartitionUnit.RestoreRefusesHalts | vmm_core/src/partition_unit.rs:710-746 | A restore succeeds iff the data parses, the backend accepts it and no halt is recorded, pending or racing |
| PartitionUnitLoop.PartitionUnitRunner.HandleHalt | vmm_core/src/partition_unit.rs:431-467 | The method updates the fields to exactly the specified state |
| PartitionUnitLoop.PartitionUnitRunner.OnHalt | vmm_core/src/partition_unit.rs:385-393 | One queued halt is taken, VPs are stopped first, and the halt is handled |
| PartitionUnitLoop.PartitionUnitRunner.RecordHalt | vmm_core/src/partition_unit.rs:469-485 | The halt is recorded and reported once |
| PartitionUnitLoop.PartitionUnitRunner.ClearHalt | vmm_core/src/partition_unit.rs:487-496 | The halt is cleared, the latch released and VPs restarted if they may run |
| PartitionUnitLoop.PartitionUnitRunner.SetInitialRegs | vmm_core/src/partition_unit.rs:498-530 | Scrub, load and remember, with success, the need for a reset and the registers decided by the backend's answers |
| PartitionUnitLoop.PartitionUnitRunner.TryStart | vmm_core/src/partition_unit.rs:543-550 | VPs are started, after thawing time and marking the partition dirty, iff they may run |
| PartitionUnitLoop.PartitionUnitRunner.StopVps | vmm_core/src/partition_unit.rs:552-555 | VPs are stopped and one more stop is counted |
| PartitionUnitLoop.PartitionUnitRunner.ResumeVps | vmm_core/src/partition_unit.rs:557-565 | One stop is given back and VPs restarted if they may run |
| PartitionUnitLoop.PartitionUnitRunner.Start | vmm_core/src/partition_unit.rs:619-624 | The unit is started, time thawed and VPs started if they may run |
| PartitionUnitLoop.PartitionUnitRunner.FlushHalts | vmm_core/src/partition_unit.rs:626-636 | The loop handles every pending halt in order |
| PartitionUnitLoop.PartitionUnitRunner.Stop | vmm_core/src/partition_unit.rs:626-636 | VPs stopped, time frozen, unit stopped, pending halts flushed |
| PartitionUnitLoop.PartitionUnitRunner.Reset | vmm_core/src/partition_unit.rs:638-644 | The halt is cleared and the partition marked clean iff both resets succeed |
| PartitionUnitLoop.PartitionUnitRunner.Restore | vmm_core/src/partition_unit.rs:651-655 | The partition is marked dirty first, and each failure leaves the specified state |
| PartitionUnitLoop.PartitionUnitRunner.StopAtIoBoundary | vmm_core/src/partition_unit/snapshot.rs:121-131 | One more stop is counted before VPs are stopped |
| PartitionUnitLoop.PartitionUnitRunner.BuildDump | vmm_core/src/partition_unit.rs:572-579 | VPs are stopped and given back, and run again iff they may |
| PartitionUnitLoop.PartitionUnitRunner.OnRequest | vmm_core/src/partition_unit.rs:394-417 | Each request reaches its handler, and fails iff its assertion does |
| PartitionUnitLoop.Machine.OnRequest | vmm_core/src/partition_unit.rs:394-417 | One request is taken and answered, and a stop is owed to its caller or lost |
| PartitionUnitLoop.Machine.OnUnit | vmm_core/src/partition_unit.rs:377-393 | Halts, the framework's requests and the end of the loop lead to the specified state |
| PartitionUnitLoop.Run | vmm_core/src/partition_unit.rs:345-429 | The event loop on any sequence of events leads exactly where the specified run does, so what holds of every run holds of the class |
| Cpio.HexRoundTrip | openhcl/gen_init_ramfs.py:145-149 | Hexadecimal fields are read back |
| Cpio.HeaderLength | openhcl/gen_init_ramfs.py:145-151 | A header has the fixed length iff every field fits 32 bits |
| Cpio.RecordReadsBack | openhcl/gen_init_ramfs.py:116-174 | A record is read back, header, name and data, wherever it was written, and the reader ends where the writer did |
| Cpio.ArchiveReadsBack | openhcl/gen_init_ramfs.py:358-385 | A newc reader finds the records of all entries in order, up to the first that carries the trailer's name; the archive is a multiple of 512 bytes |
| Cpio.RoundTripExact | openhcl/gen_init_ramfs.py:358-385 | Every record and then the trailer is found iff no entry has the trailer's name |
| Cpio.EntriesRead | openhcl/gen_init_ramfs.py:116-174 | A reader finds every entry's inode, mode, owner, links, time, devices and check in the format's places, with its name and content, preceded by nlink - 1 records without data iff it is non-empty and hard-linked; then the trailer |
| Cpio.Texts | openhcl/gen_init_ramfs.py:130-134 | The magic, the trailer's name and the upper-case digits |
| Cpio.RecordsAligned | openhcl/gen_init_ramfs.py:117-171 | Every record starts at a multiple of four |
| CpioWriter.CpioRamFs.AlignOnDword | openhcl/gen_init_ramfs.py:117-122 | The stream is padded to a multiple of four and the padding counted |
| CpioWriter.CpioRamFs.WriteEntry | openhcl/gen_init_ramfs.py:116-174 | Fails iff a field needs more than 32 bits; otherwise the stream grows by exactly the entry's link records and its own |
| CpioWriter.CpioRamFs.Write | openhcl/gen_init_ramfs.py:368-370 | The same through the archive object, with its running count |
| CpioWriter.CpioRamFs.Exit | openhcl/gen_init_ramfs.py:376-385 | The trailer is written and the last block filled |
| CpioWriter.CreateArchive | openhcl/gen_init_ramfs.py:671-675 | Writing all entries gives the archive unless one does not fit |
| CpioWriter.CountExact | openhcl/gen_init_ramfs.py:116-174 | The count returned for an entry is what was appended iff it has no link records |
| CfgCond.ExprComplete | openhcl/gen_init_ramfs.py:504-562 | Every condition of the grammar, whatever tokens follow it, parses to its meaning and leaves what follows |
| CfgCond.ExprSound | openhcl/gen_init_ramfs.py:504-562 | Whatever parses is a condition of the grammar with that meaning |
| CfgCond.LineExact | openhcl/gen_init_ramfs.py:497-502 | A line's tokens are accepted with a value iff they are a directive around a condition with that meaning |
| CfgCond.HeadSpelled | openhcl/gen_init_ramfs.py:432-489 | Every printed token is read back, whatever follows it |
| CfgCond.LexPrint | openhcl/gen_init_ramfs.py:432-489 | Lexing undoes printing, with any white space between tokens |
| CfgCond.PrintedConditionEvaluates | openhcl/gen_init_ramfs.py:428-562 | Any printing of a condition with any white space is accepted and evaluates to its meaning, unset variables as missing values |
| CfgCond.ComparisonMeaning | openhcl/gen_init_ramfs.py:532-562 | Comparisons compare values; an unset variable equals another unset one and no string |
| CfgCond.GroupMeaning | openhcl/gen_init_ramfs.py:513-523 | `all` holds iff every item does, `any` iff some item does |
| CfgCond.Spellings | openhcl/gen_init_ramfs.py:440-467 | The words and signs of the language |
| CfgCond.Characters | openhcl/gen_init_ramfs.py:433-474 | Which characters make a name and which are skipped |
| CfgCond.EvalExact | openhcl/gen_init_ramfs.py:428-562 | A text evaluates to a value iff it lexes to a directive whose condition has that meaning; everything else is an error |
| CfgCondEvaluator.ScanToken | openhcl/gen_init_ramfs.py:440-486 | The loops over the text find the token at a position and where it ends |
| CfgCondEvaluator.CfgCondEval.Lookahead | openhcl/gen_init_ramfs.py:432-489 | The cursor moves over one token, failing iff there is none |
| CfgCondEvaluator.CfgCondEval.Consume | openhcl/gen_init_ramfs.py:491-495 | The loop accepts exactly the expected tokens |
| CfgCondEvaluator.CfgCondEval.Term | openhcl/gen_init_ramfs.py:551-562 | A term's value, missing for an unset variable |
| CfgCondEvaluator.CfgCondEval.Expr | openhcl/gen_init_ramfs.py:532-549 | The recursive method terminates, and succeeds iff the specified parser does, with its value |
| CfgCondEvaluator.CfgCondEval.Cond | openhcl/gen_init_ramfs.py:504-511 | The same for conditions |
| CfgCondEvaluator.CfgCondEval.Group | openhcl/gen_init_ramfs.py:513-523 | The same for `any` and `all` |
| CfgCondEvaluator.CfgCondEval.ExprList | openhcl/gen_init_ramfs.py:525-530 | The loop reads a whole comma-separated list |
| CfgCondEvaluator.CfgCondEval.Eval | openhcl/gen_init_ramfs.py:428-502 | The object evaluates its text to exactly what `EvalExact` describes |
| InitRamFsConfig.GuardMeaning | openhcl/gen_init_ramfs.py:572-595 | What guards an entry is a directive with only blank lines and comments after it |
| InitRamFsConfig.ClassifyExact | openhcl/gen_init_ramfs.py:574-588 | Which lines are blank, directives, comments and entries, by their characters |
| InitRamFsConfig.KeptExact | openhcl/gen_init_ramfs.py:572-597 | A line is kept iff it is an entry and the directive that guards it, if any, holds |
| InitRamFsConfig.Config.AddFile | openhcl/gen_init_ramfs.py:571-633 | A file is accepted iff every directive evaluates, none follows another, and every kept entry parses; it adds exactly the entries whose guard is missing or true |
| InitRamFsConfig.Load | openhcl/gen_init_ramfs.py:566-635 | Over all files, the kept entries in order with inodes counting up from 721 |
| ConfigMerge.MergeScalar | flowey/flowey_core/src/node.rs:3068-3081 | Succeeds iff the values are compatible, and keeps whichever is set |
| ConfigMerge.MergeTable | flowey/flowey_core/src/node.rs:3083-3099 | Succeeds iff the tables agree on shared keys, and gives their union |
| ConfigMerge.Accumulator.MergeWith | flowey/flowey_core/src/node.rs:3394-3405 | Merging field by field succeeds and ends as specified |
| ConfigMerge.MergeAll | flowey/flowey_core/src/node.rs:3003-3007 | The loop over all partial configs computes the fold from the default |
| ConfigMerge.MergeExact | flowey/flowey_core/src/node.rs:3394-3405 | Two configs merge iff they agree wherever both say something, and the result says what either says |
| ConfigMerge.FoldExact | flowey/flowey_core/src/node.rs:3003-3007 | The fold succeeds iff every two contributions agree on each shared field and key, and then is their union |
| ConfigMerge.OrderIrrelevant | flowey/flowey_core/src/node.rs:3003-3007 | Lists with the same members, in any order and with any repetition, give the same outcome |
| SecretFlow.VarDb.SetVar | flowey/flowey_cli/src/var_db/in_memory.rs:36-50 | A variable is stored with its mark; a second write is refused |
| SecretFlow.RuntimeServices.Read | flowey/flowey_core/src/node.rs:439-463 | Data, or a null for a side effect; the flag is raised iff the data of a secret was read |
| SecretFlow.RuntimeServices.Write | flowey/flowey_core/src/node.rs:2316-2359 | The variable is stored with the step's flag, as secret, or as not secret, as the caller chose; a second write is refused |
| SecretFlow.RunStep | flowey/flowey_core/src/node.rs:2261-2381 | Driving any program through the services computes the specified run |
| SecretFlow.TraceExact | flowey/flowey_core/src/node.rs:2309-2381 | Over every run: each read was given the variable's data, or a null; each written variable holds its data and is secret if written as secret, not secret if overridden, and otherwise iff the data of a secret was read before; nothing else changed |
| SecretFlow.CompletedTraced | flowey/flowey_core/src/node.rs:2309-2381 | The same of the store a completed step leaves |
| SecretFlow.FlowRevealsNothing | flowey/flowey_core/src/node.rs:2311-2381 | Two completed flows from stores that agree on non-secret variables end in stores that agree on non-secret variables, for every sequence of steps |
| SecretFlow.StepRevealsNothing | flowey/flowey_core/src/node.rs:2311-2381 | The same for one step, even if the runs take different paths after reading a secret |
| SecretFlow.NoOverrideIsClean | flowey/flowey_core/src/node.rs:2309-2333 | Steps that only read and write always meet the theorem's condition |
| SecretFlow.OverrideReveals | flowey/flowey_core/src/node.rs:2335-2346 | With the override, two such flows can end differently |
| SecretFlow.FlagExact | flowey/flowey_core/src/node.rs:2377-2381 | The flag is set iff the data of some secret variable was read; side effects do not set it |
| SecretFlow.WrittenOnce | flowey/flowey_cli/src/var_db/in_memory.rs:36-50 | Nothing written is ever changed |
| LocalCache.Cache.RestoreInto | flowey/flowey_lib_common/src/cache.rs:136-181 | The scan takes the first available key, restores its directory, and reports hit, partial hit or miss |
| LocalCache.Cache.SaveFrom | flowey/flowey_lib_common/src/cache.rs:196-219 | Nothing but the index's creation on a hit; otherwise the directory is saved and the key appended |
| LocalCache.Cache.Run | flowey/flowey_lib_common/src/cache.rs:116-220 | One restore and one save; a failed restore leaves the disk as it is |
| LocalCache.Cache.RunMany | flowey/flowey_lib_common/src/cache.rs:116-220 | Running jobs one after another computes the specified outcomes and disk |
| LocalCache.IndexAppend | flowey/flowey_lib_common/src/cache.rs:141-147 | Appending any key makes available exactly the trimmed lines of that key |
| LocalCache.SavedKeyFound | flowey/flowey_lib_common/src/cache.rs:141-163 | A saved key is found later iff it is trimmed and has no line break |
| LocalCache.CacheExact | flowey/flowey_lib_common/src/cache.rs:116-220 | For every hash and every sequence of jobs with any keys: each outcome and the disk are determined by the completed jobs before, through the offered keys, the directories there are and what was laid over what |
| LocalCache.OfferedMeaning | flowey/flowey_lib_common/src/cache.rs:141-147 | A key is offered iff it is a trimmed line of a completed job's key, or empty once there is an index |
| LocalCache.LayersMeaning | flowey/flowey_lib_common/src/cache.rs:209-212 | A directory holds a file iff a saving job put it there, and holds what the last such job built |
| LocalCache.RestoreFails | flowey/flowey_lib_common/src/cache.rs:151-175 | After any jobs with any keys, the next one fails iff the first of its keys that is offered shares its directory with no completed job's key |
| LocalCache.StuckKey | flowey/flowey_lib_common/src/cache.rs:151-175 | A key offered without a directory fails until a completed job's key hashes to that directory |
| LocalCache.OtherLineFails | flowey/flowey_lib_common/src/cache.rs:141-175 | After a first job, a job whose key is another trimmed line of the first job's key fails |
| LocalCache.SplitKeyFails | flowey/flowey_lib_common/src/cache.rs:141-175 | The same at a key of two lines and at a key with a space before it |
| LocalCache.FirstSavedMeaning | flowey/flowey_lib_common/src/cache.rs:196-213 | What the simple reference holds for a key is what the first job with that key built |
| LocalCache.CacheRefinesHistory | flowey/flowey_lib_common/src/cache.rs:116-220 | With plain keys and no collisions, over every sequence of jobs: hit iff the key was saved before, restoring the first snapshot saved under it; else the first saved fallback; else miss; no job fails |
| LocalCache.OfferedHoused | flowey/flowey_lib_common/src/cache.rs:136-163 | Then every offered key but the empty one was saved and has its first snapshot in its directory |
| BashScript.Display | flowey/flowey_lib_common/src/gen_cargo_nextest_run_cmd.rs:493-530 | The loop writes exactly the printed script |
| BashScript.FeedQuoted | flowey/flowey_lib_common/src/gen_cargo_nextest_run_cmd.rs:480-491 | A shell reads a quoted string as exactly that string, part of one word, whatever it contains |
| BashScript.FeedCommand | flowey/flowey_lib_common/src/gen_cargo_nextest_run_cmd.rs:511-526 | A shell reads a printed command as one command with exactly its argv |
| BashScript.ScriptReadsBack | flowey/flowey_lib_common/src/gen_cargo_nextest_run_cmd.rs:480-530 | Tokenising the printed script gives exactly the exports and each command's argv |
| PatchResolver.PatchResolver.NewSideEffectVar | flowey/flowey_core/src/patch.rs:165-168 | The name of the next number |
| PatchResolver.PatchResolver.OnSwap | flowey/flowey_core/src/patch.rs:170-183 | A swap is recorded; a second swap of the same node trips the assertion |
| PatchResolver.PatchResolver.InjectSideEffect | flowey/flowey_core/src/patch.rs:74-95 | The effect is appended to its node's list under a new variable |
| PatchResolver.PatchResolver.ApplyAll | flowey/flowey_core/src/patch.rs:137-140 | Applying patches one by one computes the specified resolver |
| PatchResolver.PatchResolver.Finalize | flowey/flowey_core/src/patch.rs:142-160 | The loop moves lists along the swaps in ascending order |
| PatchResolver.ResolvedNamesDistinct | flowey/flowey_core/src/patch.rs:165-195 | The variables of all injected effects are pairwise distinct, and no list is empty |
| PatchResolver.ResolvedSwaps | flowey/flowey_core/src/patch.rs:170-183 | Every swap is recorded with its target, and resolving fails iff a node is swapped twice |
| PatchResolver.ResolvedInOrder | flowey/flowey_core/src/patch.rs:184-196 | Each node's list holds exactly what was injected into it, in order |
| PatchResolver.MovesFollow | flowey/flowey_core/src/patch.rs:142-160 | Every surviving list is where the swaps take it, and some list survives at every place a list goes |
| PatchResolver.FollowIsChain | flowey/flowey_core/src/patch.rs:142-160 | A list goes on along swapped nodes for exactly as long as they increase |
| PatchResolver.KeepsExact | flowey/flowey_core/src/patch.rs:142-160 | A list moved by a swap ends where that swap put it iff its new node is not swapped later, or later swaps lead upwards and back to it |
| PatchResolver.LoopKeeps | flowey/flowey_core/src/patch.rs:142-160 | Swaps that take a list further and bring it back |
| PatchResolver.ConservedExactly | flowey/flowey_core/src/patch.rs:142-160 | Every list appears under its swapped node and nothing else does iff no two injected nodes share a swapped node, and each swapped one's new node is not swapped later or is the bottom of a loop of increasing swaps |
| PatchResolver.SeparateTargets | flowey/flowey_core/src/patch.rs:142-160 | That condition holds if swap targets are distinct, not swapped and without injections |
| PatchResolver.SharedTargetLoses | flowey/flowey_core/src/patch.rs:142-160 | A swap onto a node with injections loses those |
| InputDistributor.BinarySearch | vmm_core/src/input_distributor.rs:263-267 | The place of an elevation in a sorted list, and whether it is taken |
| InputDistributor.Forwarder.AddSink | vmm_core/src/input_distributor.rs:261-279 | The list stays strictly sorted; a new elevation is added and a taken one refused |
| InputDistributor.Forwarder.Forward | vmm_core/src/input_distributor.rs:281-288 | The highest active sink is chosen, or none if none is active |
| InputDistributor.TopUnique | vmm_core/src/input_distributor.rs:281-288 | There is only one such choice |
| InputDistributor.OfferedMeaning | vmm_core/src/input_distributor.rs:261-279 | The sink kept at an elevation is the first one ever offered there |
| InputDistributor.RunningMeaning | vmm_core/src/input_distributor.rs:197-206 | The unit runs iff it was started and not stopped since |
| InputDistributor.ActiveMeaning | vmm_core/src/input_distributor.rs:281-288 | A sink is active iff its device activated it and did not deactivate it since |
| InputDistributor.Distributor.Handle | vmm_core/src/input_distributor.rs:93-133 | One event is handled as the history demands |
| InputDistributor.Distributor.Run | vmm_core/src/input_distributor.rs:77-133 | Over every sequence of events: an input that arrives while running reaches exactly the highest active sink of its kind, and nothing else is delivered |

## Left out

- Native byte order: tables are modelled little-endian, the order of the machines they are built for.
- The tables' 36-byte headers, checksums and fixed parts, and the FADT, ASPT, GTDT, MADT, SRAT, SLIT, MCFG, DSDT, SSDT and CEDT tables: constant field lists or easy members.
- Pptt.TopologyRecovered: like the other theorems about following references, for tables shorter than 4 GiB; in a longer one the 32-bit offsets wrap around, which `Pptt.Build` models.
- Iort.WalkRecovers: like the other theorems about the table, for configurations whose node offsets and counts fit 32 bits; `Iort.Build` models them wrapping around, as in a build without overflow checks.
- The VP set and the halt latch are a flag and a counter; how VPs run, the debugger, inspection beyond its clear-halt command, snapshots' clock handling, dumps' contents and teardown are not modelled.
- PartitionUnit.EveryRunIsSafe: reset, save and restore come only while the unit is stopped, as the state-unit framework calls them.
- The cpio entries' constructors, reading files, compression and archives of directories.
- CpioWriter.CpioRamFs.WriteEntry: header fields are natural numbers; a negative one is not modelled.
- CfgCond.PrintedConditionEvaluates: identifiers are ASCII letters, digits and underscores; other letters that Python's `isalnum` accepts are not modelled. Neither is the interpreter's recursion limit, which a well-formed condition meets too if it is nested deeply enough.
- InitRamFsConfig.Config.AddFile: stripping lines and splitting an entry into its parts are outside; whether an entry parses is a parameter.
- ConfigMerge.MergeExact: `PartialEq` is taken to be equality, so values unequal to themselves are not modelled.
- SecretFlow.FlowRevealsNothing: what a step computes from files, clocks or processes is taken to be the same in both runs; `dangerous_gh_set_global_env_var` and logging are not modelled.
- LocalCache.CacheRefinesHistory: plain keys and a hash that does not collide on them; `CacheExact` is the statement without either. One request at a time and fresh target directories. The hash function itself is a parameter. A directory is its files, so empty directories and a file in the place of a directory are not modelled.
- The ADO and GitHub cache backends.
- BashScript.ScriptReadsBack: text is Unicode, so lossy conversion of other strings is outside; unquoted characters the printer never writes have no meaning in the tokeniser.
- PowerShell quoting.
- PatchResolver.PatchResolver.NewSideEffectVar: the counter does not wrap around.
- InputDistributor.Distributor.Run: events are handled one at a time in arrival order; the channels that merge them are not modelled.
- Step scheduling and YAML emission of flows, `petri`, `xtask` and the other crates.
