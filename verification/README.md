# Verified models of the gem5 tooling

The simulator in `system-level` comes with scripts that migrate and merge
checkpoints, rebuild a system from its configuration, frame and print traces, and
drive simulations. This project models the algorithms in them that are easy to get
wrong and proves, for all inputs, what they are for.

| module | models |
|---|---|
| `PortOrder`, `PortBinder`, `PortBinding` | the single greedy pass that rebinds ports in `read_config.py` |
| `PrintQueue`, `PrintOrder` | the bounded reorder queue of `o3-pipeview.py` |
| `Timeline`, `TimelineRows` | the timeline rows of `o3-pipeview.py` |
| `CptUpgrader`, `Migration` | the registry and the migration rounds of `cpt_upgrader.py` |
| `Aggregator`, `AggregatorMeaning` | merging checkpoints in `checkpoint_aggregator.py` |
| `Varint` | varints and message framing in `protolib.py` |
| `DepTrace` | the text form of dependency traces, written and read |
| `CopyrightYears` | the year ranges of `find_copyrights.py` |
| `SimulationDrivers`, `SimulationRuns` | the checkpoint loop and the switching loop of `Simulation.py`, and what they keep over every run |
| `MemTest`, `LatMemRd`, `GpuPorts` | the tree, the ranges and the port walk of three configurations |
| `Sorting`, `Strings`, `Sets`, `Arith`, `Text`, `Bytes` | what Python supplies: stable sort, string order, text functions |

Main results, each an equivalence where the code falls short of its promise:

- A doubled connection list is bound exactly when every slot has one peer, indices
  have no gaps and the connections can be directed so that the sorted order meets
  each port's slots in index order; the wiring is then rebuilt slot by slot. Lists
  whose connections have an end on a one-slot port always qualify. A chain of two
  vector ports that could be bound in another order is rejected.
- The print queue loses and repeats nothing, and prints the stable sort of the
  whole trace exactly when no later arrival belongs among those being flushed. The
  assumption of the header comment is sufficient for that.
- The migration loop aborts exactly when the missing tags depend on each other in a
  cycle, or a pending migration depends on an absent downgraded tag, or, were tags only
  to grow, a downgrader would run in an earlier round than a migration that depends on
  its tag. The outcome does not depend on the order within a round, and a second run
  finds nothing to do.
- Merged checkpoints have no two sections of one name. Bytes are found at their
  moved addresses, and the recorded size is the size written, exactly when no image
  file is shorter than the pages it is said to hold.
- Framed messages are read back exactly when none is empty and all lengths fit 32
  bits; trace lines exactly when loads and stores carry their memory fields and
  other records do not; years exactly when consecutive ones have four digits.
- Before a checkpoint or a switch of cpus the simulator is drained, which takes
  simulated time that the scripts do not count. Checkpoints are on schedule exactly
  when no drain takes time; otherwise they are late by all drains so far, the maximum
  tick can be passed by as much, and a checkpoint instruction met behind the next mark
  makes the script ask for a negative number of ticks. The switching loop, with a period
  that is not negative, fails exactly when a drain ends behind the maximum tick.

Where code and documentation disagree the model follows the code. The header of
`cpt_upgrader.py` (lines 56-61) says that a tag depending on a downgraded tag waits
for its removal; `ready` asks for its presence, and `Migration.DependingOnDowngraded`
shows what follows. The comment in `bind_ports` (lines 321-323) says that exactly one
direction of each pair is bindable; `PortBinding.OrderableButRejected` shows a list
where for one pair neither is.

Python's integers are unbounded, as here. `result |= bits << shift` in the varint
decoder is modelled as an addition; the loop invariant that the bits do not overlap is
part of the proof. `math.ceil` of a float quotient is modelled as the exact quotient
rounded up. The simulator is a parameter: a driver is run against an arbitrary finite
list of events. An event ends a call of `simulate` as `src/sim/simulate.cc` promises (at
most the ticks asked for, all of them when the limit is the cause), or ends a drain
after any number of ticks (`src/python/m5/simulate.py`, lines 188-221). A run is cut off
where the list ends or does not fit, so what is shown holds of every beginning of every
run. The order in which a Python set or dictionary yields its elements is left open.
The ports that `apu_se.py` walks are the list `create_system` returned, as line 236 of
`configs/ruby/Ruby.py` assigns it.

Lemmas to which Dafny's automatic induction would apply switch it off; every induction
is written out.

## Model

| member | source | states |
|---|---|---|
| PortOrder.OrderIsTotal | system-level/configs/example/read_config.py:158-160 | the Python 2 comparison of connections is a total order, so the sorted list is unique |
| PortBinder.GatherPortConnections | system-level/configs/example/read_config.py:280-298 | the gathering loop yields the recorded peers of each port, slot by slot |
| PortBinder.MarkPorts | system-level/configs/example/read_config.py:308-311 | every port that starts a connection gets a counter of 0 |
| PortBinder.SelectConnections | system-level/configs/example/read_config.py:313-341 | the greedy loop computes the pass, including the failing lookup |
| PortBinder.MakeConnections | system-level/configs/example/read_config.py:349-354 | each assignment appends a slot at both ends |
| PortBinder.BindPorts | system-level/configs/example/read_config.py:300-354 | the whole of `bind_ports`, with both of its errors |
| PortBinding.PassKeepsInv | system-level/configs/example/read_config.py:332-341 | at every point the bound slots are those below the counters, none bound twice, and each after the lower slots of its port |
| PortBinding.NeverBothDirections | system-level/configs/example/read_config.py:321-330 | the pass never takes both directions of a connection and none twice |
| PortBinding.BindRebuilds | system-level/configs/example/read_config.py:343-354 | on success the wiring holds exactly the given connections, each at its recorded slot |
| PortBinding.BindSucceedsIff | system-level/configs/example/read_config.py:321-346 | success if and only if one peer per slot, no index gaps, and a direction for each connection that the sorted order can use |
| PortBinding.OneSlotEndsBind | system-level/configs/example/read_config.py:324-346 | if every connection has an end on a one-slot port, binding never fails |
| PortBinding.OrderableButRejected | system-level/configs/example/read_config.py:345-346 | a chain of three connections that can be bound in the order given is rejected |
| PortBinding.GatheredIsRegular | system-level/configs/example/read_config.py:289-298 | gathered connections give each slot one peer and have no index gaps |
| PortBinding.ConfigurationRebuilt | system-level/configs/example/read_config.py:374-381 | gathering and binding give every port exactly its recorded peers in the recorded order |
| PrintQueue.Viewer.PrintFirst | system-level/util/o3-pipeview.py:169-186 | one instruction leaves the queue and is printed exactly when it lies in the window |
| PrintQueue.Viewer.PrintInsts | system-level/util/o3-pipeview.py:165-186 | the queue is sorted and its front handled down to the threshold |
| PrintQueue.Viewer.QueueInst | system-level/util/o3-pipeview.py:157-162 | the instruction is queued; beyond the upper threshold the queue is flushed to the lower |
| PrintQueue.Viewer.ProcessTrace | system-level/util/o3-pipeview.py:126-148 | the loop to the end of the file prints the wanted ones among the handled instructions and empties the queue |
| PrintOrder.HandledOnce | system-level/util/o3-pipeview.py:157-186 | whatever the trace, each record is handled exactly once and equal sequence numbers keep their order |
| PrintOrder.RunLength | system-level/util/o3-pipeview.py:161-168 | how long the queue is after any number of arrivals, which is never above the upper threshold |
| PrintOrder.OverflowsIff | system-level/util/o3-pipeview.py:161-162 | which arrivals make the queue overflow |
| PrintOrder.SortedIffTimely | system-level/util/o3-pipeview.py:45-50 | the output is the stable sort of the whole trace if and only if no later arrival belongs among those being flushed |
| PrintOrder.RankIsPlace | system-level/util/o3-pipeview.py:152-153 | the rank of an arrival is its place in the sorted trace |
| PrintOrder.HeaderAssumptionSuffices | system-level/util/o3-pipeview.py:49-50 | if no instruction is late by more than the lower threshold, what is printed is the sorted trace in the window |
| Timeline.CollectEvents | system-level/util/o3-pipeview.py:249-260 | the stages reached within a row, with their offsets |
| Timeline.DrawEvents | system-level/util/o3-pipeview.py:262-280 | the sorted events become dots and marks, a dispatch at the tick of the issue left out |
| Timeline.PrintInst | system-level/util/o3-pipeview.py:225-281 | as many rows as computed; the index error exactly for an instruction that reached no stage |
| Timeline.LinesAtLeast | system-level/util/o3-pipeview.py:235-240 | there is one line exactly in the compact case |
| TimelineRows.RowLength | system-level/util/o3-pipeview.py:263-280 | a row has one cell per column and one more for each mark that shares a column with the one before |
| TimelineRows.EachStageInOneRow | system-level/util/o3-pipeview.py:248-260 | each stage reached is marked in exactly one row, once, and nothing else is marked |
| TimelineRows.LastRowIsNeeded | system-level/util/o3-pipeview.py:228-240 | the last row holds the last event, so no row is superfluous |
| TimelineRows.FetchedHasEvent | system-level/util/o3-pipeview.py:264-265 | a fetched instruction always has an event to look at |
| TimelineRows.AlignedRowLength | system-level/util/o3-pipeview.py:270-280 | with distinct aligned ticks each row has exactly its width |
| TimelineRows.AlignedRowColumns | system-level/util/o3-pipeview.py:258-279 | with distinct aligned ticks each mark stands in the column of its tick |
| CptUpgrader.ChainLegacy | system-level/util/cpt_upgrader.py:166-170 | legacy versions depend on their predecessors up to the first gap, all else unchanged |
| CptUpgrader.Resolve | system-level/util/cpt_upgrader.py:172-184 | in any order of the dictionary, forward dependencies are turned round, and loading succeeds exactly when all named tags exist |
| CptUpgrader.Upgraders.Register | system-level/util/cpt_upgrader.py:117-137 | a script enters the registry, or replaces the one under its tag; exactly when the registry stays valid and each tag has one kind |
| CptUpgrader.Upgraders.LoadAll | system-level/util/cpt_upgrader.py:160-184 | loading succeeds exactly when there is no legacy gap and all named tags exist; the registry then has exactly the chained and turned dependencies |
| Migration.RunRound | system-level/util/cpt_upgrader.py:247-251 | one round in any order: same tags, no absent tag removed, dependencies first |
| Migration.ApplyMigrations | system-level/util/cpt_upgrader.py:237-251 | the loop reaches its order-independent outcome and applies each pending migration once, behind all it depends on |
| Migration.MigratedTags | system-level/util/cpt_upgrader.py:239-257 | a finished run ends with the start tags and all upgrades less all downgraded tags |
| Migration.SecondRunIsNoop | system-level/util/cpt_upgrader.py:239-255 | a second run has nothing to apply |
| Migration.AbortsIff | system-level/util/cpt_upgrader.py:237-251 | with any registry, the loop aborts if and only if the missing tags contain a cycle, a pending migration depends on an absent downgraded tag, or in the growing run a downgrader precedes a dependent migration |
| Migration.GrowingAbortsIff | system-level/util/cpt_upgrader.py:237-245 | the run in which tags only grow aborts if and only if one of the first two holds |
| Migration.DependingOnDowngraded | system-level/util/cpt_upgrader.py:139-143 | a tag depending on a downgraded tag needs its presence and runs no later than its downgrader |
| Migration.DowngradedExample | system-level/util/cpt_upgrader.py:56-61 | against the header: with the downgraded tag there both migrations run in round 0, without it the run aborts |
| Migration.ConvertLegacy | system-level/util/cpt_upgrader.py:213-217 | a legacy version stands for the tags of versions 2 up to it |
| Migration.ProcessFile | system-level/util/cpt_upgrader.py:209-257 | each outcome of a file, and that a written file needs no further migration |
| Aggregator.MergeOne | system-level/util/checkpoint_aggregator.py:64-89 | what one checkpoint contributes, and the error for an unreadable entry |
| Aggregator.CopyPages | system-level/util/checkpoint_aggregator.py:102-109 | page by page, the counted pages or the shorter file are copied |
| Aggregator.Pad | system-level/util/checkpoint_aggregator.py:118-126 | filler pages of the character 0 up to the memory size |
| Aggregator.Aggregate | system-level/util/checkpoint_aggregator.py:41-136 | succeeds exactly when all that is read is there, and yields the merged sections and memory |
| AggregatorMeaning.RenameInjective | system-level/util/checkpoint_aggregator.py:65-66 | renaming with tags of one width forgets neither name nor tag |
| AggregatorMeaning.NoCollisions | system-level/util/checkpoint_aggregator.py:56-89 | no two sections of the merged file have the same name |
| AggregatorMeaning.ByteLandsAt | system-level/util/checkpoint_aggregator.py:94-112 | where every byte lands, and that this is its moved address if and only if no file in front is short |
| AggregatorMeaning.AddressPreserved | system-level/util/checkpoint_aggregator.py:69-74 | a moved physical address leads to the byte it led to before |
| AggregatorMeaning.DisjointPages | system-level/util/checkpoint_aggregator.py:95-96 | different checkpoints occupy disjoint pages within the recorded size |
| AggregatorMeaning.RangeSizeExact | system-level/util/checkpoint_aggregator.py:118-131 | the recorded size covers the memory size without a spare page and equals the bytes written if and only if no file is short |
| AggregatorMeaning.OptionsKept | system-level/util/checkpoint_aggregator.py:69-77 | in the merged file every section about a cpu has, under its new name, all its other options |
| AggregatorMeaning.ProcessIdsDiffer | system-level/util/checkpoint_aggregator.py:76-77 | in the merged file two file descriptor maps have the same process id exactly when they come from the same checkpoint |
| AggregatorMeaning.LatestTickIsMax | system-level/util/checkpoint_aggregator.py:81-84 | the merged tick is the latest one of all checkpoints |
| Varint.EncodeVarint32 | system-level/util/protolib.py:143-155 | the loop writes the base-128 groups, lowest first |
| Varint.Reader.DecodeVarint32 | system-level/util/protolib.py:98-126 | value and bytes used, end of file, or too many bytes, with the rest left unread |
| Varint.Reader.DecodeMessage | system-level/util/protolib.py:128-141 | a message is found exactly when a size other than 0 is read; a negative size takes the whole file |
| Varint.FiveBytes | system-level/util/protolib.py:143-155 | lengths below 2^32 take at most five bytes |
| Varint.DecodeEncode | system-level/util/protolib.py:110-123 | decoding undoes encoding with any suffix, up to the truncation to 32 bits |
| Varint.PrefixFree | system-level/util/protolib.py:149-155 | no encoding is the beginning of another |
| Varint.ReadBackIff | system-level/util/protolib.py:128-163 | framed messages are read back, to the last byte, if and only if none is empty and all lengths are below 2^32 |
| DepTrace.PrintTrace | system-level/util/decode_inst_dep_trace.py:148-203 | the text of the trace and the three counts |
| DepTrace.InfoReadBack | system-level/util/encode_inst_dep_trace.py:152-177 | the fields in front of the first colon are read back if and only if the record carries the memory fields of its kind |
| DepTrace.EncodeTrace | system-level/util/encode_inst_dep_trace.py:147-195 | the records of a text, or none when a line is not understood |
| DepTrace.LineReadBackIff | system-level/util/encode_inst_dep_trace.py:148-192 | a printed record is read back, absent pc and weight made 0 and 1, if and only if it carries the memory fields of its kind |
| DepTrace.TraceReadBackIff | system-level/util/decode_inst_dep_trace.py:154-203 | the same for whole traces |
| CopyrightYears.DateStr | system-level/util/find_copyrights.py:175-199 | the loop prints the runs of the sorted years and fails on none |
| CopyrightYears.ProcessDates | system-level/util/find_copyrights.py:98-116 | exactly the years some entry stands for |
| CopyrightYears.DateRuns | system-level/util/find_copyrights.py:186-197 | the printed ranges cover the set, ascend, and have a gap between any two |
| CopyrightYears.FewestRanges | system-level/util/find_copyrights.py:186-197 | no list of ranges for the same years is shorter |
| CopyrightYears.TextCanonical | system-level/util/find_copyrights.py:175-177 | the text depends on the set alone |
| CopyrightYears.YearsReadBackIff | system-level/util/find_copyrights.py:98-116 | the text is read back as the set if and only if consecutive years in it have four digits |
| SimulationDrivers.Simulator.MaySwitch | system-level/src/python/m5/simulate.py:271-296 | the checks, pair by pair, pass exactly when the old cpus run, the new ones do not, all can hand over and the new ones need one memory mode |
| SimulationDrivers.ScriptCheckpoints | system-level/configs/common/Simulation.py:234-268 | the script runs as the results below have it, with a drain before each checkpoint |
| SimulationRuns.CheckpointTimes | system-level/configs/common/Simulation.py:239-266 | checkpoint k is written k periods behind the first mark and late by all drains so far, the last one after a checkpoint instruction by its own only; at most the larger of 1 and the number allowed; no mark behind the maximum tick |
| SimulationRuns.OnScheduleIffNoDrainTime | system-level/src/python/m5/simulate.py:231-239 | the checkpoints are on schedule if and only if every drain took 0 ticks |
| SimulationRuns.FailedIff | system-level/configs/common/Simulation.py:239-263 | the script asks for a negative number of ticks if and only if it starts behind the first mark, its options do, or a checkpoint instruction is met behind the next mark |
| SimulationRuns.SensibleRun | system-level/configs/common/Simulation.py:254-263 | the maximum tick is passed by no more than all drains took; without drain time it is not passed and nothing fails |
| SimulationRuns.UndisturbedRun | system-level/configs/common/Simulation.py:252-266 | without other exits the schedule is filled, and the run ends late by exactly all drains |
| SimulationRuns.PassesMaxtickIff | system-level/configs/common/Simulation.py:254-257 | an undisturbed run to the maximum tick passes it if and only if some drain took time |
| SimulationRuns.DrainCanFailIff | system-level/configs/common/Simulation.py:259-263 | where a second checkpoint is planned, some run fails behind the first drain if and only if that took time |
| SimulationDrivers.RepeatSwitch | system-level/configs/common/Simulation.py:414-432 | the loop runs as the results below have it, with a drain before each switch |
| SimulationRuns.SwitchTimes | system-level/configs/common/Simulation.py:416-423 | switch j comes j + 1 periods and all drains so far behind the start |
| SimulationRuns.SwitchFailsIff | system-level/configs/common/Simulation.py:430-432 | the loop fails if and only if the period is negative or the last drain ends behind the maximum tick, and those are the runs that pass it if a period is left at the start |
| SimulationRuns.SwitchCount | system-level/configs/common/Simulation.py:416-432 | no more switches than periods left at the start, and fewer if more than one |
| SimulationRuns.SwitchWithoutDrainTime | system-level/configs/common/Simulation.py:416-432 | if no drain takes time, switches are on schedule and the maximum tick is kept |
| SimulationRuns.RolesAlternate | system-level/src/python/m5/simulate.py:303-322 | a switch is refused at once or never, and the roles alternate, if the old cpus need one memory mode; otherwise it is made at most once |
| SimulationRuns.DrainCanFailSwitchIff | system-level/configs/common/Simulation.py:430-431 | some run fails behind the first switch if and only if its drain ends behind the maximum tick |
| MemTest.NumTesters | system-level/configs/example/memtest.py:116-127 | the testers of each level times the product of the fan-outs below |
| MemTest.CheckSpec | system-level/configs/example/memtest.py:152-177 | exactly what the sanity checks let through |
| MemTest.Prototypes | system-level/configs/example/memtest.py:190-214 | one prototype per cache level, each scaled from the next |
| MemTest.Builder.MakeCacheLevel | system-level/configs/example/memtest.py:236-297 | the subtree adds the fan-out product on every level and meets no error exit |
| MemTest.Builder.BuildTree | system-level/configs/example/memtest.py:231-300 | each level has the product of the fan-outs below, and all testers together are the counted ones |
| MemTest.NamesUnique | system-level/configs/example/memtest.py:239-245 | no two subsystems have the same name |
| LatMemRd.IsPow2Iff | system-level/configs/dram/lat_mem_rd.py:147-149 | the bit trick finds exactly the powers of two |
| LatMemRd.Ranges | system-level/configs/dram/lat_mem_rd.py:154-164 | the points up to the first that is not below the end of the memory |
| LatMemRd.PointClosed | system-level/configs/dram/lat_mem_rd.py:154-164 | four points to each doubling, in closed form |
| LatMemRd.EndsAtMaxIff | system-level/configs/dram/lat_mem_rd.py:160-164 | the list ends at the end of the memory if and only if that is one of the points |
| LatMemRd.PowerOfTwoRanges | system-level/configs/dram/lat_mem_rd.py:154-164 | with a power of two the list ends there and holds every power from 4096 |
| LatMemRd.CreateTrace | system-level/configs/dram/lat_mem_rd.py:194-212 | a packet every `itt` ticks; every burst of the range is read exactly once and nothing else |
| LatMemRd.AllTracesFitIff | system-level/configs/dram/lat_mem_rd.py:219-243 | every trace ends within a period if and only if the list ends at the end of the memory |
| GpuPorts.CreateSystem | system-level/configs/ruby/GPU_VIPER.py:510-738 | the loops list the sequencers group by group |
| GpuPorts.WalkShared | system-level/configs/example/apu_se.py:579-593 | unit i gets cache i divided by the sharing factor, and the walk ends behind the last cache |
| GpuPorts.ConnectPorts | system-level/configs/example/apu_se.py:537-605 | along the list of `create_system` every cpu, compute unit and command processor gets its own sequencers |

## Left out

- Files, gzip, ConfigParser, optparse and protobuf serialisation: input and output or libraries; files are byte sequences, messages byte strings, configurations parsed values.
- The early stop of `process_trace` at line 132: the call lacks an argument and fails; the path to the end of the file is modelled.
- Skipping to the first line of interest, colours and the text around a timeline row in `o3-pipeview.py`: text layout only.
- Parsing of port names in `read_config.py`: ports are taken as parsed.
- The effect of an upgrader on a checkpoint: unseen code; the order of application is kept as a log.
- Numbers with a trailing L, which `long` of Python 2 accepts: not read in trace lines.
- Text with a sign as a number in a checkpoint: taken as not a number, since page counts, addresses and ticks are unsigned.
- Cache parameters other than the size, and the wiring of crossbars in `memtest.py`: they follow the same recursion.
- Shuffling in `lat_mem_rd.py`: given as a permutation.
- CptUpgrader.Upgraders.Register: the table of legacy versions holds tags, not script objects, so that a script replaced under its tag while it keeps a legacy version is not told from its successor.
- What the simulator does while it drains, and exit events it swallows there: a drain is given by the ticks it takes.
- Type checks, unknown memory modes and cache flushes in `switchCpus`: a cpu is given by its identity, its memory mode and whether it can hand over.
- The instruction-count branch of `scriptCheckpoints`, simpoints and `benchCheckpoints`: simpler loops of the same kind.
- The RDMA NIC and the circuits: device models whose behaviour is given by timing events.
