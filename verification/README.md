# gem5 tools and configuration scripts: a Dafny model

gem5 is a computer architecture simulator. This project models the Python tools and configuration scripts
around it whose behaviour is hardest to see from the code, and proves what they promise. `dafny verify
dfyconfig.toml` checks everything.

Where a tool works by updating things step by step, the model does too: classes and loops, each proved against a
specification function or predicate. The laws are then proved about those functions.

| part | files | what is proved |
|---|---|---|
| Pipeline viewer | `StableSorting`, `ReorderQueue`, `PipeTrace`, `PipeGroups`, `PipeRows`, `PipeTimes`, `PipeViewer` | The bounded print queue gives the stable sort of the whole trace exactly if the trace keeps a stated bound on disorder, and that bound is tight. Skipping ahead and stopping early change nothing. Every tick of an instruction is the one its last line reports, every stage is drawn once, in one row, in the cell of its tick, and the viewer as a whole fails exactly on an instruction without any event. |
| Checkpoint migration | `CptUpgrader`, `UpgradeOrder`, `UpgradeRanks` | Dependencies are resolved and respected, a run completes exactly if the pending tags can be ranked, which can be done in one way only, the final tags are exact, and the enumeration order of Python's sets does not matter for commuting scripts. The documented rule for downgraders fails on a given registry, and the exact condition for it is proved. |
| Dependency traces | `Text`, `DepTrace`, `Bits`, `Framing`, `TraceFiles` | Text to records and back, varint framing with its sign and width handling on bit level, and the whole way text - binary file - text for every serialisation that reads the written records back. |
| Checkpoint merging | `SectionNames`, `Aggregator`, `MergedImage`, `MergedOptions` | Renaming is injective, images lie side by side, following a moved address in the merged memory finds the byte it found before, and every option of the merged configuration is accounted for. |
| Checkpoint series | `CheckpointDriver`, `CheckpointSeries`, `CheckpointCalls` | For every call and every guest event trace: when checkpoints are taken, exactly how many, when the call is refused, where it leaves the simulator, and which checkpoint a later restore selects. |
| Port binding | `PortOrder`, `PortBinder`, `BindingOrder` | Sorting has one result, the greedy pass over it is sound, its final check is exact, and it succeeds exactly if any in-order choice exists. Sorting alone does not guarantee that. |
| Memory tester | `TesterTree`, `TesterWiring`, `TesterLaws`, `TesterPorts`, `TesterSides`, `TesterPaths`, `TesterCaches`, `TesterShape`, `TesterBuilder` | The recursive builder against the closed-form count, unique names, all ports connected and none twice, a way to memory for every tester, the right prototype for every cache, and the right caches and testers on every crossbar. |
| GPU wiring | `GpuWiring`, `GpuTlbs` | Index arithmetic that has to agree across three scripts. |
| Small tools | `YearRanges`, `YearText`, `RangeSweep`, `RollingLog` | Year lists that read back exactly if a condition on neighbouring years holds, the latency sweep with its power-of-two bit test, the circular log. |

`Arith` holds division facts that several parts use.

## Model

| member | source | states |
|---|---|---|
| StableSorting.StableSortCharacterised | gem5/util/o3-pipeview.py:165-165 | Sorting by key is the only result that is ordered and keeps, for every key, the original order of the elements with that key |
| StableSorting.FilterSortCommute | gem5/util/o3-pipeview.py:165-183 | Leaving out instructions before or after the sort gives the same list |
| ReorderQueue.PrintQueue.constructor | gem5/util/o3-pipeview.py:51-66 | Starts empty, with the given thresholds and bounds |
| ReorderQueue.PrintQueue.PrintIfShown | gem5/util/o3-pipeview.py:173-184 | Prints an instruction exactly if no sequence-number, tick or committed-only bound excludes it |
| ReorderQueue.PrintQueue.PopDown | gem5/util/o3-pipeview.py:166-184 | Pops the front of the queue one by one until the lower threshold, printing the shown ones |
| ReorderQueue.PrintQueue.PrintInsts | gem5/util/o3-pipeview.py:162-184 | Sorts in place and pops until the lower threshold; what was printed is the shown part of what was popped |
| ReorderQueue.PrintQueue.QueueInst | gem5/util/o3-pipeview.py:154-159 | The queue and everything taken out follow the specification `Run` over all arrivals |
| ReorderQueue.PrintQueue.Flush | gem5/util/o3-pipeview.py:145-148 | After the final flush the output is the shown part of `Emitted` of all arrivals |
| ReorderQueue.DrainTimes | gem5/util/o3-pipeview.py:157-159 | Closed form of the queue length and of the arrivals that make the queue overflow, for all thresholds |
| ReorderQueue.Reassembled | gem5/util/o3-pipeview.py:154-184 | At every moment of an orderly stream, what has left plus the sorted rest is the sorted stream |
| ReorderQueue.DisorderShows | gem5/util/o3-pipeview.py:49-50 | A latecomer with more than `min` earlier instructions above it at an overflow makes the output unordered |
| ReorderQueue.ReorderExact | gem5/util/o3-pipeview.py:45-50 | The output is ordered if and only if it is the stable sort of the stream, if and only if no later arrival is below more than `min` instructions that had arrived by an overflow |
| ReorderQueue.BoundedDisplacementSorts | gem5/util/o3-pipeview.py:45-50 | The documented assumption, at most `min` places out of order, suffices for every pair of thresholds |
| ReorderQueue.BoundIsTight | gem5/util/o3-pipeview.py:45-50 | For every pair of thresholds there is a stream that is out of order by one place more and is printed out of order |
| PipeTrace.SkipToRegion | gem5/util/o3-pipeview.py:81-105 | Finds the first fetch line from the first line on that satisfies the start condition |
| PipeTrace.TakeLine | gem5/util/o3-pipeview.py:127-143 | One line updates the record in construction, and a retire line queues it |
| PipeTrace.QueueRegion | gem5/util/o3-pipeview.py:124-149 | Queues exactly the instructions that the lines up to the stop condition describe |
| PipeTrace.PrintRegion | gem5/util/o3-pipeview.py:124-149 | The region's instructions after the final flush: the shown part of `Emitted` |
| PipeTrace.ProcessTrace | gem5/util/o3-pipeview.py:68-149 | The whole run on a trace, in terms of `Queued` and `Emitted` |
| PipeTrace.CollectForgets | gem5/util/o3-pipeview.py:125-143 | The reused record never leaks a tick from before an instruction's fetch line, for whole groups of lines |
| PipeTrace.CollectedFetches | gem5/util/o3-pipeview.py:125-143 | A property of all fetch lines holds of all collected instructions |
| PipeTrace.HeadNotShown | gem5/util/o3-pipeview.py:81-105 | Nothing that is skipped at the start would have been shown |
| PipeTrace.TailNotShown | gem5/util/o3-pipeview.py:129-134 | Nothing behind the stopping line would have been shown, under the documented drift bounds |
| PipeTrace.ViewerExact | gem5/util/o3-pipeview.py:45-184 | Skipping, stopping early and the bounded queue together give the stable sort of the whole trace restricted to the window; that the drawing of these instructions succeeds is `PipeViewer.WholeViewer` |
| PipeGroups.WholeGroupsExact | gem5/util/o3-pipeview.py:125-143 | A trace is one of whole instructions if and only if every retire line has a fetch line before it, with each stage reported and no other fetch or retire in between |
| PipeGroups.ReadExact | gem5/util/o3-pipeview.py:125-143 | There is one instruction per retire line, in that order: number and text of its fetch line, each tick from the last line that reports it, the store tick exactly with store completions, and a marked text exactly for retire tick zero |
| PipeGroups.RegionRead | gem5/util/o3-pipeview.py:81-134 | The queued lines run from the first fetch at or behind the first line that starts the region up to the first fetch that ends it, with all conditions written out |
| PipeRows.DrawRow | gem5/util/o3-pipeview.py:260-279 | The row has one letter per mark, each at its column pushed right by earlier collisions, dots elsewhere, and length `width` plus the collisions |
| PipeRows.GatherEvents | gem5/util/o3-pipeview.py:251-259 | The events of a row in the order of offset and stage name |
| PipeRows.DrawnEvents | gem5/util/o3-pipeview.py:264-267 | A dispatch that coincides with the issue is left out, nothing else |
| PipeRows.PrintInst | gem5/util/o3-pipeview.py:187-290 | All rows of an instruction; fails exactly where the record misses a stage or the compact form has no event |
| PipeRows.OneRowIffCompact | gem5/util/o3-pipeview.py:233-238 | One row if and only if the last event is less than a row's time behind the fetch |
| PipeRows.EventInExactlyOneRow | gem5/util/o3-pipeview.py:246-258 | Every nonzero tick not before the fetch is selected in exactly one row |
| PipeRows.PlacesIncrease | gem5/util/o3-pipeview.py:264-277 | No mark overwrites another |
| PipeRows.MarksInFrame | gem5/util/o3-pipeview.py:251-268 | Marks come at nondecreasing columns inside the frame |
| PipeRows.EveryStageMarkedOnce | gem5/util/o3-pipeview.py:246-279 | Every drawn stage is marked exactly once over all rows, in the row its tick belongs to |
| PipeRows.StagesExact | gem5/util/o3-pipeview.py:194-220 | The stages of an instruction are all stages, store completions only where they are asked for |
| PipeTimes.RowsShowTime | gem5/util/o3-pipeview.py:223-279 | In every row: cell c stands for the cycle from the row's tick + c * cycle on, each covered stage has one mark in the cell of its tick, one row earlier in time if it wraps around, and marks come in order of tick and then of name |
| PipeTimes.RowsSuffice | gem5/util/o3-pipeview.py:226-238 | The last event is in the last row, and there is one row if and only if it is less than a row's time behind the fetch |
| PipeTimes.LatestStage | gem5/util/o3-pipeview.py:226-230 | The last event is the latest of all stages |
| PipeTimes.LetterMeans | gem5/util/o3-pipeview.py:194-220 | A letter belongs to one stage, and to its name |
| PipeViewer.CanPrintExact | gem5/util/o3-pipeview.py:223-263 | An instruction can be drawn if and only if all its stages are recorded and it has a fetch tick other than zero or any tick above zero |
| PipeViewer.ViewTrace | gem5/util/o3-pipeview.py:68-290 | The whole viewer: one drawing per instruction that leaves the queue, in order, with the right number of rows and every mark in the cell of its tick, up to the first instruction that cannot be drawn |
| PipeViewer.CollectedRecorded | gem5/util/o3-pipeview.py:125-143 | Whole groups of lines record every stage |
| PipeViewer.ViewExact | gem5/util/o3-pipeview.py:68-290 | On a trace of whole instructions the viewer gets through if and only if every printed instruction has an event |
| PipeViewer.WholeViewer | gem5/util/o3-pipeview.py:45-290 | On a trace of whole instructions with fetch ticks above zero and the documented bounds on disorder, the drawn instructions are the stable sort of the whole trace restricted to the window, which is exactly those inside all positive bounds, and all of them can be drawn |
| CptUpgrader.Upgraders.constructor | gem5/util/cpt_upgrader.py:85-89 | Starts with no scripts |
| CptUpgrader.Upgraders.Load | gem5/util/cpt_upgrader.py:90-136 | Registers a script under its tag, in one tag set, and under its legacy version if it has one; a later script with the same tag replaces it there |
| CptUpgrader.ChainLegacy | gem5/util/cpt_upgrader.py:165-169 | Each legacy version from 3 on in the unbroken chain depends on the one before and on nothing else, as far as its script is still registered; other scripts are unchanged |
| CptUpgrader.ResolveForward | gem5/util/cpt_upgrader.py:171-183 | Succeeds if and only if every named tag exists; then exactly the forward dependencies have been turned around |
| CptUpgrader.Upgraders.ResolveAll | gem5/util/cpt_upgrader.py:165-183 | Both passes over the registered scripts; fails exactly for a version 3 without a version 2 and for a script that names a tag that does not exist, former dependencies of chained versions aside |
| CptUpgrader.ChainedNames | gem5/util/cpt_upgrader.py:165-183 | After the chaining every named tag exists if and only if it did before, former dependencies of chained versions aside |
| CptUpgrader.RunRound | gem5/util/cpt_upgrader.py:250-252 | One round in any enumeration order: each ready script once, its effect and its tags, or failure exactly if a tag to be removed is missing |
| CptUpgrader.Upgraders.ProcessFile | gem5/util/cpt_upgrader.py:242-254 | Fails exactly if some round removes a missing tag, else aborts exactly if tags are left over; otherwise the log follows the rounds of `Schedule`, the checkpoint is the effect of the log, and the tags are those of the schedule |
| UpgradeOrder.LogCovers | gem5/util/cpt_upgrader.py:243-254 | Every tag that does not get stuck is applied exactly once, and no other |
| UpgradeOrder.RunIsOrdered | gem5/util/cpt_upgrader.py:242-254 | A completed run applies each upgrader once and never before a dependency |
| UpgradeOrder.ForwardRunsFirst | gem5/util/cpt_upgrader.py:171-178 | A script runs after every script that names it as a forward dependency |
| UpgradeOrder.AbortExact | gem5/util/cpt_upgrader.py:243-248 | With upgraders only, a run aborts if and only if a nonempty set of pending tags each need one of the set or one that cannot be had, and it reports the largest such set |
| UpgradeRanks.RankedCompletes | gem5/util/cpt_upgrader.py:243-254 | If the pending tags have ranks, each just behind the last of its dependencies and not behind the removal of any, the run completes and the rank of a tag is the number of its round |
| UpgradeRanks.CompletionExact | gem5/util/cpt_upgrader.py:243-254 | With upgraders and downgraders, a run completes if and only if the pending tags have such ranks |
| UpgradeRanks.RanksUnique | gem5/util/cpt_upgrader.py:243-254 | They have them in one way at most |
| UpgradeOrder.DisjointNeverFails | gem5/util/cpt_upgrader.py:144-152 | No tag to be removed is ever missing, unless one tag was loaded both as upgrader and as downgrader |
| UpgradeOrder.FinalTagsExact | gem5/util/cpt_upgrader.py:242-254 | A completed run ends with the start tags plus all upgraders' minus all downgraders' |
| UpgradeOrder.SecondRunIsIdle | gem5/util/cpt_upgrader.py:256-258 | Processing the result again finds nothing to do |
| UpgradeOrder.OrdersAgree | gem5/util/cpt_upgrader.py:243-254 | Two dependency-respecting orders of the same scripts have the same effect if independent scripts commute |
| UpgradeOrder.EnumerationOrderIrrelevant | gem5/util/cpt_upgrader.py:250-252 | With upgraders only, the migrated checkpoint does not depend on how Python enumerates each round's set if independent scripts commute |
| UpgradeOrder.RoundsAgree | gem5/util/cpt_upgrader.py:250-252 | With upgraders and downgraders, it does not if the scripts of each round commute |
| UpgradeOrder.DocumentedDowngradeRuleExact | gem5/util/cpt_upgrader.py:56-61 | The documented rule that a tag with a downgrader is removed before a dependent runs holds for every run if and only if no pending script depends on such a tag |
| UpgradeOrder.DowngradeRuleFails | gem5/util/cpt_upgrader.py:56-61 | A registry of one downgrader and one upgrader that depends on it, and a completed run that applies the upgrader while the tag is still there |
| DepTrace.PrintRecord | gem5/util/decode_inst_dep_trace.py:157-203 | The line of a record, or failure for a kind without a name |
| DepTrace.ReadRecord | gem5/util/encode_inst_dep_trace.py:148-192 | The record of a line, or failure exactly where the line is not one |
| DepTrace.FieldsAre | gem5/util/decode_inst_dep_trace.py:157-190 | Which field of a line holds what |
| DepTrace.DefaultsAre | gem5/util/decode_inst_dep_trace.py:159-168 | An absent program counter is written as 0 and an absent weight as 1 |
| DepTrace.KindsAre | gem5/util/decode_inst_dep_trace.py:141-146 | The numbers and names of the four kinds |
| DepTrace.DepsReadBack | gem5/util/encode_inst_dep_trace.py:179-192 | Printed dependency lists of any length come back |
| DepTrace.RoundTripExact | gem5/util/encode_inst_dep_trace.py:147-194 | A printed record reads back as itself with defaults spelled out if and only if it is of a named valid kind, with address, size and flags exactly for loads and stores, and without virtual address and address space |
| DepTrace.ParsedIsConvertible | gem5/util/encode_inst_dep_trace.py:148-192 | Every record read from text can be printed and read again |
| DepTrace.ReprintStable | gem5/util/decode_inst_dep_trace.py:157-203 | Reading and printing again settles after one pass |
| Framing.InFile.Read | gem5/util/protolib.py:111-113 | Up to n bytes, all that are left for a negative n |
| Framing.DecodeVarint32 | gem5/util/protolib.py:98-126 | Bit by bit as written, equal to the arithmetic reading `ReadVarint`; the file advances by the bytes used |
| Framing.FinishVarint | gem5/util/protolib.py:117-123 | The masking and sign steps compute the truncation to a signed 33-bit range |
| Framing.DecodedNumber | gem5/util/protolib.py:98-126 | At most ten bytes; a decoded value is congruent to the base-128 sum modulo 2^32 and lies in [-2^32, 2^32) |
| Framing.EncodeVarint32 | gem5/util/protolib.py:143-155 | Appends the base-128 bytes of the value |
| Framing.PrefixReadBack | gem5/util/protolib.py:98-155 | Decoding an encoded value below 2^70 gives its truncation and uses exactly its bytes, whatever follows |
| Framing.PrefixTooLong | gem5/util/protolib.py:98-155 | Decoding an encoded value from 2^70 on fails after ten bytes |
| Framing.EncodeMessage | gem5/util/protolib.py:157-163 | Appends one frame |
| Framing.DecodeMessage | gem5/util/protolib.py:128-141 | Reads one frame: its body, none left for an empty message, the end of the file or an overlong prefix, or a body that does not parse |
| Framing.FrameReadBack | gem5/util/protolib.py:128-163 | One call consumes exactly one frame |
| Framing.FramesExact | gem5/util/protolib.py:128-163 | Messages written back to back are read back as the same list if and only if each is nonempty and shorter than 2^32 bytes, except for a last one of 2^63 up to 2^70 bytes, whose length comes back negative |
| Framing.EndReportsNone | gem5/util/protolib.py:128-141 | At the end of the file there is no message |
| TraceFiles.EncodeTrace | gem5/util/encode_inst_dep_trace.py:126-200 | Magic, header and one frame per line, or failure if any line is not a record |
| TraceFiles.DecodeTrace | gem5/util/decode_inst_dep_trace.py:123-211 | The text of all records and the three counts; fails exactly for a wrong magic, a frame that does not parse or a nameless kind |
| TraceFiles.RefusedExact | gem5/util/decode_inst_dep_trace.py:123-154 | A file gives records if and only if it starts with the magic number and its header and all messages parse |
| TraceFiles.FileLinesExact | gem5/util/encode_inst_dep_trace.py:147-147 | The lines of a text are the text cut behind every newline |
| TraceFiles.TraceReadBack | gem5/util/decode_inst_dep_trace.py:153-203 | Written text of convertible records is accepted and gives the same records |
| TraceFiles.TextThroughBinary | gem5/util/encode_inst_dep_trace.py:126-200 | Any accepted text keeps all its records through the binary file and back to text, for any serialisation that reads those records back |
| TraceFiles.LinesSerialize | gem5/util/encode_inst_dep_trace.py:147-194 | There is such a serialisation: the printed lines themselves, for all records read from text whose lines are shorter than 2^32 bytes |
| TraceFiles.WrittenTextUnchanged | gem5/util/decode_inst_dep_trace.py:123-211 | Text that the decoder wrote for convertible records comes back literally, for any serialisation that reads those records back |
| SectionNames.RenameUndone | gem5/util/checkpoint_aggregator.py:65-66 | Dropping the digits behind every "cpu" undoes the renaming |
| SectionNames.RenameInjective | gem5/util/checkpoint_aggregator.py:56-66 | The new name determines the checkpoint index and the old name |
| Aggregator.RenameSections | gem5/util/checkpoint_aggregator.py:64-89 | What a checkpoint contributes to the merged configuration, or failure for an address that is not a number |
| Aggregator.CopyPages | gem5/util/checkpoint_aggregator.py:102-109 | Page by page, the declared pages as far as the store holds them |
| Aggregator.Pad | gem5/util/checkpoint_aggregator.py:118-126 | Whole pages until the requested size, none if it is reached already |
| Aggregator.MergeAll | gem5/util/checkpoint_aggregator.py:58-112 | The loop over the checkpoints: sections, page count, latest tick, images |
| Aggregator.Aggregate | gem5/util/checkpoint_aggregator.py:41-142 | The merged memory and configuration |
| MergedImage.MemoryLengthExact | gem5/util/checkpoint_aggregator.py:118-131 | The `range_size` option of the merged configuration is the length of the written memory if and only if every store holds its declared pages |
| MergedImage.ImagesApart | gem5/util/checkpoint_aggregator.py:94-109 | Each image ends before the next starts |
| MergedImage.MergedByte | gem5/util/checkpoint_aggregator.py:94-109 | Byte a of image i is at a plus the size of the images before it |
| MergedImage.MergedNamesDistinct | gem5/util/checkpoint_aggregator.py:64-136 | No section name is repeated if no input repeats one |
| MergedImage.SectionPreserved | gem5/util/checkpoint_aggregator.py:65-77 | A per-CPU section is found under its new name with all other options and its address moved |
| MergedImage.TranslationPreserved | gem5/util/checkpoint_aggregator.py:71-72 | The moved address finds, in the merged memory, the byte that the old address found in the old memory |
| MergedImage.LatestTick | gem5/util/checkpoint_aggregator.py:81-84 | The merged tick is the latest of all inputs |
| MergedOptions.LastKept | gem5/util/checkpoint_aggregator.py:85-89 | Every section of the last checkpoint without "cpu", the two special ones aside, is found with all its options, but for `range_size` of the store |
| MergedOptions.NothingElse | gem5/util/checkpoint_aggregator.py:64-89 | Every other section of the result is a renamed per-CPU section or one of the last checkpoint |
| MergedOptions.ProcessNumber | gem5/util/checkpoint_aggregator.py:76-77 | `M5_pid` becomes the checkpoint's index if the name ends in "workload", any character and "FdMap256", and stays as it was otherwise |
| MergedOptions.SystemStates | gem5/util/checkpoint_aggregator.py:114-116 | "system" states the total number of pages and the number of checkpoints, and nothing else |
| MergedOptions.GlobalsState | gem5/util/checkpoint_aggregator.py:81-84 | "Globals" states a tick that no checkpoint is past and that some checkpoint is at, unless it is zero |
| MergedOptions.MergeExact | gem5/util/checkpoint_aggregator.py:70-131 | Merging fails exactly for an address that is no number, or if the last checkpoint has no section for the memory |
| CheckpointDriver.Simulator.Simulate | gem5/configs/common/Simulation.py:232-232 | Runs to the first guest event or exactly to the limit |
| CheckpointDriver.RunSkipping | gem5/configs/common/Simulation.py:232-236 | Resumes after guest checkpoints until the target or another exit |
| CheckpointDriver.TakeSeries | gem5/configs/common/Simulation.py:245-259 | The loop over the periods follows `Series` |
| CheckpointDriver.ScriptCheckpoints | gem5/configs/common/Simulation.py:226-261 | The checkpoints taken, the final state and the refusal follow `Script`, about which the rows of `CheckpointCalls` speak |
| CheckpointSeries.DriveSafe | gem5/configs/common/Simulation.py:226-261 | The k-th checkpoint is at when + k * period, at most max(1, max_checkpoints) are taken, time never passes maxtick |
| CheckpointSeries.FullSeriesExact | gem5/configs/common/Simulation.py:226-261 | All planned checkpoints are taken if and only if no exit comes too early and no guest checkpoint falls into a period that is followed by another; never more are taken |
| CheckpointSeries.SeriesLengthExact | gem5/configs/common/Simulation.py:226-261 | For every n up to the planned number: at least n checkpoints are taken if and only if the guest leaves the first n ticks undisturbed in that sense |
| CheckpointSeries.GuestCheckpointEndsSeries | gem5/configs/common/Simulation.py:252-259 | A concrete trace with one guest checkpoint that loses three of five checkpoints |
| CheckpointCalls.CallTicks | gem5/configs/common/Simulation.py:226-261 | For any arguments: checkpoint k is at first + k * period, none but the first is behind maxtick, at most max(1, max_checkpoints) are taken |
| CheckpointCalls.CallCount | gem5/configs/common/Simulation.py:226-261 | At least n checkpoints are taken if and only if n are asked for, no exit comes before the last of them, and no event between the first and the last but one |
| CheckpointCalls.CallRefused | gem5/configs/common/Simulation.py:232-252 | A negative number of ticks is asked for if and only if the first tick has passed, or the first checkpoint is taken with more to come and a negative period or a maxtick before it |
| CheckpointCalls.CallEnds | gem5/configs/common/Simulation.py:226-261 | Where the simulator stands afterwards: at the exit, at the last checkpoint, or run on to the next event or to maxtick, each case with its condition and the events left |
| CheckpointSeries.FindCptDir | gem5/configs/common/Simulation.py:183-201 | The chosen directory and start tick, or not found |
| CheckpointSeries.CptNumberExact | gem5/configs/common/Simulation.py:184-190 | A name matches if and only if a digit follows "cpt.", and its number is all digits up to the first other character |
| CheckpointSeries.OwnNameMatches | gem5/configs/common/Simulation.py:184-190 | A directory named by this script is recognised |
| CheckpointCalls.RestoreSelects | gem5/configs/common/Simulation.py:183-201 | After a call into a directory without checkpoints, whatever else it holds and however it is listed, checkpoint N starts at first + (N-1) * period, zero and negative N count back from the last, any other N is not found |
| PortOrder.SortedInOrder | gem5/configs/example/read_config.py:151-153 | Sorted by object, port and index of both ends, and the same connections |
| PortOrder.SortedByFields | gem5/configs/example/read_config.py:151-153 | In the sorted list object names, then port names, then elements never fall back, for sources and then for targets |
| PortOrder.InOrderUnique | gem5/configs/example/read_config.py:324-324 | No other list of the same connections is so sorted |
| PortBinder.BindPorts | gem5/configs/example/read_config.py:293-347 | Sorts and makes the greedy pass: the pairs to bind, failure unless half of the directions were bound, or a failed lookup exactly where the pass compares a port that is no connection's origin |
| PortBinder.SortedWellFormed | gem5/configs/example/read_config.py:293-303 | If both directions of every pair are listed, sorting keeps that and no lookup fails |
| PortBinder.AttachedInOrder | gem5/configs/example/read_config.py:306-334 | Every port's elements are attached as 0, 1, 2 and so on |
| PortBinder.BindingSound | gem5/configs/example/read_config.py:324-334 | No pair is bound twice or both ways, and nothing else is bound |
| PortBinder.HalfCheckExact | gem5/configs/example/read_config.py:336-339 | The half-length check passes if and only if every pair was bound exactly once |
| PortBinder.OutcomeExact | gem5/configs/example/read_config.py:306-339 | A lookup fails exactly if some connection whose source is next in line has a target that is no source; otherwise the half-length check decides |
| BindingOrder.GreedyExact | gem5/configs/example/read_config.py:314-339 | The pass binds everything if and only if some choice of directions is in order at every port, for every order of the list |
| BindingOrder.BinderExact | gem5/configs/example/read_config.py:293-339 | On a list with both directions of every pair, in any order, the program succeeds if and only if the sorted list has such a choice |
| BindingOrder.SortingIsNotEnough | gem5/configs/example/read_config.py:314-316 | A list in sorted order with both directions of every pair that the program rejects although the pass over another order of the same list binds everything |
| TesterTree.Numtesters | gem5/configs/example/memtest.py:105-116 | The level-by-level product sum equals the recursive count |
| TesterBuilder.Check | gem5/configs/example/memtest.py:141-166 | Accepts exactly the valid specifications |
| TesterBuilder.Prototypes | gem5/configs/example/memtest.py:183-203 | One prototype per level, each the L1 prototype scaled in closed form |
| TesterBuilder.TesterSystem.OwnCaches | gem5/configs/example/memtest.py:269-271 | Each tester behind its own cache, in terms of `Own` |
| TesterBuilder.TesterSystem.MakeTop | gem5/configs/example/memtest.py:277-286 | Top subsystems, with a crossbar for several testers and without one for a single tester |
| TesterBuilder.TesterSystem.FanOut | gem5/configs/example/memtest.py:266-268 | One subtree behind each tree cache |
| TesterBuilder.TesterSystem.MakeLevel | gem5/configs/example/memtest.py:225-286 | The recursive builder computes `Tree`; refused exactly where a top subsystem has no cache above it |
| TesterLaws.TreeSize | gem5/configs/example/memtest.py:237-268 | Exactly the recursive counts of testers and caches are created |
| TesterLaws.TreeNumbers | gem5/configs/example/memtest.py:221-229 | The index of each level advances by the number of subsystems there |
| TesterLaws.TreeNames | gem5/configs/example/memtest.py:228-234 | Every subsystem has a name of its own, and the names are exactly those below the counters |
| TesterLaws.TreeFits | gem5/configs/example/memtest.py:256-268 | The cache in front of each subsystem is built from the prototype of its level |
| TesterCaches.TreeL1 | gem5/configs/example/memtest.py:263-286 | Every tester whose port leads to a cache leads to an L1 cache |
| TesterShape.TreeShaped | gem5/configs/example/memtest.py:225-286 | Each subsystem with a crossbar has exactly the caches of its level on it, tree caches and one per tester, and a top subsystem exactly its testers |
| TesterPorts.TreeTesters | gem5/configs/example/memtest.py:269-286 | Exactly the new testers' ports get connected |
| TesterPorts.TreeMem | gem5/configs/example/memtest.py:266-271 | Exactly the new caches' memory sides get connected |
| TesterPorts.TreeCpu | gem5/configs/example/memtest.py:256-286 | Exactly the new caches' CPU sides, and the parent's, get connected; that none is connected twice is `TesterSides.TreeOneUser` |
| TesterSides.FanFree | gem5/configs/example/memtest.py:266-268 | The CPU side of each tree cache is free when the subtree behind it is built |
| TesterSides.OwnFree | gem5/configs/example/memtest.py:269-271 | The CPU side of each tester's own cache is free when the tester is connected |
| TesterSides.TreeOneUser | gem5/configs/example/memtest.py:256-286 | No two crossbars, no two testers, and no crossbar and tester ever lead to the same CPU side |
| TesterPaths.TreeKeepsTesters | gem5/configs/example/memtest.py:269-286 | No tester's connection is ever replaced |
| TesterPaths.TreeKeepsMem | gem5/configs/example/memtest.py:266-271 | No memory side's connection is ever replaced |
| TesterPaths.TreeKeepsMaster | gem5/configs/example/memtest.py:256-281 | No crossbar's connection is ever replaced |
| TesterPaths.TreeReached | gem5/configs/example/memtest.py:225-286 | Every tester reaches the root crossbar, climbing one level per cache |
| TesterBuilder.MakeTree | gem5/configs/example/memtest.py:134-289 | A tree is built exactly for valid specifications; it has the counted testers and caches, all connected and no CPU side twice, uniquely named, every subsystem with what its level is to have, every cache of the right prototype, and every tester reaches memory |
| GpuWiring.GroupsIsCeil | gem5/configs/example/apu_se.py:233-236 | The number of shared caches is the quotient rounded up |
| GpuWiring.CreateSequencers | gem5/configs/ruby/GPU_VIPER.py:503-728 | The list of sequencers in closed form, entry by entry |
| GpuWiring.ConnectTokens | gem5/configs/example/apu_se.py:602-610 | The token ports take the coalescers in order |
| GpuWiring.ConnectShared | gem5/configs/example/apu_se.py:621-635 | The advancing index gives unit i the sequencer of group i div per, and ends on the last group |
| GpuWiring.Connect | gem5/configs/example/apu_se.py:590-647 | Unit i gets coalescer i for memory and tokens, its SQC and its scalar cache, each CP its pair, and the index ends at the end of the list |
| GpuTlbs.SharedApart | gem5/configs/common/GPUTLBConfig.py:170-175 | Units on the same coalescer are as far apart on its ports as in the list |
| GpuTlbs.ConnectL1 | gem5/configs/common/GPUTLBConfig.py:160-175 | No two links clash and every coalescer exists; fails exactly without TLBs |
| GpuTlbs.ConnectGrouped | gem5/configs/common/GPUTLBConfig.py:176-189 | Instruction and scalar TLBs: no clash, the coalescer is the unit's group, and the port its place in the group |
| GpuTlbs.ConfigMeans | gem5/configs/common/GPUTLBConfig.py:76-87 | What each configuration means for the links: sixty-four coalescers per unit, one per unit, one for all, or one per two units |
| GpuTlbs.ConfigTlbs | gem5/configs/common/GPUTLBConfig.py:73-189 | Fails exactly for an unknown configuration and for one unit with a TLB per two units; otherwise no clashes, and translation agrees with the sequencers of the data path |
| YearRanges.DateStr | gem5/util/find_copyrights.py:175-199 | Prints the maximal runs of the sorted years |
| YearRanges.RunsUnique | gem5/util/find_copyrights.py:175-199 | A set of years has only one list of maximal runs |
| YearText.ProcessDates | gem5/util/find_copyrights.py:98-116 | The union of what each item stands for |
| YearText.MatchShape | gem5/util/find_copyrights.py:98-98 | What matches is four digits, a dash with any space around it and four digits, and stands for these two numbers |
| YearText.MatchOf | gem5/util/find_copyrights.py:98-98 | Everything of that form matches |
| YearText.PieceExact | gem5/util/find_copyrights.py:98-116 | An item never yields a year outside its run, and loses the last one exactly if the run leaves the four-digit years |
| YearText.ReadBackExact | gem5/util/find_copyrights.py:98-199 | Printed years read back as the same set if and only if all consecutive years have four digits |
| YearText.PrintYears | gem5/util/find_copyrights.py:175-199 | From a set of years to text that reads back as exactly that set if and only if all consecutive years have four digits |
| RangeSweep.IsPow2Exact | gem5/configs/dram/lat_mem_rd.py:137-138 | The bit test holds exactly for powers of two, for all whole numbers |
| RangeSweep.Sweep | gem5/configs/dram/lat_mem_rd.py:140-153 | Terminates with exactly the points m * 2^k, m from 4 to 7, up to the first that reaches the maximum |
| RangeSweep.PowersMeasured | gem5/configs/dram/lat_mem_rd.py:143-153 | Every power of two from 4096 up to the maximum is measured |
| RangeSweep.SweepUnique | gem5/configs/dram/lat_mem_rd.py:143-153 | The list is determined by the maximum |
| RollingLog.Fill | gem5/util/logroll.py:70-76 | While filling, a dump after any line prints all lines read so far |
| RollingLog.Roll | gem5/util/logroll.py:62-81 | A dump after any number of lines prints the last `target` of them in order, or all of them if `target` is below one |

Where code and documentation disagree, the model follows the code. The header of the checkpoint upgrader says
that a downgraded tag is gone before its dependents run, which the code does not ensure
(`UpgradeOrder.DowngradeRuleFails`, `UpgradeOrder.DocumentedDowngradeRuleExact`). The comment in the port binder says that sorting makes exactly one
direction of every pair bindable, which is not always so (`BindingOrder.SortingIsNotEnough`). The comment in the
pipeline viewer says that the queue is emptied when its length reaches the upper threshold; the code waits until
it exceeds it (`ReorderQueue.DrainTimes`).

## Left out

- Protobuf serialisation: an arbitrary pair of functions, of which the second may refuse a body. The round trips assume that it reads back the records that were written; range checks of integer fields are not modelled.
- Python's underscores in numbers, white space other than blank, tab and line ends, and Unicode digits.
- The magic number and the padding pages are written as bytes, as they are meant to be, and numbers put into a configuration as their decimal text.
- Terminal colours, headers and right-hand labels of the pipeline viewer.
- gzip, file handles, directory creation and the text syntax of configuration files. A checkpoint is its list of sections, its number of pages, its tick and its memory.
- Checkpoints whose `pagePtr` or `curTick` is missing or is not a number.
- Reading and writing of the tags in a checkpoint file, and script files that fail while they are loaded.
- Simulation events other than guest checkpoints and exits. Guest events are a finite list in the order in which they are served, and each says whether it comes before a limit at the same tick.
- The simulator's limit on ticks, other than that it refuses a negative number of them.
- Checkpoints by instruction count, SimPoint and benchmark checkpoints, and CPU switching in Simulation.py.
- PortBinder.BindPorts: sorts by the order that `__cmp__` defines for the ends of a connection, which Python 3 no longer consults; turning port text into ports is not modelled.
- UpgradeOrder.AbortExact: is about upgraders only; `UpgradeRanks.CompletionExact` covers downgraders as well.
- UpgradeOrder.EnumerationOrderIrrelevant: is about upgraders only; `UpgradeOrder.RoundsAgree` covers downgraders as well.
- The list sort of Python is taken as the stable sort of `StableSorting`.
- Parameters of testers and memories that do not affect the shape of the tester tree, the last-level cache and the memory behind the root, and the random choice of a specification.
- GpuTlbs.ConnectL1: divides exactly and rounds down, where the script formats floating-point quotients as whole numbers.
- TLB sizes, and the links from the first to the second and third TLB level, which are one counter.
- The lanes of a compute unit's memory port, which all take the same sequencer.
- Controllers, networks and message buffers of the GPU protocol; only the order of its sequencers matters here.
- `find_copyright_block` and the other parts of find_copyrights.py, and date text with letters in it.
- A dump that interrupts the rolling log between storing a line and moving its index.
- Packet traces, whose encoder is a smaller copy of the one for dependency records.
- Boards, processors, memories, option parsers and the other constructors of the repository, which only add easy members.
