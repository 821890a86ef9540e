# HUATUO in Dafny

HUATUO (`huatuo-bamai`) is an eBPF observability agent.  This project models the
parts of it that are algorithms or state machines in their own right and proves
what they promise, for every input, every interleaving or every run:

| files | part of the agent |
|---|---|
| `FlameGraph`, `FlameNesting`, `FlameFrame`, `FlameSamples`, `FlameTree`, `FlameData`, `FlameLimits` | flame graphs: decoding flamebearer levels into a tree, flattening the tree into a nested-set frame, the samples kept on the way, interning and decoding labels |
| `RunqLat`, `RunqLatHistory` | the run-queue latency tracer |
| `RateLimit` | the BPF rate limiter and its notifying wrapper |
| `Supervisor` | one tracer's worker goroutine under the tracing manager |
| `LoadAvg`, `LoadRuns` | the fixed-point load averages of the dload tracer |
| `StallDetector` | the interrupts-off detector on timer ticks |
| `KernelSymbols` | the kernel symbol index |
| `SlicePath` | the systemd form of a pod's cgroup path |
| `ContainerSync` | reconciliation of the container table with the kubelet |
| `LinkEvents` | link-flag accounting |
| `Machine`, `Options` | 64-bit integers; optional values |

Code that updates things in place is imperative here too: tree nodes are heap
objects that gain children by append, BPF maps and Go structs are fields of
classes, the symbol table is an array sorted in place.  Each such method is tied
to a specification function by its `ensures`, and the results below are about
those functions over whole runs.  The worker and its manager race on shared
fields, so they are a step system in which every read and write of a shared field
is a step of its own.

Verify with `dafny verify dfyconfig.toml`.

## What turned out to be different from what one would expect

* The root of a decoded flame graph is named by the number in its *start* slot
  (`internal/flamegraph/flamegraph.go:70`), not by its name index.  Decoding
  inverts encoding exactly for canonical trees whose root starts at 0 and carries
  the first name (`DecodeInvertsEncode`, `RootRenamed`).  Zero-width bars can move to an earlier
  sibling (`ZeroWidthMoves`), and a bar wider than everything above it is dropped
  (`UncoveredBarDropped`, `EncodeInvertsDecode`).
* Balanced levels do not always keep their samples: a level is read only up to the
  first bar that no bar above holds, and what lies behind it is lost
  (`ScanTakesCovered`, `SampleDropped`).  The self column sums to the root's value
  exactly when nothing behind such a bar is both inside a bar above and non-empty
  (`SamplesConserved`).
* The frame has no start column.  Its rows determine a tree exactly up to
  positions (`RowsDetermineShape`, `RowsLoseStarts`).
* Enum indices are 16 bits wide (the width of `EnumItemIndex` in the Grafana data
  package, which is not part of this model).  Labels decode to themselves exactly
  while at most 65536 are distinct (`EnumField.Decode`), and levels with any number of
  distinct names exist (`LabelsReach`, `LabelsOverflow`).
* D-state load never exceeds total load, over every run, exactly while no sample has
  more than 2^42 tasks; one more and the weighted sum wraps at 64 bits
  (`NeverExceedsExactly`).
* The rate limiter's comment promises one notification per cycle.  A run of up to n
  calls keeps that promise exactly when the limiter has a burst and either no
  maximum burst or one those n calls cannot exceed (`OncePerWindowExactly`); over
  runs of every length only a limiter with a burst and no maximum burst keeps it
  (`OncePerWindowForever`).  A maximum burst below the burst underflows to almost
  2^64 quiet misses, so no real run exceeds it.  The exact number of notifications
  is `Made` (`NotifiedPerWindow`).
* `Stop` calls a nil function exactly when no round was ever begun
  (`StopCrashes`, `EarlyStopCrashes`), and its cancel misses the worker exactly
  when the worker stands between its exit check and the setting of its next cancel
  function (`StopReachesWorker`), which a schedule from the start reaches
  (`LateStopMisses`).
* Binary search returns the symbol that scanning returns, except that among
  different symbols at exactly the address asked for it may return another one
  (`FindAgreesWithScan`, `ScanDiffers`).  The sort is not stable, so the loaded
  symbols alone determine an answer exactly when no two different ones share the
  greatest address not above the one asked for (`DeterminedExactly`).
* Slice paths identify pods exactly up to `-` and `_` in the UID
  (`PodPathsDiffer`, `UnderscoreCollides`).

## Model

| member | source | states |
|---|---|---|
| FlameGraph.ScanRecovers | internal/flamegraph/flamegraph.go:94-133 | the greedy pass over a written level gives back exactly the groups of children it was written from, whenever each bar lies in its own parent and no parent could have claimed the next parent's first bar |
| FlameGraph.ScanIsCanonical | internal/flamegraph/flamegraph.go:94-133 | on any input the groups the pass produces have that property, so it is also necessary |
| FlameGraph.BuildRecovers | internal/flamegraph/flamegraph.go:73-136 | a forest with that property at every level grows back from its own levels |
| FlameGraph.BuildImpliesCanonical | internal/flamegraph/flamegraph.go:73-136 | only such a forest grows back from its own levels |
| FlameGraph.DecodeInvertsEncode | internal/flamegraph/flamegraph.go:60-139 | for every tree and every sufficient number of levels: decoding its encoding gives the same tree (starts, values, selfs, depths, names, shape) if and only if the root starts at 0 under the first name and the tree is canonical |
| FlameNesting.WellNestedRoundTrip | internal/flamegraph/flamegraph.go:60-139 | every tree of positive-width bars with children disjoint, left to right and inside their parent, rooted at 0 under the first name, is decoded from its levels unchanged |
| FlameNesting.RootRenamed | internal/flamegraph/flamegraph.go:65-71 | a tree whose root is under the second name and comes back under the first |
| FlameNesting.ZeroWidthMoves | internal/flamegraph/flamegraph.go:106-131 | a tree with a zero-width bar that comes back with that bar under another parent |
| FlameNesting.ScanTakesPrefix | internal/flamegraph/flamegraph.go:94-133 | on any input the bars attached at a level are a prefix of the level, each once and in order |
| FlameNesting.DecodeInside | internal/flamegraph/flamegraph.go:104-118 | on any input every bar of the decoded tree lies inside its parent |
| FlameNesting.DecodeWellFormed | internal/flamegraph/flamegraph.go:60-139 | levels of four numbers per bar with names in range are decoded without any index leaving its range, whatever the numbers |
| FlameNesting.ScanTakesCovered | internal/flamegraph/flamegraph.go:94-133 | when gaps and widths are non-negative, the pass attaches exactly the bars before the first that lies inside no bar of the level above, zero widths included |
| FlameNesting.ScanKeepsAll | internal/flamegraph/flamegraph.go:94-133 | so when every bar lies inside some bar of the level above, it attaches every bar once and in order |
| FlameNesting.EncodeInvertsDecode | internal/flamegraph/flamegraph.go:60-139 | for all levels with non-negative gaps and widths: encoding the decoded tree reproduces every level, trailing empty ones included, if and only if every bar lies inside some bar of the level above and the first level is one bar at 0 under the first name |
| FlameNesting.UncoveredBarDropped | internal/flamegraph/flamegraph.go:106-131 | two levels whose second bar is wider than the root and is left out of the tree |
| FlameFrame.RebuildInverts | internal/flamegraph/flamegraph.go:158-235 | reading the rows of any forest back by their levels gives its shape and leaves the rows that follow it |
| FlameFrame.RowsDetermineShape | internal/flamegraph/flamegraph.go:158-235 | the rows of two trees are equal if and only if the trees agree bar by bar in everything but the starts: level, value, self, name and shape; a reconstruction function recovers the shape |
| FlameFrame.RowsLoseStarts | internal/flamegraph/flamegraph.go:146-165 | two inputs that differ in a gap decode to different trees with the same rows |
| FlameFrame.FrameDeterminesShape | internal/flamegraph/flamegraph.go:60-235 | every decoded tree records its depths, so its shape is recovered from its rows; the first row holds the root's value and self as the first level gives them |
| FlameSamples.LostExactly | internal/flamegraph/flamegraph.go:94-135 | what the construction loses is never negative, and zero if and only if, at each level, every bar behind the first one outside all reached parents is itself outside them or empty |
| FlameSamples.CoveredLosesNothing | internal/flamegraph/flamegraph.go:94-135 | in particular when every bar lies inside some bar of the level above |
| FlameSamples.SamplesConserved | internal/flamegraph/flamegraph.go:60-235 | for all levels with non-negative gaps and widths in which each bar's value is its self plus the values of the next-level bars inside it: the self column sums to the root's value less what is lost, so to the root's value if and only if nothing is lost |
| FlameSamples.SelfColumn | internal/flamegraph/flamegraph.go:219-235 | the self column over the rows of any balanced subtree or forest sums to the values of its roots |
| FlameSamples.DecodeConserves | internal/flamegraph/flamegraph.go:94-135 | for the same levels, the decoded tree balances at every node if and only if nothing is lost |
| FlameSamples.ValueColumn | internal/flamegraph/flamegraph.go:141-168 | the nested-set law: for the same levels, every row's value is the self column summed over it and the deeper rows that follow it if and only if nothing is lost |
| FlameSamples.SampleDropped | internal/flamegraph/flamegraph.go:124-131 | three balanced levels of three samples of which the self column keeps two |
| FlameTree.FillLevel | internal/flamegraph/flamegraph.go:87-134 | the in-place pass: appending children to the parents leaves each parent with exactly the group the specified pass gives it, and the appended nodes in order are the next level's parents |
| FlameTree.LevelsToTree | internal/flamegraph/flamegraph.go:60-139 | the heap tree built is the tree the specification decodes, nil for no levels |
| FlameData.EnumField.Append | internal/flamegraph/flamegraph.go:191-199 | the appended label is recorded under its index, a new one under the next index wrapped to 16 bits |
| FlameData.EnumField.Text | internal/flamegraph/flamegraph.go:202-206 | the table lists at every index in use some label interned there, in whatever order the map is iterated |
| FlameData.EnumField.Decode | cmd/perf/parsedata.go:204-214 | decoding gives back all appended labels if and only if at most 65536 are distinct |
| FlameData.DecodeExact | cmd/perf/parsedata.go:204-214 | the same of any table, field and decoded list |
| FlameData.NestedSetFrame.AppendNode | internal/flamegraph/flamegraph.go:159-164 | one row is added, its label interned |
| FlameData.NestedSetFrame.WalkTree | internal/flamegraph/flamegraph.go:219-235 | the explicit stack adds exactly the rows of the recursive preorder |
| FlameData.NestedSetFrame.ToFlameData | cmd/perf/parsedata.go:180-230 | the assembled flame data are the rows if and only if the labels fit their index type |
| FlameData.Flame | cmd/perf/parsedata.go:176-230 | levels to flame data: the result is the preorder rows of the decoded tree if and only if it has at most 65536 distinct names |
| FlameLimits.LabelsReach | cmd/perf/parsedata.go:176-230 | for every n there are levels that decode to a tree with n + 1 distinct names |
| FlameLimits.LabelsOverflow | cmd/perf/parsedata.go:204-214 | so some have more than the index type can tell apart |
| RunqLat.RunqTracer.TraceEnqueue | bpf/runqlat_tracing.c:80-92 | the new state is the specified step of a wakeup |
| RunqLat.RunqTracer.Charge | bpf/runqlat_tracing.c:196-219 | the entry is found or inserted and both blocks gain one, or nothing changes |
| RunqLat.RunqTracer.SchedSwitch | bpf/runqlat_tracing.c:136-280 | the new state is the specified step of a context switch, on every early return too |
| RunqLat.RunqTracer.ProcessExit | bpf/runqlat_tracing.c:283-305 | the new state is the specified step of a process exit |
| RunqLat.RunqTracer.FreeFairSchedGroup | bpf/runqlat_tracing.c:310-320 | the new state is the specified step of freeing a group |
| RunqLatHistory.GroupsAreHistory | bpf/runqlat_tracing.c:195-277 | a group has a block if and only if, by the events alone, something has been counted for it since it was last freed |
| RunqLatHistory.PendingIsHistory | bpf/runqlat_tracing.c:80-173 | after any events, a pid has a pending timestamp if and only if some earlier stored wakeup of it, or switch that took it off the CPU still runnable, started a wait that nothing since restarted or ended, and the timestamp is when it started |
| RunqLatHistory.IdleNeverPending | bpf/runqlat_tracing.c:85-86 | pid 0 never has a pending timestamp |
| RunqLatHistory.SampleIsHistory | bpf/runqlat_tracing.c:225-277 | a switch counts a delay in a latency counter if and only if, by the history, the incoming task was found with a group and the time since its last unconsumed enqueue or preemption lies in the range documented for that counter |
| RunqLatHistory.CountersRefineHistory | bpf/runqlat_tracing.c:159-280 | every global counter is the number of events that count towards it, and every group's counter that number since the group was last freed; what counts is said by the events alone, never by the maps |
| RunqLatHistory.CountersConserved | bpf/runqlat_tracing.c:195-320 | each global counter is the sum over live groups plus what groups held when they were freed, failed inserts included |
| RunqLatHistory.TimestampsConserved | bpf/runqlat_tracing.c:80-305 | timestamps written are those sampled, overwritten, removed at exit, consumed without a counted group, or still pending, and the sampled ones are the sum of the global block's four latency counters |
| RateLimit.BpfRatelimit.Ratelimited | bpf/include/bpf_ratelimit.h:28-54 | the result and the whole new record are those of the specified call |
| RateLimit.BpfRatelimit.RatelimitedInMap | bpf/include/bpf_ratelimit.h:82-111 | the same with configuration on first use, and the notification as specified |
| RateLimit.RateBound | bpf/include/bpf_ratelimit.h:28-54 | calls let through by a fresh limiter are at most burst times one plus the whole periods of interval + 1 seconds between first and last |
| RateLimit.AnySubRunBound | bpf/include/bpf_ratelimit.h:28-54 | in any contiguous part of a run they are at most burst times two plus the whole periods it spans |
| RateLimit.DecidedByTimes | bpf/include/bpf_ratelimit.h:28-54 | a call is let through if and only if fewer than a burst of the calls of its window come before it, windows being told by the times alone: a call more than the interval after the one that opened the last window opens its own |
| RateLimit.WindowShare | bpf/include/bpf_ratelimit.h:39-53 | every window lets through exactly the smaller of the burst and its calls |
| RateLimit.PassedByTimes | bpf/include/bpf_ratelimit.h:28-54 | so the number let through over a run is decided by its times |
| RateLimit.SparseCallsPass | bpf/include/bpf_ratelimit.h:39-48 | calls more than the interval apart all pass |
| RateLimit.UnsetNeverLimits | bpf/include/bpf_ratelimit.h:31-32 | without an interval no call is limited or recorded |
| RateLimit.InMapIsConfigured | bpf/include/bpf_ratelimit.h:93-103 | from a zeroed record the wrapper decides every call by the configured interval and burst |
| RateLimit.NotifiesByTimes | bpf/include/bpf_ratelimit.h:100-110 | with a burst, a call notifies if and only if it is the first miss of its window or a miss beyond the maximum burst |
| RateLimit.FreshTotals | bpf/include/bpf_ratelimit.h:39-53 | total events and total misses add up to the calls, total events are those let through, total interval is the current begin less the first |
| RateLimit.NotifiedPerWindow | bpf/include/bpf_ratelimit.h:100-110 | for every burst and maximum burst, each window of any run notifies exactly as often as its misses call for; with a burst and no maximum burst, once if it has any and never otherwise |
| RateLimit.SilentWindow | bpf/include/bpf_ratelimit.h:100-110 | without a burst, for every interval and maximum burst, a window that misses its only call and notifies nobody |
| RateLimit.SecondNotice | bpf/include/bpf_ratelimit.h:105-109 | with a burst and a maximum burst, a run whose one window notifies twice |
| RateLimit.OncePerWindowExactly | bpf/include/bpf_ratelimit.h:100-110 | for every burst and maximum burst: one notification per missed window in every run of at most n calls if and only if there is a burst and either no maximum burst or n is at most the burst plus the misses it keeps quiet |
| RateLimit.OncePerWindowForever | bpf/include/bpf_ratelimit.h:100-110 | in every run of any length if and only if there is a burst and no maximum burst |
| Supervisor.StepKeeps | pkg/tracing/tracing.go:54-101 | every step of worker or manager keeps the invariant |
| Supervisor.AlwaysOneWorker | pkg/tracing/manager.go:56-100 | under every interleaving: at most one live worker; running if and only if a worker is live or a start that raised the flag is about to spawn one; the exit flag is clear when it does; the hit count is the rounds finished, save inside the increment |
| Supervisor.StartBegins | pkg/tracing/tracing.go:54-60 | a worker that a start launches, the first or a later one, goes on to a round at its first check in every schedule in which no stop has set the exit flag before |
| Supervisor.CallsRefused | pkg/tracing/manager.go:56-100 | a start is refused if and only if a worker is live, a stop if and only if none is, and a refused call changes nothing |
| Supervisor.RefusedLeaves | pkg/tracing/tracing.go:62-73 | a worker that is about to set exit for an unsupported tracer begins no other round in any schedule and is gone after five of its own steps |
| Supervisor.UnsupportedLeaves | pkg/tracing/tracing.go:84-93 | that is where a round of an unsupported tracer leads |
| Supervisor.ContextsReleased | pkg/tracing/tracing.go:80-82 | under every interleaving every context made has been cancelled, save that of a round under way |
| Supervisor.ExitSticks | pkg/tracing/tracing.go:55-56 | once exit is set under a live worker it stays set until that worker is gone |
| Supervisor.StopHolds | pkg/tracing/tracing.go:58-73 | after exit is set, in every schedule, the worker begins no round unless it had already passed its check, and is gone after at most seven more of its own steps |
| Supervisor.StopReachesWorker | pkg/tracing/tracing.go:79-101 | after Stop every context the worker serves is cancelled, in every schedule, if and only if the worker was not between its exit check and setting its cancel function |
| Supervisor.StopCrashes | pkg/tracing/tracing.go:98-101 | Stop calls a nil cancel function if and only if no round has ever been begun |
| Supervisor.EarlyStopCrashes | pkg/tracing/tracing.go:98-101 | a schedule in which it does |
| Supervisor.LateStopMisses | pkg/tracing/tracing.go:59-101 | a schedule from the start in which Stop cancels the context of the round before and the worker goes on to serve an uncancelled one |
| LoadAvg.NoOverflow | core/autotracing/dload.go:207-214 | the 64-bit step is the integer step if and only if the weighted sum with its rounding is below 2^64 |
| LoadAvg.FitsBelow | core/autotracing/dload.go:207-214 | it is for all loads of at most 2^42 - 1 tasks, and not for 2^42 |
| LoadAvg.SmoothBetween | core/autotracing/dload.go:207-214 | a step stays between the old load and the input |
| LoadAvg.SmoothMonotone | core/autotracing/dload.go:207-214 | a step is monotone in both |
| LoadAvg.SmoothMoves | core/autotracing/dload.go:199-214 | a step moves strictly towards the input if and only if it is more than 6 (one minute) or 30 (five minutes) away, and otherwise not at all |
| LoadAvg.SettlesInBand | core/autotracing/dload.go:207-214 | under a constant input, after as many steps as the distance is wide, the load is in the band and no longer changes |
| LoadAvg.Geometric | core/autotracing/dload.go:207-214 | after n steps the distance beyond the band has shrunk to at most the n-th power of exp / 2048 of what it was |
| LoadAvg.SettlesFast | core/autotracing/dload.go:199-214 | when that distance, in units of 1 / (2048 - exp), is below 2^k, the load is in the band after 9 k samples (one minute) or 42 k (five minutes) |
| LoadAvg.ConstantLoadSettles | core/autotracing/dload.go:216-227 | up to 2^42 - 1 tasks, the stored pair of averages settles within 6/2048 and 30/2048 of a constant number of tasks |
| LoadAvg.DisplayIsFloor | core/autotracing/dload.go:229-252 | the displayed value is the load in hundredths, rounded down after adding 10/2048 |
| LoadAvg.DisplayClose | core/autotracing/dload.go:229-252 | it differs from the exact average by less than 0.0052 |
| LoadAvg.AvenrunClose | core/autotracing/dload.go:229-252 | of the pair shown the first is so close to the one-minute average and the second to the five-minute one |
| LoadRuns.ContainerDload.UpdateLoad | core/autotracing/dload.go:254-259 | the new averages are the specified next ones, and the displayed values are theirs |
| LoadRuns.ConstantSamplesSettle | core/autotracing/dload.go:254-259 | under the same sample long enough, the total load settles at running plus uninterruptible tasks and the D-state load at the uninterruptible ones |
| LoadRuns.UninterruptibleNeverExceeds | core/autotracing/dload.go:254-259 | over every run from zero with samples of at most 2^42 tasks, D-state load never exceeds total load, stored or displayed, and neither exceeds the most tasks sampled |
| LoadRuns.NeverExceedsExactly | core/autotracing/dload.go:207-259 | D-state load exceeds total load in no run with samples of at most max tasks if and only if max is at most 2^42 |
| StallDetector.TimerSoftirqRunTs.ProbeAccountProcessTick | bpf/softirq_tracing.c:61-120 | the new record and the report are those of the specified tick |
| StallDetector.TimerSoftirqRunTs.ProbeTickStop | bpf/softirq_tracing.c:123-137 | the new record is that of the specified stop |
| StallDetector.TimerSoftirqRunTs.ProbeTickNohzRestartSchedTick | bpf/softirq_tracing.c:140-155 | the new record is that of the specified restart |
| StallDetector.TracingIsState | bpf/softirq_tracing.c:122-155 | tracing is on if and only if some restart has not been followed by a successful stop |
| StallDetector.ReportIsGap | bpf/softirq_tracing.c:61-120 | a stall is reported if and only if this tick and an earlier one are consecutive handled ticks with no stop and no restart between them, at least the threshold apart; the stall is the gap |
| StallDetector.ReportsDisjoint | bpf/softirq_tracing.c:99-119 | the intervals of two reports do not overlap |
| StallDetector.StallTimeWithinElapsed | bpf/softirq_tracing.c:99-119 | all reported stall time is at most the time the run took |
| KernelSymbols.HexReadsBack | internal/symbol/ksymbols.go:102-106 | a number printed in hexadecimal, padded with leading zeros to any width, parses back to itself if it is of 64 bits and is an error otherwise |
| KernelSymbols.FileReadsBack | internal/symbol/ksymbols.go:85-114 | the lines of any text symbols, of the kernel or of modules, load as those symbols in order |
| KernelSymbols.NotTextSkipped | internal/symbol/ksymbols.go:92-106 | a line with another number of words, another kind of symbol or no address adds nothing, wherever it stands |
| KernelSymbols.AddressesRead | internal/symbol/ksymbols.go:102-106 | empty and malformed texts are no addresses; digits may be of either case |
| KernelSymbols.FormatShows | internal/symbol/ksymbols.go:170-171 | the text a symbol is shown as |
| KernelSymbols.SortPrefix | internal/symbol/ksymbols.go:59-71 | the used prefix is sorted by address and keeps its multiset of entries; the rest of the array is untouched |
| KernelSymbols.SymbolIndex.Fill | internal/symbol/ksymbols.go:85-114 | the table holds the default entry and the text symbols in file order, or a symbol went past its end, exactly when there are too many |
| KernelSymbols.SymbolIndex.LoadKAllSymbols | internal/symbol/ksymbols.go:73-122 | a loaded table is sorted on its used prefix, blank after it and holds exactly the loaded entries; an unreadable file leaves the default entry |
| KernelSymbols.SymbolIndex.Search | internal/symbol/ksymbols.go:132-151 | the loop returns what the specified search returns, and reads past the table exactly when it is full and every address is below the key |
| KernelSymbols.SymbolIndex.KsymbolSearch | internal/symbol/ksymbols.go:124-152 | the table is loaded once, on first use; until a load succeeds every address resolves to the default entry; an index leaves the table exactly when the file has too many symbols or a full table is below the key |
| KernelSymbols.FindAgreesWithScan | internal/symbol/ksymbols.go:132-151 | the result has the address a linear scan for the greatest one not above the key finds, and is that entry unless different entries have exactly the key |
| KernelSymbols.ScanDiffers | internal/symbol/ksymbols.go:132-151 | a table with two symbols at the key where the search and the scan give different ones |
| KernelSymbols.DeterminedExactly | internal/symbol/ksymbols.go:67-151 | every sorted arrangement of the loaded entries resolves the key to the same symbol if and only if no two different entries share the greatest address not above it |
| KernelSymbols.TraceDetermined | internal/symbol/ksymbols.go:67-175 | where that holds of each address, every sorted arrangement gives the same backtrace |
| KernelSymbols.SymbolIndex.DumpKernelBackTrace | internal/symbol/ksymbols.go:156-175 | the backtrace is the resolved addresses before the first zero or the maximum depth, unnamed ones left out; the first address loads the table if none is loaded, an unreadable file gives an empty backtrace, and an index leaves the table exactly when the load overflows or some address is above a full table |
| KernelSymbols.ResolveIsScan | internal/symbol/ksymbols.go:156-175 | unless different symbols share exactly one of the addresses, that is what linear scans give |
| SlicePath.ExpandSystemdSlice | internal/pod/container_cgroup_path.go:40-51 | the path has a slice per component, the k-th named by the first k components joined |
| SlicePath.ToSystemd | internal/pod/container_cgroup_path.go:55-63 | the printed path is that of the escaped parts, and /.slice for no parts |
| SlicePath.PathNames | internal/pod/container_cgroup_path.go:37-51 | splitting the path at slashes gives one name per component, each the chain so far with the suffix |
| SlicePath.PathParses | internal/pod/container_cgroup_path.go:37-63 | the last name splits back into the components |
| SlicePath.PathsDetermineParts | internal/pod/container_cgroup_path.go:55-63 | two lists of parts free of slashes print alike if and only if their escaped forms agree |
| SlicePath.PodPathsDiffer | internal/pod/container_cgroup_path.go:69-83 | two pods share a path if and only if they agree on QoS class and escaped UID |
| SlicePath.UidsWithoutUnderscore | internal/pod/container_cgroup_path.go:33-35 | with UIDs free of underscores, if and only if they agree on class and UID |
| SlicePath.UnderscoreCollides | internal/pod/container_cgroup_path.go:33-35 | two UIDs that differ and print alike |
| SlicePath.PodPaths | internal/pod/container_cgroup_path.go:40-83 | the path of a pod of each class, written out |
| SlicePath.CgroupfsParts | internal/pod/container_cgroup_path.go:69-83 | the other driver's parts are the same with the container at the end |
| ContainerSync.IdReadsBack | internal/pod/container_sync.go:353-367 | an id written runtime://id parses to id, quoted or not |
| ContainerSync.ParsedExactly | internal/pod/container_sync.go:353-367 | any text parses to an id if and only if, without its quotes, it has exactly one separator and the id after it; every other text is an error |
| ContainerSync.StatusIsLast | internal/pod/container_sync.go:189-222 | the status used for a container is the last one of its name |
| ContainerSync.ListedExactly | internal/pod/container_sync.go:189-222 | an id is in the snapshot if and only if some pod is running with all its containers, has a container in its spec, and the last status of that name has the id after its one separator |
| ContainerSync.ContainerTable.IsRunningPod | internal/pod/container_sync.go:373-390 | true if and only if the phase is Running and every status is running |
| ContainerSync.ContainerTable.CollectPod | internal/pod/container_sync.go:189-222 | the ids of a running pod's containers are added, or the outcome names what is wrong with one of them: no status, or an unparsable id |
| ContainerSync.ContainerTable.KubeletSyncContainers | internal/pod/container_sync.go:174-248 | the keys become those old and listed plus those listed, new and built; kept containers are the same objects, added ones fresh; a failed list, an unparsable id or a missing status leaves the table alone |
| ContainerSync.ContainerTable.SyncAll | internal/pod/container_sync.go:174-248 | over any number of calls a container listed without a break is the same object with the same life resources |
| ContainerSync.PresentExactlyWhen | internal/pod/container_sync.go:224-245 | after any calls a container is in the table if and only if it was there at first or could be built at some call, and every successful call since has listed it |
| ContainerSync.TracksSnapshot | internal/pod/container_sync.go:224-245 | after a call in which every listed container can be built the keys are the snapshot |
| LinkEvents.ChangedBits | core/events/netdev_events.go:49-69 | a flag bit counts as changed if and only if it differs |
| LinkEvents.StatusByBits | core/events/netdev_events.go:49-69 | the reported transitions are exactly those of the two bits |
| LinkEvents.NetdevTracing.Record | core/events/netdev_events.go:188-205 | each reported status is counted once, and saved unless it was found at the start or is empty |
| LinkEvents.NetdevTracing.HandleEvent | core/events/netdev_events.go:207-224 | the new state is the specified handling of the event |
| LinkEvents.NetdevTracing.CheckLinkStatus | core/events/netdev_events.go:159-186 | the flags of whitelisted interfaces are noted and nothing is counted |
| LinkEvents.NetdevTracing.Start | core/events/netdev_events.go:113-140 | the loop over updates is the specified run: unknown interfaces skipped, the first error final |
| LinkEvents.RunCounts | core/events/netdev_events.go:188-224 | over a run each counter grows by the number of those transitions |
| LinkEvents.RunSaves | core/events/netdev_events.go:188-224 | over a run the records saved are exactly those of the updates that change a bit, each with its interface and transitions, in order |
| LinkEvents.RunBalances | core/events/netdev_events.go:188-224 | ups less downs are the present bit less the first one, for admin and for carrier |
| LinkEvents.RecordsAlternate | core/events/netdev_events.go:188-224 | in one interface's saved records ups and downs strictly alternate, for admin and for carrier, from the state it was noted in |
| LinkEvents.UnlistedIgnored | core/events/netdev_events.go:131-137 | interfaces not noted at the start are never counted |
| LinkEvents.ScannedExactly | core/events/netdev_events.go:159-186 | an interface is followed if and only if it was before or is both whitelisted and listed; its flags are then those of its last listing, and otherwise as before |
| LinkEvents.OnlyWhitelisted | core/events/netdev_events.go:113-140 | of an interface outside the whitelist, or not listed, a tracer started anew counts and saves nothing |
| LinkEvents.FollowedFromListing | core/events/netdev_events.go:113-224 | of a whitelisted one, ups less downs are the present bit less that of its last listing |

## Left out

- BPF loading, attaching, perf readers and map dumps: wrappers over the kernel and cilium/ebpf.
- HTTP services, kubelet, docker and containerd clients, storage, logging and configuration: input and output.
- procfs, sysfs and netlink metric collectors: copies of kernel counters.
- Building samples in cmd/perf/parsedata.go (`findOrAdd` and the stack loop): interning again, simpler than the enum field's.
- The pyroscope merger that produces the levels, and the Grafana frame types: libraries; levels are an input and the frame is four columns.
- `ToCgroupfs`: rests on the path cleaning of Go's library.
- bpf/softirq.c, pkg/tracing/task.go, internal/symbol/usymbols.go, core/autotracing/memburst.go: no accumulating or retention property, or ideas already covered here.
- Go slices that share a backing array: a slice is a value here; in `walkTree` each node's array is appended to at most once, past its length.
- Concurrent BPF programs: each program is one atomic step, and rate-limiter runs are sequential, so lost updates between CPUs are not modelled.
- Lookups in one-element array maps never fail in `StallDetector`, and 64-bit counters are unbounded in `RunqLat` and `RateLimit`: no run reaches their width.
- Sorting: `sort.Sort` is a library routine; the model sorts the same prefix by insertion with the same comparison and swaps.
- The lock around symbol searches: one search is one call; the symbol file reads the same throughout a backtrace.
- Supervisor.AlwaysOneWorker: speaks of one tracer; blacklisted names never enter the table (pkg/tracing/register_event.go:52), so the unlocked write for them does not occur.
- Building a container (`kubeletUpdateContainer`) is an oracle that succeeds or not; its fields other than the id and life resources are omitted.
- RateLimit.RateBound: assumes, as all results about its runs do, that time plus interval stays below 2^64 seconds; a nanosecond clock ends at 1.9e10 seconds.
- FlameSamples.SamplesConserved: is about levels with non-negative gaps and widths, as the format defines them; what other numbers do is said by `DecodeInside` and `ScanTakesPrefix` only.
- SlicePath.PodPathsDiffer: QoS classes are the three Kubernetes constants, written here in lower case as the source prints them.
- Displayed loads are real numbers: float64 rounding of the quotient by 100 is not modelled.
- Reading lines and splitting them into words in internal/symbol/ksymbols.go: the words are the input.
