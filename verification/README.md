# Verified models of the benchmark algorithms

The repository is a CPU benchmark: a driver keeps workers busy with a set of algorithms chosen to look like the work
of an information system. This project models the algorithms whose correctness is not obvious from their code, and the
protocols around them, and proves what they compute.

* **Availability simulation** (`simulation.go`; `Intervals`, `Merge`, `CanonicalForm`, `IntervalLists`, `Draws`,
  `Lateness`, `Outages`, `Cuts`, `LateOutages`, `Seconds`, `Events`, `Availability`, `Schedule`, `Year`, `Simulation`,
  `Witnesses`). Node outages are normalized, merged destructively into zones and then into the cluster, and aggregated
  into counters. The specification counts, second by second, how many nodes and zones are down. The main results are
  `Availability.AvailabilityYear.Simulate` (the cluster list says at every second how many zones are affected and
  which share of the keys is lost), `Year.SimulateYear` (the counters report numbers, durations and shares that depend
  on the node outages only: the merges cut the lists exactly where some node goes down or comes back) and
  `Simulation.Run` (the same over years that are drawn, built, simulated and aggregated one after the other). Failures
  that begin after the year are followed through all of this: they end up as reversed intervals behind the others, and
  what they do to the counters is stated exactly.
* **Pearls** (`pearls.go`; `Words`, `ThueMorse`, `Pearls`). The backtracking search is the lexicographic successor
  function on square-free ternary words. It never runs out of pearls, because such words exist in all lengths: Thue's
  theorem is proved from the overlap-freeness of the Thue-Morse sequence.
* **Shortest journey** (`haversine.go`; `Permutations`, `Haversine`). Heap's algorithm has a closed-form net effect
  and shows every permutation exactly once; the callback keeps the first of the shortest journeys.
* **Route exploration** (`graph.go`; `Sequences`, `Routes`, `DepthFirst`, `PathHeaps`, `Selections`, `Graphs`). The
  iterative search with markers on an explicit stack collects exactly the simple paths, each once, in the order of a
  recursive depth-first enumeration; a bounded heap keeps the lightest; the display shows them from heaviest to
  lightest. No pooled path is ever in two hands.
* **Driver and workers** (`main.go`, `worker.go`; `Protocol`, `Counting`, `ProtocolSafety`, `ProtocolProgress`). A
  step system over three bounded channels, for any number of workers and any interleaving: nothing gets stuck,
  initialisation zeros and final counts do not mix, and the driver collects exactly the operations injected: under
  saturation whole batches, and otherwise what was due at the ticks of the run. Every run can be brought to an end.
* **Injection at a target throughput** (`main.go`; `Injection`). Any second, wherever it begins, gets exactly the
  target number of operations.
* **Logging** (`logging.go`; `Logging`, `Pipeline`). The de-duplication of entries is a run-length encoding; it can be
  read back, by a reader who knows the entry before, if and only if no genuine entry looks like the announcement of a
  repetition. The two goroutines keep the lines in order and never share a buffer.

Code that changes things in place is modelled by methods over classes and arrays, proved against functions; lemmas say
what those functions mean. Protocols are datatypes with a step function; their theorems quantify over all runs. `dafny
verify dfyconfig.toml` checks the whole project.

## Where the code and its comments differ

* `simulation.go:62-67` claims to bring an interval into the range of the year, but clamps its end only. A rolling
  upgrade near the end of the year puts failures into the node lists that begin no earlier than they end
  (`Witnesses.UpgradeMayOverrun` gives a year). The lists stay well formed if and only if every upgrade reaches its
  last node within the year (`Schedule.GlobalEventsWellFormed`). The reversed or empty intervals cover no second, but
  the counters of one zone take them for outages:
  * The durations of two and three zones, their failures, and the time with two nodes down are right in any case
    (`Year.SimulateYear`).
  * `simulation.go:459` subtracts the bounds as unsigned numbers. If such a failure begins after the end of the year,
    the duration of one zone is more than a whole year too long, and otherwise it is right (`Year.ReportExact`). Each
    also adds one outage with the share of one node to the average of the shares (`Seconds.OutagesWithLate`). A
    built year is affected exactly if an upgrade reaches its last node after the end of the year
    (`Year.BuiltNoneAfterYear`).
  * Each failure that begins after the end of the year is counted as a failure of one zone, and so is an empty one
    that begins with the end of the year, unless a node is down in the last second (`Year.FailuresExact`). In a built
    year the failures of one zone are right exactly if no upgrade reaches its last node after the end of the year, and
    if one that does so exactly at its end finds a node down in the last second that is not down for an event
    (`Year.BuiltFailuresExact`; `Witnesses.EmptyFailureMayCount` gives a year where nothing overruns and the count is
    wrong).
* `simulation.go:324` says that no event is scheduled "when there is already a node down". Taken literally this holds
  (`Schedule.NoNodeDownAtStart`), and so does the mutual exclusion announced in line 323: maintenance alone never
  affects two zones (`Schedule.MaintenanceAffectsOneZone`). It does not keep events and outages apart: since only the
  start of an event is checked, some event meets some outage exactly if some outage begins while an event is under way
  (`Schedule.EventsMeetOutages`); `Witnesses.EventMayMeetOutage` gives a year where this happens.
* The log is written so that a reader can expand the repetitions, but not every log can be read back. A reader who
  knows the entry stored before the first one gets back what was logged if and only if no entry looks like an
  announcement that its predecessor was repeated (`Logging.RoundTrip`). One who knows nothing needs in addition that
  the first entry differs from the stored one; the only exception is a first entry that repeats it once and reads like
  the announcement of just that (`Logging.ReadExact`).

## Model

| member | source | states |
|---|---|---|
| Words.SuffixCheckSuffices | pearls.go:69-83 | looking only at squares that end with the last pearl decides square-freeness, given that the word without that pearl is square free |
| ThueMorse.OverlapFree | pearls.go:97-113 | the Thue-Morse sequence contains no overlap |
| ThueMorse.ThueWordValid | pearls.go:97-113 | square-free words over three colours exist in every length, so the search the code starts can always go on |
| Pearls.BenchPearls.Run | pearls.go:25-37 | a budget of n takes the necklace exactly n+1 successor steps from the empty one, for every n |
| Pearls.BenchPearls.AddPearls | pearls.go:40-65 | each call that does not stop moves to the immediate lexicographic successor among the square-free words; the recursion ends with the budget |
| Pearls.BenchPearls.BacktrackToNext | pearls.go:57-62 | the loop ends with the immediate successor of the word it started from |
| Pearls.BenchPearls.Check | pearls.go:69-83 | true exactly if no square ends with the last pearl |
| Pearls.BenchPearls.CheckSub | pearls.go:86-94 | true exactly if the two blocks around the pivot differ |
| Pearls.BenchPearls.Backtrack | pearls.go:97-113 | removes the trailing '2's and advances the pearl before them; needs a pearl that is not a '2' |
| Pearls.Placed | pearls.go:47-52 | the smallest colour that leaves the word square free gives its immediate successor |
| Pearls.DeadEnd | pearls.go:47-55 | if no colour fits, every later square-free word lies beyond the word and all its extensions |
| Pearls.AdvanceSkipsNothing | pearls.go:97-113 | no square-free word is jumped over by a backtracking step |
| Pearls.AdvanceKeepsSearching | pearls.go:57-62 | after backtracking the buffer is the immediate successor, or still on its way to it |
| Pearls.AdvanceShrinksRoom | pearls.go:57-62 | the loop that backtracks ends: the words still ahead get fewer |
| Pearls.SomethingToAdvance | pearls.go:97-102 | the buffer is never empty or all '2's when backtrack looks at its last pearl |
| Pearls.NextIsLive | pearls.go:40-65 | arbitrarily long square-free words still lie ahead of the successor |
| Pearls.NextExists | pearls.go:57-64 | the search always finds a successor |
| Pearls.StepsRank | pearls.go:40-65 | after n steps exactly the n smallest square-free words lie behind the one reached |
| Pearls.SmallerWasVisited | pearls.go:40-65 | every smaller square-free word was itself reached on the way |
| Pearls.FirstOfItsLengthIsLeast | pearls.go:40-65 | the first word of its length that is reached is the least square-free word of that length |
| Pearls.LengthWithinBudget | pearls.go:40-65 | every step adds at most one pearl |
| Pearls.FirstEight | pearls.go:57-62 | the eighth step is the first that has to backtrack, and leaves seven pearls |
| Pearls.ShorterFromEightOn | pearls.go:32-36 | the necklace is shorter than the number of steps if and only if there are at least eight; a budget of 500 makes 501 |
| Pearls.EveryLengthIsReached | pearls.go:40-65 | the search reaches every length, first with the least word of that length |
| IntervalLists.FailureWellFormed | simulation.go:62-87 | a failure is non-empty and within the year exactly if it starts in the year, lasts, and does not wrap around |
| IntervalLists.FailureClamped | simulation.go:62-87 | a failure that lasts and does not wrap around is well formed if it starts in the year, and reversed or empty at the end of the year otherwise |
| IntervalLists.FailureCovers | simulation.go:62-87 | a failure covers exactly the seconds that it lasts, as far as they are in the year |
| IntervalLists.OverlapIsCommon | simulation.go:48-50 | non-empty intervals overlap exactly if they have a second in common |
| IntervalLists.IntervalList.AddFailure | simulation.go:77-87 | the failure is appended unless a check was asked for and an interval overlaps it |
| IntervalLists.IntervalList.CheckCollision | simulation.go:90-97 | true exactly if some interval overlaps |
| IntervalLists.IntervalList.CheckCollisionTime | simulation.go:100-107 | true exactly if some interval includes the second, its end counted |
| Draws.FindNonFailureTime | simulation.go:120-128 | the first drawn second that no interval includes, and the draws after it |
| Draws.AddFailures | simulation.go:110-117 | every draw is rejected for a collision or becomes the next failure, until there are enough |
| Draws.ScheduleEvent | simulation.go:326-332 | the first draw that no outage includes and whose event meets no other |
| Draws.ScheduleEvents | simulation.go:325-340 | so for a number of events, one after the other |
| Draws.DrawnOneMore | simulation.go:325-340 | drawing n+1 failures is drawing one, and then n |
| Draws.DrawnApart | simulation.go:109-128 | the failures drawn do not meet and fit; some are missing only if the draws have run out |
| Draws.DrawsConserved | simulation.go:109-128 | every failure has a draw of its own, and none of those left |
| Draws.NoneRejectedInVain | simulation.go:109-128 | a draw is used up only if it is included in what is to be avoided or meets a failure of the list |
| IntervalLists.IntervalList.SortByBeg | simulation.go:137-139 | the list becomes a permutation of itself sorted by start |
| IntervalLists.IntervalList.Normalize | simulation.go:130-158 | for any list: sorted, and each interval fused in turn with what comes before it; non-empty intervals become canonical and cover the same seconds |
| IntervalLists.IntervalList.FuseNeighbours | simulation.go:141-157 | for any list: the loop with its deletions in place fuses each interval in turn |
| CanonicalForm.FuseOneKeeps | simulation.go:142-156 | a turn keeps the list sorted, its beginning canonical and the coverage |
| CanonicalForm.FusedCanonical | simulation.go:142-156 | fusing all neighbours of a sorted list of non-empty intervals gives a canonical list with the same coverage |
| CanonicalForm.NormalizedCanonical | simulation.go:130-158 | so does normalizing them in any order |
| CanonicalForm.CanonicalUnique | simulation.go:129-158 | canonical lists with the same coverage have the same bounds, so the result does not depend on order or sorting |
| IntervalLists.IntervalList.MergeLists | simulation.go:189-233 | the loop that overwrites its inputs appends the merged list of the original inputs |
| IntervalLists.IntervalList.MergeTurn | simulation.go:194-225 | one turn of the loop appends and overwrites as the specified turn does |
| IntervalLists.IntervalList.MergeNodes | simulation.go:174-178 | the same with the generator for nodes of one zone |
| IntervalLists.IntervalList.MergeZones | simulation.go:181-185 | the same with the generator for zones |
| Merge.Next | simulation.go:193-226 | every turn decreases a measure, as a split is followed by a turn that consumes an interval |
| Merge.TurnLoad | simulation.go:194-225 | each of the seven branches appends the load owed to its seconds and leaves the other seconds to the rest |
| Merge.TurnDisjoint | simulation.go:202-225 | the overwritten inputs stay sorted and disjoint |
| Merge.TurnOrdered | simulation.go:194-225 | a turn appends a non-empty interval that starts first and ends before all that is left |
| Merge.MergedDisjoint | simulation.go:187-233 | merging sorted disjoint lists gives a sorted disjoint list |
| Merge.MergedLoad | simulation.go:187-233 | at every second the result carries the load of one list, or the generator applied to both, in terms of the original lists |
| Merge.MergedLength | simulation.go:193-232 | at most 2(n+m)-1 intervals are produced |
| Outages.MergeNodesPointwise | simulation.go:174-178 | where counts agree, merging nodes adds their shares at every second |
| Outages.MergeZonesPointwise | simulation.go:181-185 | merging zones adds counts and multiplies shares at every second |
| Outages.NodeReadyUnique | simulation.go:378-387 | normalized node lists with the same coverage are equal |
| Outages.DownNodesIsSize | simulation.go:390-401 | the number of nodes down is that of the nodes with an outage at the second |
| Outages.AffectedZonesIsSize | simulation.go:404-412 | the number of zones affected is that of the zones with such a node |
| Outages.ShareOfZone | simulation.go:378-387 | the share of no node is zero, of two a half and of four the whole, and shares add up |
| Outages.ShareLostProduct | simulation.go:181-185 | the share lost in the cluster is the product, over the zones with a node down, of a quarter for each such node |
| Cuts.MergedCut | simulation.go:187-233 | a merged list begins or ends an interval exactly where one of the two lists does |
| Cuts.CanonicalCut | simulation.go:130-158 | a normalized list does so exactly where its node goes down or comes back |
| Cuts.MergedCuts | simulation.go:390-412 | zone and cluster lists are cut exactly where one of their nodes goes down or comes back |
| Cuts.BeginIsCut | simulation.go:187-233 | an interval of a disjoint list begins at every cut that is covered, and nowhere else |
| Lateness.NormalizedLate | simulation.go:130-158 | clamped intervals become a canonical list with the same coverage, and reversed intervals behind it |
| Lateness.FusedLate | simulation.go:142-156 | a reversed interval disappears only in a neighbour that touches the end of the year |
| Lateness.MergedTails | simulation.go:187-233 | reversed intervals take no part in a merge and stay behind its result |
| LateOutages.LoadedNode | simulation.go:378-387 | a normalized node list is right for its node, with what is left of its reversed intervals behind |
| LateOutages.NextNodeDone | simulation.go:395-398 | merging one more node keeps the zone right, and the reversed intervals of both |
| LateOutages.NextZoneDone | simulation.go:407-410 | merging one more zone keeps the cluster right, and the reversed intervals of both |
| Outages.FirstNode | simulation.go:394-394 | a copy of the first node is right for a zone of one node |
| Outages.NextNode | simulation.go:395-398 | merging one more node keeps the zone right at every second |
| Outages.FirstZone | simulation.go:406-406 | a copy of the first zone is right for a cluster of one zone |
| Outages.NextZone | simulation.go:407-410 | merging one more zone keeps the cluster right at every second |
| Availability.AvailabilityYear.constructor | simulation.go:250-265 | all lists are empty and have storage of their own |
| Availability.AvailabilityYear.Reset | simulation.go:268-278 | no outages are left, and all counters are zero |
| Availability.AvailabilityYear.Build | simulation.go:281-285 | the lists, the events and the remaining draws are those the draws lead to, and the events are in the lists; it fails exactly if the draws do not suffice |
| Availability.AvailabilityYear.BuildNodes | simulation.go:288-314 | reboots, hardware and network failures as drawn, and the global view of all of them |
| Availability.BuildNode | simulation.go:293-296 | the reboots and the hardware failure of a node, as drawn |
| Availability.AvailabilityYear.BuildNets | simulation.go:301-308 | the nodes of a zone share its network failure, at the drawn time |
| Events.NodeDrawnBuilt | simulation.go:290-297 | three reboots, and a hardware failure if there is one, which do not meet |
| Events.OwnOutages | simulation.go:290-297 | three reboots of five minutes, and a fourth failure of three days for a node with a hardware failure |
| Events.NetTakesZoneDown | simulation.go:301-308 | a node is down for its own failures, and in the hour of the network failure of its zone, and at no other second |
| Events.NetsTakeDraws | simulation.go:301-303 | the network failures take the next draws, in order |
| Events.YearDrawsConserved | simulation.go:288-342 | no two failures of nodes, network failures or events of a year share a draw |
| Events.EventsDrawnScheduled | simulation.go:317-342 | the events drawn do not meet, start within the year, and start at no second included in a node outage; some are missing only if the draws have run out |
| Availability.AvailabilityYear.BuildGlobalEvents | simulation.go:317-342 | the events and the remaining draws are those the draws lead to; it fails exactly if some are missing |
| Availability.AvailabilityYear.RetrofitGlobalEvents | simulation.go:345-366 | every node receives its failure from each upgrade, at its own time, and the shutdown of its zone |
| Availability.AvailabilityYear.RollingUpgrade | simulation.go:350-354 | the nodes go down one after the other, at regular times |
| Availability.AvailabilityYear.FailZone | simulation.go:304-306 | the nodes of the zone go down together, and no other |
| Availability.AvailabilityYear.ZoneShutdowns | simulation.go:357-365 | every node receives the shutdown of its zone |
| Availability.AvailabilityYear.Simulate | simulation.go:369-375 | for all clamped failures: the cluster list is sorted and disjoint and carries at every second the number of zones with a node down and the product of their shares, with reversed intervals behind; all storage stays separate |
| Availability.AvailabilityYear.NormalizeNodes | simulation.go:378-387 | every node list becomes canonical with the same coverage, with reversed intervals behind, each interval carrying one zone and one node's share |
| Availability.AvailabilityYear.SimulateZones | simulation.go:390-401 | every zone list carries at each second the share of its nodes that are down |
| Availability.AvailabilityYear.SimulateZone | simulation.go:391-399 | the same for one zone, leaving the other zones and their nodes alone |
| Availability.AvailabilityYear.SimulateCluster | simulation.go:404-412 | the zones are merged into a cluster list that is right at every second |
| Availability.MergeZone | simulation.go:394-398 | merging through a buffer that changes places with the result after each node |
| Availability.MergeCluster | simulation.go:406-410 | the same for the zones of the cluster |
| Availability.ExchangeKeepsSeparate | simulation.go:397-399 | the exchange of a zone list with the buffer keeps all lists separate |
| Availability.AvailabilityYear.Evaluate | simulation.go:415-429 | each counter becomes the total over exactly the intervals it stands for |
| Availability.AvailabilityYear.EvaluateOne | simulation.go:418-427 | one interval updates exactly the counters it is picked for |
| Availability.AvailabilityYear.EvaluateOutage | simulation.go:419-423 | the outage counter of its zones, and the failure counter if a failure sets in |
| Availability.Statistic.Update | simulation.go:457-461 | one event more, with its share and the unsigned difference of its bounds |
| Availability.Result.Aggregate | simulation.go:479-488 | every counter is added to its own |
| Seconds.OutageDuration | simulation.go:418-420 | the total duration for k+1 zones is the number of seconds with exactly k+1 affected zones |
| Seconds.MultipleDuration | simulation.go:424-426 | the same for the intervals where more than one node is down |
| Seconds.RatioPicked | simulation.go:457-461 | the share of a statistic is any quantity that grows by the share of each interval picked |
| Seconds.BeginsCounted | simulation.go:415-429 | the number of intervals picked and their shares are those of the seconds where such an interval begins |
| Seconds.FailureAtStart | simulation.go:421-423 | the test on the previous interval holds exactly if fewer zones were affected one second before |
| Seconds.FailureCount | simulation.go:415-429 | the failure counter is the number of seconds at which exactly k+1 zones are affected and fewer were before, however the list is cut |
| Seconds.OutagesWithLate | simulation.go:415-429 | reversed intervals are outages of one zone, with the share of one node and the unsigned difference of their bounds |
| Seconds.FailuresWithLate | simulation.go:415-429 | they are failures of one zone if they begin after the year, and a first one that begins with its end is unless the list lasts until then |
| Year.ClusterInRange | simulation.go:418-420 | within the year the counts of the cluster list index the counters, and the list ends with the year |
| Year.CountsInRange | simulation.go:418-420 | so do those of reversed intervals: the index in Evaluate is in range |
| Year.ShareOfOne | simulation.go:431-438 | the tolerance separates the share of one node from that of more |
| Year.MultipleMeansTwoDown | simulation.go:424-426 | the test on the merged load holds exactly if at least two nodes of the cluster are down |
| Year.SingleZoneShare | simulation.go:404-412 | if one zone is affected, the cluster's share is that of all nodes that are down |
| Year.OutagesPartition | simulation.go:415-429 | the durations for one, two and three zones add up to the time with any node down |
| Year.LastsDownAtEnd | simulation.go:421-423 | the cluster list lasts to the end of the year exactly if a node is down in the last second |
| Year.ChangesOfYear | simulation.go:415-429 | the number of intervals picked, and the sum of their shares, depend on the node outages only: one for each second at which some node goes down or comes back |
| Year.YearOutages | simulation.go:418-420 | the counter for k+1 zones, all of it, in terms of the node outages and the reversed intervals |
| Year.YearFailures | simulation.go:421-423 | the number of onsets of failures of k+1 zones, and the shares lost at them |
| Year.YearMultiple | simulation.go:424-426 | the counter for two nodes or more, all of it |
| Year.ReportsPartition | simulation.go:463-470 | the same conservation for the counters of a result |
| Year.SimulateYear | simulation.go:643-644 | for all clamped failures: how often the nodes down change, how long it lasts and which shares are lost with exactly k+1 affected zones, and with two nodes down; the onsets of failures of k+1 zones and the shares lost at them; only the counters of one zone are affected by reversed intervals, each by the number stated |
| Year.ReportExact | simulation.go:457-461 | with at most one late failure a node, the seconds with one affected zone are reported exactly if no failure begins after the end of the year, and otherwise exceeded by more than a year |
| Year.BuiltClamped | simulation.go:281-366 | in a built year all failures are clamped, and no node has more than one late one |
| Year.FailuresExact | simulation.go:421-423 | with at most one late failure a node, the onsets of failures of one zone are reported exactly if no failure begins after the end of the year and, should one begin with it, a node is down in the last second |
| Year.BuiltNoneAfterYear | simulation.go:281-366 | in a built year no failure begins after the end exactly if every upgrade reaches its last node by then |
| Year.DownWithoutEvents | simulation.go:345-366 | just before an upgrade reaches its last node with the end of the year, exactly the nodes with an outage of their own are down |
| Year.BuiltFailuresExact | simulation.go:281-366 | a built year reports the failures of one zone right exactly if no upgrade overruns it, and if one that reaches its last node with its end finds a node with an outage of its own down |
| Schedule.GlobalEventsWellFormed | simulation.go:345-366 | the retrofitted failures are well formed if and only if every upgrade reaches its last node within the year |
| Schedule.EventsExclude | simulation.go:322-340 | scheduled events are mutually exclusive |
| Schedule.WithinEvent | simulation.go:345-366 | a node is down for an event only while the event lasts |
| Schedule.EventLasts | simulation.go:322-340 | an upgrade lasts from its first node to the end of its last one, a shutdown three hours |
| Schedule.ShutdownTakesZoneDown | simulation.go:357-365 | for a shutdown every node of its zone is down throughout, and no longer |
| Schedule.UpgradeTakesNodeDown | simulation.go:349-354 | for an upgrade each node is down for two minutes, two and a half minutes after the one before |
| Schedule.DownForEvents | simulation.go:345-366 | what is retrofitted into a node takes it down exactly when one of the events does |
| Schedule.OneNodeAtATime | simulation.go:349-354 | a rolling upgrade never takes two nodes down together |
| Schedule.ZonesExclude | simulation.go:316-366 | nodes of different zones are never down together for maintenance |
| Schedule.MaintenanceAffectsOneZone | simulation.go:316-366 | maintenance alone never affects more than one zone |
| Schedule.NoNodeDownAtStart | simulation.go:322-332 | no event starts while a node is down |
| Schedule.EventsMeetOutages | simulation.go:322-332 | some scheduled event meets some outage exactly if some outage begins strictly inside an event |
| Schedule.OneUpgradeOverruns | simulation.go:325-333 | two scheduled upgrades never overrun the year both |
| Witnesses.PlannedYear | simulation.go:281-342 | the draws of a whole year, its nodes and its events |
| Witnesses.EventMayMeetOutage | simulation.go:322-332 | draws that lead to a year in which the nodes reboot during a shutdown |
| Witnesses.UpgradeMayOverrun | simulation.go:325-356 | draws that lead to a year which an upgrade overruns |
| Witnesses.EmptyFailureMayCount | simulation.go:325-356 | draws that lead to a year where nothing overruns, but the failures of one zone are not right |
| Simulation.RunYear | simulation.go:641-644 | the year the draws lead to is built, simulated and reported; it fails exactly if the draws do not suffice |
| Simulation.Run | simulation.go:638-647 | the years are those the draws lead to, one after the other, until they run out, and the results add up their reports, to which reversed intervals add what is stated |
| Simulation.AggregatedDuration | simulation.go:479-488 | over any number of years the durations of two and three zones are right, and that of one zone is off by what reversed intervals add |
| Simulation.ExcessOfYears | simulation.go:638-647 | that is nothing exactly if no upgrade has overrun its year |
| Simulation.AggregatedFailures | simulation.go:479-488 | over any number of years the failures of two and three zones are right, and those of one zone are off by the failures counted for reversed intervals |
| Simulation.LateFailuresOfYears | simulation.go:638-647 | these are none exactly if in every year no upgrade overruns, and one that reaches its last node with the end of the year finds a node with an outage of its own down |
| Simulation.AggregatedMultiple | simulation.go:479-488 | the years are counted, and the time with at least two nodes down is right over any number of them |
| Simulation.AggregatedShares | simulation.go:590-593 | both parts of the average share lost with k+1 zones are sums over the years of what the node outages give |
| Simulation.AggregatedMultipleShares | simulation.go:590-593 | the same with two nodes down |
| Permutations.LoopTurns | haversine.go:102-110 | a swap and an inner call lead from the closed form of one round to that of the next |
| Permutations.NetClosedForm | haversine.go:89-111 | for odd k and for 2 a call exchanges the ends; for even k >= 4 it leaves k-3, k-2, 1, ..., k-4, k-1, 0 |
| Permutations.LastIsOnce | haversine.go:102-110 | every element is in the last place in exactly one round |
| Permutations.RoundShows | haversine.go:101-110 | the calls of one round show exactly the permutations with their element last |
| Permutations.AfterArranges | haversine.go:89-111 | a call permutes its k elements and leaves the others alone |
| Permutations.TraceShows | haversine.go:89-111 | k! permutations are shown, every one exactly once |
| Haversine.BenchHaversine.Heap | haversine.go:89-111 | the in-place recursion leaves the array as `After` says, whose closed form is proved, and passes exactly the trace of permutations, in order, to the callback |
| Haversine.BenchHaversine.HeapRounds | haversine.go:97-110 | the same for the calls beyond the base case |
| Haversine.BenchHaversine.Round | haversine.go:102-110 | one swap, chosen by the parity of k, and one inner call |
| Haversine.BenchHaversine.Exchange | haversine.go:104-108 | exactly two elements change places |
| Haversine.BenchHaversine.JourneyLength | haversine.go:57-62 | the sum of the distances between consecutive cities |
| Haversine.LengthIsSum | haversine.go:57-62 | the length is any quantity that grows by the distance of each leg |
| Haversine.LengthConcat | haversine.go:57-62 | the lengths of two stretches of a journey add up |
| Haversine.TourVisitsEachOnce | haversine.go:49-54 | a journey visits every city exactly once, and nothing else |
| Haversine.BenchHaversine.Yield | haversine.go:55-69 | the journey is replaced exactly if the new one is shorter |
| Haversine.BenchHaversine.Run | haversine.go:49-79 | all journeys with fixed ends are shown, each once, and the first of the shortest is kept |
| Haversine.ToursShown | haversine.go:77-79 | the permutations of the middle are exactly the journeys through all cities |
| Haversine.KeepIsFirstShortest | haversine.go:64-68 | the callback ends with the first of the shortest journeys, or with the initial value |
| Haversine.KeptIsOptimal | haversine.go:48-79 | if any journey is shorter than the initial value, the kept one is a journey and none is shorter; otherwise none is kept |
| Routes.WithNodeWellFormed | graph.go:156-163 | adding a node keeps the edge lists exact |
| Routes.WithEdgeWellFormed | graph.go:166-178 | adding an edge keeps the edge lists exact if and only if its identifier is not the marker |
| Routes.LegsWithEdge | graph.go:166-178 | the new edge leads from the one node to the other, with its weight, and no other leg is gained or lost |
| Routes.SimpleWithEdge | graph.go:166-178 | every simple path stays one, with its weight |
| Routes.EdgeIsPath | graph.go:166-178 | between different nodes the new edge is a simple path of its own |
| Routes.NewPathTakesEdge | graph.go:166-178 | every other simple path was one before, unless it takes the new edge |
| Routes.WeightConcat | graph.go:267-274 | the weights of two stretches of a path add up |
| Routes.ExploreExact | graph.go:205-249 | depth-first enumeration lists a route exactly if it is a simple continuation |
| Routes.ExploreOnce | graph.go:205-249 | and lists no route twice |
| Routes.AllRoutesExact | graph.go:205-249 | between two different nodes: exactly the simple paths, each once |
| Routes.NoRoutesToItself | graph.go:231-235 | from a node to itself there are none |
| DepthFirst.TopOfStack | graph.go:221-229 | a marker is on top exactly if all edges of the last node have been used up, so the path can be shortened |
| DepthFirst.MarkersAreLegs | graph.go:225-247 | there are as many markers on the stack as legs in the path |
| DepthFirst.Backtrack | graph.go:225-229 | backtracking changes nothing about what remains to be collected |
| DepthFirst.SkipPending | graph.go:231-235 | nor does skipping an edge to a node of the path |
| DepthFirst.TakeEdge | graph.go:221-235 | taking an edge leaves its branch and the rest to be collected |
| DepthFirst.Visit | graph.go:237-247 | visiting a node replaces its branch by a collected route or by its own edges |
| DepthFirst.BeginExplores | graph.go:208-215 | at the start all routes remain to be collected |
| DepthFirst.TurnExplores | graph.go:219-248 | every turn keeps what has been found plus what remains equal to all routes, and leaves fewer turns, also on cyclic graphs |
| DepthFirst.EndExplored | graph.go:219-249 | with an empty stack the path is back to its start and everything has been found |
| PathHeaps.Path.Reset | graph.go:51-55 | the path consists of its start |
| PathHeaps.Path.Add | graph.go:58-61 | the path is extended by a leg |
| PathHeaps.Path.Pop | graph.go:64-69 | removes and returns the last leg |
| PathHeaps.Path.Contains | graph.go:72-79 | true exactly for the nodes of the path |
| PathHeaps.RootIsHeaviest | graph.go:109-112 | in a list ordered like the heap no element is heavier than the root |
| PathHeaps.SiftUpStep | graph.go:259-260 | sifting up moves the only possible disorder to the parent |
| PathHeaps.SiftDownStep | graph.go:261-263 | sifting down moves the only possible disorder to the heavier child |
| PathHeaps.PathHeap.Push | graph.go:119-122 | the heap stays ordered and gains exactly the path |
| PathHeaps.PathHeap.Pop | graph.go:124-130 | the heap stays ordered and loses exactly its root |
| PathHeaps.PathHeap.PopHeaviest | graph.go:262-262 | the path that is popped weighs at least as much as every other |
| Selections.KeepWithRoom | graph.go:259-261 | below the limit every route is kept |
| Selections.DropHeaviest | graph.go:260-263 | at the limit, dropping a heaviest route keeps the lightest ones |
| Selections.EmptyOne | graph.go:281-282 | popping a heaviest route keeps the lines in non-increasing weight |
| Selections.TakenIsFree | graph.go:255-255 | a path taken from the pool is neither in the pool nor in the heap |
| Selections.PushedIsOwned | graph.go:260-260 | a path that nobody holds can be pushed without being in two places |
| Selections.PoppedIsOwned | graph.go:262-262 | a popped path can go to the pool without being in two places |
| Selections.DisplayedAreLightest | graph.go:190-203 | the lines are simple paths with their weights, none twice, and no simple path that is not shown is lighter than one that is |
| Graphs.Graph.AddNode | graph.go:156-163 | the node gets the next identifier, truncated to 32 bits, and the location refers to it |
| Graphs.Graph.AddEdge | graph.go:166-178 | the edge is listed at both of its ends; the graph stays well formed exactly if the identifier is not the marker |
| Graphs.Graph.CalculateWeight | graph.go:267-274 | the sum of the weights of the edges of the path |
| Graphs.Graph.GetPath | graph.go:255-255 | a path that is neither in the heap nor in the pool |
| Graphs.Graph.Collect | graph.go:252-264 | the heap holds min(K, found) lightest routes, each in a path of its own that is not in the pool; no path is overwritten while it is in the heap |
| Graphs.Graph.Keep | graph.go:259-263 | the same for a copy with its weight |
| Graphs.Graph.AllPaths | graph.go:206-249 | the iterative search collects exactly the routes of the recursive enumeration, in its order, ends for every graph, and leaves the path at its start |
| Graphs.Graph.TakeTurn | graph.go:219-248 | one turn of the loop does what the turn function says |
| Graphs.Graph.Follow | graph.go:231-247 | an edge to a node of the path changes nothing; any other extends path and stack, and collects the route if it arrives |
| Graphs.Graph.Enter | graph.go:237-247 | the path, the stack and the routes found after a new node |
| Graphs.Graph.Display | graph.go:277-294 | the lines are the lightest routes in non-increasing weight, the heap is empty, and each of its paths is in the pool, once |
| Graphs.Graph.Search | graph.go:191-203 | fails exactly for unknown locations; otherwise shows the lightest routes, takes nothing from the pool for good, and leaves every path in one place |
| ProtocolSafety.StepKeeps | main.go:83-132 | every step of the driver, the clock or a worker keeps the invariant |
| ProtocolSafety.RunKeeps | main.go:83-132 | the invariant holds in every state of every run |
| ProtocolSafety.StartingWorkerKeeps | worker.go:45-84 | a worker that initialises sends one zero and enters its loop |
| ProtocolSafety.CountStepKeeps | worker.go:52-54 | an operation leaves the channel and is counted once |
| ProtocolSafety.TakeExitKeeps | worker.go:55-57 | a worker takes one exit, and then no operation is left in the channel |
| ProtocolSafety.ReportKeeps | worker.go:95-97 | what a worker has counted moves to the output |
| ProtocolSafety.ZerosDoNotMix | main.go:103-132 | while zeros are awaited only zeros are in the output, and while operations are injected it is empty |
| ProtocolSafety.FinalCollectsAll | main.go:125-132 | at the end the channels are empty, all workers are done, and the driver has collected what it injected: 16 operations for each worker and batch, or what was due at the ticks |
| ProtocolProgress.NoDeadlock | main.go:83-132 | every reachable state that is not final can go on, unless the OLTP driver waits for the clock |
| ProtocolProgress.StepsRunOut | main.go:83-132 | every step of the driver or a worker decreases the number of steps left |
| ProtocolProgress.StoppedRunEnds | main.go:122-132 | after the stop signal a run ends within a bound, whatever the interleaving, with all operations of all batches collected |
| ProtocolProgress.StopIsTaken | main.go:157-204 | between two batches either injector takes the stop signal, and the driver goes on to the exits |
| ProtocolProgress.CanEnd | main.go:83-132 | from every state that can be reached some run ends, without a further batch |
| ProtocolProgress.AnyNumberOfBatches | main.go:83-132 | for any number of workers, either injector and any number of batches some run ends with exactly these collected |
| ProtocolSafety.RunCounts | main.go:160-215 | the batches begun are those of the run |
| ProtocolProgress.EveryRun | main.go:83-132 | safety and progress for every run from the start, any number of workers and either injector; a final state has collected 16 operations for each worker and batch of the run under saturation, and what was due at its ticks otherwise |
| ProtocolProgress.RateReached | main.go:122-217 | whatever the interleaving, an OLTP run collects no less than the target rate for its ticks, and at most the remainder more |
| ProtocolProgress.TargetReached | main.go:122-217 | over whole seconds it collects exactly the target number of operations for each |
| Injection.Period | main.go:173-185 | the period divides a second |
| Injection.TicksPerSecond | main.go:173-186 | 1, 10, 20, 50 or 100 ticks a second, by the bands of the target |
| Injection.InjectOLTP | main.go:170-219 | each tick sends what is due at it for the target; a negative target counts as none |
| Injection.Inject | main.go:210-212 | n operations, none for a negative n |
| Injection.SumOfDue | main.go:200-218 | the total sent is the total due |
| Injection.AnySecondIsExact | main.go:186-217 | any nbPeriods consecutive ticks inject exactly the target |
| Injection.WholeSeconds | main.go:186-217 | a number of seconds get exactly their multiple of the target |
| Injection.NeverBehind | main.go:189-217 | after any number of ticks the total is not below the target rate and exceeds it by at most the remainder |
| Logging.BenchLogging.Log | logging.go:105-114 | a repetition is counted; any other entry is written after the pending announcement |
| Logging.BenchLogging.FlushLog | logging.go:117-125 | a pending repetition is announced once with the number of occurrences |
| Logging.BenchLogging.LogAll | logging.go:59-78 | any sequence of entries and a flush write the run-length encoding of the sequence |
| Logging.RepeatedInjective | logging.go:121-121 | the announcement determines the number |
| Logging.DecimalValue | logging.go:121-121 | the digits of the announcement stand for its number, without leading zeros |
| Logging.ExpandLines | logging.go:104-125 | from any state, expanding the lines gives back what was logged if and only if no entry misleads |
| Logging.RoundTrip | logging.go:104-125 | the same from a flushed state, for a reader who knows the stored entry |
| Logging.ReadRoundTrip | logging.go:104-125 | a reader who knows nothing gets back a log whose first entry differs from the stored one if and only if no entry misleads |
| Logging.FirstEntryRead | logging.go:107-125 | if the first entry repeats the stored one, such a reader takes the announcement of the first repetitions for it |
| Logging.RepeatedFirstLost | logging.go:107-125 | a first entry that repeats the stored one at least twice never reads back |
| Logging.ReadExact | logging.go:104-125 | such a reader gets back what was logged if and only if nothing misleads and the first entry differs from the stored one, or repeats it once and is the announcement of just that |
| Logging.MisleadingExample | logging.go:117-125 | a log that reads back as another one |
| Pipeline.BuffersMove | logging.go:83-164 | every step moves buffers from one place to another, or allocates one, which may replace one that a line has outgrown |
| Pipeline.OwnedKept | logging.go:83-164 | every step keeps each buffer in at most one place |
| Pipeline.PassageKept | logging.go:128-156 | every step keeps the concatenation of what is written, under way and to come |
| Pipeline.StepsRunOut | logging.go:77-156 | every step leaves one step fewer |
| Pipeline.NoDeadlock | logging.go:77-156 | until the acknowledgement has been received one of the two sides can go on |
| Pipeline.RunKeeps | logging.go:77-156 | all this in every state of every run |
| Pipeline.NoBufferTwice | logging.go:83-102 | no buffer is twice in pool, producer, queue and consumer together |
| Pipeline.TenBuffersAreEnough | logging.go:83-102 | buffers are reused: there are never more than ten, or than there were at the start |
| Pipeline.EveryRun | logging.go:77-156 | in every run the lines written are a prefix of the lines logged, concealed; the run ends after a fixed number of steps with all of them |

## Left out

- Random generation (`simulation.go:110-128`, `simulation.go:288-342`): the random times are an input, and so are the decisions which nodes and zones have failures.
- Draws.FindNonFailureTime: the draws are a finite input that may run out, where the source goes on drawing; whether it ever ends depends on the random generator. The same holds for Draws.AddFailures and Draws.ScheduleEvent.
- IntervalLists.IntervalList.SortByBeg: the library's sorting algorithm is not part of this model; an insertion that meets the contract of `sort.Sort` stands for it.
- Availability.AvailabilityYear.Simulate: shares are real numbers; the rounding of `float32` is not modelled (multiples of 1/4 and their products are exact in it), nor is an overflow of the 64-bit counters of a `Statistic`.
- The histograms and all formatting in `simulation.go`.
- Year.SimulateYear: requires failures as `AddFailure` leaves them if they last and do not wrap around, which those of a built year do (`Year.BuiltClamped`); other reversed intervals are not followed. The duration in the counters of failures, which nothing displays, is given as a total over the cluster list (`Availability.AvailabilityYear.Evaluate`) and not in terms of the node outages.
- Pearls.BenchPearls.Run: the budget of 500 is a parameter, and the check for the length 451 is left out: it is one finite run.
- Haversine.BenchHaversine.Run: requires three cities, as the recursion of the source does not end for two and slicing fails for fewer. Distances are an arbitrary real function of two cities; trigonometry, rounding and the text output are left out.
- Graphs.Graph.Keep: paths of the pool have identities, and their content in the heap is a copy; as no path is in two places, writing through one reference cannot change another, which is not modelled with pointers. Graphs of other workers share the pool of the source; here it belongs to one graph.
- PathHeaps.PathHeap.Push: (and PathHeaps.PathHeap.Pop) `container/heap` is not part of the repository; its sifting is written out with the comparison and exchange of `PathHeap`.
- Graphs.Graph.CalculateWeight: weights are real numbers; rounding and NaN are not modelled.
- The text of the display in `graph.go`; a line is a route with its weight.
- ProtocolProgress.StoppedRunEnds: before the stop signal nothing bounds a run; the OLTP injector may also prefer ticks to the stop signal any number of times, so an end is proved from the moment it takes the signal.
- Clocks, tickers and flags in `main.go`; the stop signal and the ticks are events that may come at any time. Wrong operations are not sent by the driver.
- Logging.BenchLogging.WriteEntry: the formatting of an entry with its time is not modelled; the queue and its buffers are in `Pipeline`, where a line is what was formatted.
- Concealment is an arbitrary function on lines that may return a fresh buffer; the regular expression and the statistics by severity are left out.
- The other benchmarks (compression, cryptography, JSON, AWK, images, B-trees, sorting, eight queens, memory) and the handling of result files: mostly calls of libraries, or one finite run.
