# A verified model of the traffic detector

The detector reads packets from netmap rings in several receiver threads. Each thread counts them
against its own copy of a list of rules. Once a second a watcher visits the threads: it re-copies
rules that have changed, merges the counters into a master collection, computes packet and byte
rates, and lets the rules decide whether to raise an alarm. Alarms become jobs for a task runner.

This project models that path in Dafny and proves what it guarantees, as the code stands. To
verify it: `dafny verify dfyconfig.toml`.

## How it is built

Objects that the source updates in place are classes (`RulesList`, `RulesCollection`,
`RulesFileLoader`, `TsQueue`, `Watcher`, `NetmapPoller`, `NetmapRing`, `NetmapDesc`), and each
method is proved against a function of the old state. Rules themselves are records, because the
source keeps them by value in vectors and copies them; `RulesList` is generic in the layer-4
options and header, and `Tcp` is the concrete instance. The theorems are about those functions,
about the alarm machine as a state machine, and about a transition system (`Watchers`): packets,
copies and merges are critical sections of the source, and interleave everywhere; reloads and
console edits land between rounds. `WatcherLoop` proves that a round of the program, on the
objects, is a run of that system, and `LateLoads` says what reloads inside a round do.

| files | content |
|---|---|
| `Words`, `Tally`, `Rates` | machine words, counters and destination tables, rates |
| `Rule`, `RulesList`, `Collection`, `Validity` | rules, lists, collections, reloading, validity over runs |
| `Sharding` | many threads against one list |
| `Doubling`, `RoundLaw`, `RoundRates` | the law of a round with stale threads, and when the rates of a round are true |
| `ConsoleEdits`, `LateLoads` | what becomes of rates and alarms after console edits, and after reloads inside a round |
| `Latch`, `Alarm` | the alarm machine |
| `Watcher`, `WatcherInv`, `WatcherRates`, `WatcherTheorems`, `WatcherProgress` | the protocol, its invariants, its theorems, its progress |
| `RoundSteps`, `WatcherLoop` | a round as atomic steps, and the loop on objects |
| `Queue`, `Delivery`, `Alerts`, `JobLines` | the job queue, delivery of alarms, and the way from a flood, and from a rule's line, to the job |
| `Tcp`, `Cidr`, `Sizes`, `Meaning` | the rule language: its parts, and what a whole line means |
| `Slot`, `Ring`, `PortName` | draining netmap rings, and port names |

## Where the code does not do what one expects

These are modelled as they are, and the exact condition is proved.

- `operator=` copies counters along with rules, so a stale thread doubles the master and loses
  what it had counted: `RoundLaw.Law` says by how much.
- A rule added, inserted or deleted at the console does not count as a change of rules, so the
  rates of the next round are examined, although every thread is stale in it. The count of a rule
  of another list is then true exactly if the rule had never counted anything, and no thread but the
  last brings it packets between copy and merge (`ConsoleEdits.EditedCountIsTrueIff`, and for any
  mixture of threads `RoundRates.CountIsTrueIff`). Such a check can swallow an alarm
  (`ConsoleEdits.EditSwallowsAlarm`), and so put it off by one period
  (`WatcherTheorems.EditDelaysAlarm`).
- A reload that lands inside a round can make the merge throw, which ends the watcher, or leave
  threads with old rules, or have wrapped rates examined. It is sure to do none of this exactly between
  rounds, before the first comparison, and before the first copy (`LateLoads.LateLoadCrashesIff`,
  `LateLoads.LateLoadLeavesStale`, `LateLoads.NothingPassedIff`, `LateLoads.DecideLoadWraps`).
- An option `=0` compares equal to an absent option (`Tcp.ZeroEqualsAbsent`); equal rules match
  alike exactly if the same comparisons are enabled (`Tcp.EqualOptionsMatchAlike`).
- `0.0.0.0/32` covers every address and `x/0` only `x`; these are the only wrong networks
  (`Cidr.CidrExact`). The plain address `0.0.0.0`, and one that cannot be read, is no range at all
  (`Cidr.AddressMeaning`). The number 0 never matches an enabled range.
- From 10^18 up the printing loop runs past its prefix table (`Sizes.ShortSizeIsExact`).
- An amount below 1 Kb that is not a multiple of 8 bits does not survive reading and printing
  (`Sizes.SizesRoundTrip`).
- Thresholds are cut to 32 bits, so a multiple of 2^32 counts as no threshold
  (`Rules.ParseAccepts`, `Rules.FullThresholdIsNone`).
- A packet alarm leaves the byte memory of that check alone (`Alarms.TwoLatches`,
  `Alarms.BpsAlarmSafety`).
- The memories start at zero, so the very first check over a threshold may fire at once
  (`Alarms.FirstCheckFires`).
- A port name may leave the ring number out if flags follow (`-/x`), and may put blanks and a sign
  before it (`PortNames.SuffixGrammar`).

## Model

| member | source | states |
|---|---|---|
| `RulesLists.RulesList.CheckList` | rules.hpp:99-118 | The per-packet loop, in place: the list becomes `Credited`, and the result is true exactly when some rule matches without `--next` |
| `RulesLists.WalkMeaning` | rules.hpp:103-118 | The walk on `Matches` and `next` alone: a rule that does not match, or matches with `--next`, leaves packet and verdict to the rules behind it; one that matches without it takes the packet and ends the walk |
| `RulesLists.CreditRuleMeaning` | rules.hpp:108-110 | What crediting does to a rule: one packet and its length modulo 2^64, one more for its destination modulo 2^32, and nothing else |
| `RulesLists.FirstMatchWins` | rules.hpp:103-118 | Rules behind the first match without `--next` neither change nor influence the outcome, whatever they are |
| `Rules.MatchesMeaning` | proto/tcp.cpp:71-75 | A rule matches by source and destination, each in its own range, and by its layer-4 options |
| `RulesLists.CreditsBySpec` | proto/tcp.cpp:68-156 | Which rules a packet credits depends on the rules' options alone, never on counters |
| `RulesLists.RulesList.Equals` | rules.cpp:8-15 | `operator==`: same length and pairwise equal options |
| `Rules.SameSpecMeaning` | proto/tcp.cpp:157-173 | Rules compare equal exactly if their ranges, `--next`, both thresholds, both periods and layer-4 options do |
| `RulesLists.SameRulesMeaning` | rules.cpp:8-15 | So lists that compare equal agree in thresholds, periods, `--next` and ranges at every index, and conversely |
| `RulesLists.RulesList.Assign` | rules.cpp:16-28 | `operator=` copies the rules with their counters, and the time stamp |
| `RulesLists.RulesList.MergeFrom` | rules.cpp:29-52 | `operator+=`: sums every counter pairwise modulo its width and zeroes the other side; unequal lengths are an error that changes only the time stamp; merging a list into itself does nothing |
| `RulesLists.MergedRuleMeaning` | proto/tcp.cpp:174-186 | What merging does to two rules: counters and table counts add up modulo their widths, what is merged is zeroed, the rest of both stays |
| `RulesLists.RulesList.CalcDelta` | rules.cpp:53-78 | Rates of every rule from the wrapped difference to the old counters; lists of unequal length are left alone |
| `RulesLists.DeltaRuleMeaning` | rules.cpp:70-75 | The packet rate comes from packets and the byte rate from bytes, each from a difference modulo 2^64 |
| `RulesLists.RulesList.CheckRule` | rules.cpp:84-95 | One rule at a check: it pushes a job exactly when it is triggered, with the victim of its table, and its table is cleared either way |
| `RulesLists.TriggeredMeaning` | proto/baserule.cpp:194-238 | When a rule fires, in its own rates, thresholds, periods, memories and table |
| `RulesLists.CheckedRuleMeaning` | rules.cpp:84-95 | What a check does to a rule: the table is cleared, calm memories move to now, counters and rates stay |
| `RulesLists.JobMeaning` | proto/baserule.cpp:239-259 | A job carries the action, kind and comment of its rule, and the victim of its table |
| `RulesLists.RulesList.CheckTriggers` | rules.cpp:79-96 | All rules in order, each at its own clock reading: the new list and the exact jobs pushed |
| `RulesLists.RulesList.AddRule` | rules.cpp:97-103 | A parsed rule goes to the end; a failed parse changes nothing |
| `RulesLists.AddMeans` | rules.cpp:97-103 | An added rule is the last one, and the others stay where they are |
| `RulesLists.EditMeans` | controld.cpp:156-239 | What each command of the console makes of a list |
| `RulesLists.RulesList.Clear` | rules.cpp:104-109 | No rule is left, the time stamp stays |
| `RulesLists.RulesList.DelRule` | rules.cpp:110-119 | Exactly rule `num` goes; an empty list or a number past the end is an error |
| `RulesLists.RulesList.InsertRule` | rules.cpp:120-138 | The rule goes before rule `num`; an empty list, a number past the end, or a failed parse is an error |
| `RulesLists.InsertMeans` | rules.cpp:130-137 | Where every rule stands after an insertion; deleting the same number undoes it |
| `RulesLists.DeleteMeans` | rules.cpp:114-118 | Where every rule stands after a deletion; a number past the end changes nothing; deleting the last undoes an addition |
| `Tallies.TallyMeaning` | rules.hpp:108-109 | The counters of a list of hits are their number and total length modulo 2^64 |
| `Tallies.TableMeaning` | proto/baserule.cpp:36-40 | The destination table knows exactly the addresses hit, each with its number of hits modulo 2^32 |
| `Tallies.TallyOfConcat` | proto/tcp.cpp:174-186 | Merging two rules' counters and tables is counting both packet lists in one |
| `Tallies.CreditCommutes` | rules.hpp:108-110 | The order of packets does not matter to counters or table |
| `Tallies.PlusAssociates` | proto/baserule.cpp:6-18 | The order of merges does not matter to counters or table |
| `Tallies.GetMax` | proto/baserule.cpp:46-58 | The in-order scan for the largest count: the lowest address among those with the highest count, zero for an empty table |
| `Tallies.VictimUnique` | proto/baserule.cpp:46-58 | That description fits one address only |
| `Sharding.FeedTally` | rules.hpp:103-118 | A rule's counters after a packet list are its old ones plus those of exactly the packets that credit it |
| `Sharding.FeedAnyOrder` | rules.hpp:99-118 | One list fed the same packets in any order ends up the same |
| `Sharding.StepTotal` | rules.cpp:29-96 | What each atomic step (packet at a thread, merge, rates, check) does to the sum over master and threads |
| `Sharding.ShardingRefinesOneList` | ddosdetector.cpp:43-57 | Any number of threads, any interleaving of packets, merges, rates and checks: master plus threads hold, per rule, what one list fed all packets in any order holds; destination counts too as long as no check clears the table, that is, from any state up to the next clear |
| `RoundLaw.Law` | ddosdetector.cpp:43-57 | The exact counter after the visits of a round, whatever the threads hold and wherever packets arrive, at whichever thread: `2^s * M` for `s` stale threads, plus, for each thread, what it brings times 2 to the number of stale threads after it, modulo 2^64; a thread is stale exactly if its rules differed from the master's at the start |
| `RoundLaw.FreshRoundConserves` | ddosdetector.cpp:43-57 | With no stale thread nothing is lost or counted twice |
| `RoundLaw.StaleRoundDoubles` | ddosdetector.cpp:45-57 | If every thread is stale and nothing slips in between a copy and its merge, the counter is multiplied by 2 to the number of threads, so counters of freshly loaded rules stay zero |
| `RoundLaw.RoundKeeps` | ddosdetector.cpp:43-57 | Every event of a round keeps the account the law rests on |
| `RoundLaw.MergeNoted` | rules.cpp:24 | A merge from a stale thread adds the master's own counter to it once more; one from a fresh thread adds what it has counted |
| `Doubling.VisitsAreClosedForm` | ddosdetector.cpp:45-57 | Visit-by-visit 64-bit arithmetic equals the closed form of the law |
| `Doubling.MovesExceed` | ddosdetector.cpp:45-57 | A counter never seems to move by less than what the threads brought, and by exactly that if and only if no thread that brought something has a stale thread after it, and none is stale if the counter was not zero |
| `RoundRates.RoundCounts` | rules.cpp:63-75 | Between two rounds nothing but the law decides what a rate is computed from: the difference to the snapshot, on 64 bits |
| `RoundRates.CountIsTrueIff` | ddosdetector.cpp:43-72 | Whatever the threads hold and wherever packets arrive: while the counter moves by less than 2^64, the count behind the next examined rate is never too low, and true exactly if no thread is stale, or the rule had counted nothing before and brings nothing ahead of a stale thread |
| `RoundRates.QuietCountIsTrueIff` | ddosdetector.cpp:43-72 | In a round that brings the rule nothing, the same without a bound |
| `RoundRates.ExaminedRates` | rules.cpp:71-74 | So the rate examined is never below the true one, and it is the true one if the count is |
| `ConsoleEdits.EditMakesStale` | controld.cpp:156-239 | A rule added, inserted or deleted at the console makes every thread stale, unless its number is past the end, which changes nothing |
| `ConsoleEdits.RunsSettle` | ddosdetector.cpp:58-72 | Between rounds, in every run, master and snapshot agree on the counters, and all threads have the master's rules |
| `ConsoleEdits.EditedCountIsTrueIff` | controld.cpp:156-239 | Such an edit leaves the change stamp alone, so the next rates are examined; the count of a rule of another list is then true exactly if the rule had never counted anything and only the last thread brings it something between copy and merge, and else too high |
| `ConsoleEdits.PhantomRate` | rules.cpp:71 | With one thread, left alone: the watcher's steps after an edit reach the end of a round whose check has examined, as the rate of that tick, all that the rule had ever counted |
| `ConsoleEdits.PhantomAlarm` | proto/baserule.cpp:201-210 | A check of such a rate, over the threshold and with the period over, alarms exactly if the table is not empty, and starts the period anew either way |
| `ConsoleEdits.EditSwallowsAlarm` | proto/baserule.cpp:201-210 | So with an empty table, as a check leaves it, the round after an edit takes the period away and raises no alarm |
| `ConsoleEdits.EditedListKeepsRates` | rules.cpp:61 | The edited list differs in length from its snapshot, so its rules are examined with the rates of the round before |
| `LateLoads.LateLoadCrashesIff` | rules.cpp:38-49 | A reload inside a round, whatever packets come: the round crashes exactly if the reload hits a thread between comparison and merge and changes the length of a list still to be merged uncompared |
| `LateLoads.CrashIsReachable` | rules.cpp:38-49 | From every start the exception is within reach: reload another number of TCP rules after the first comparison |
| `LateLoads.LateLoadLeavesStale` | ddosdetector.cpp:45-57 | Which threads such a reload leaves with old rules: those with a list already passed whose rules differ from the new ones |
| `LateLoads.NothingPassedIff` | ddosdetector.cpp:45-52 | The places where no list can be left behind: between rounds, before the first comparison, and before the first copy |
| `LateLoads.LateLoadRates` | ddosdetector.cpp:62-72 | And what the check in the round after sees: while the counter moves by less than 2^64, a true count exactly if no thread has old rules, or the rule has counted nothing since and brings nothing ahead of such a thread |
| `LateLoads.DecideLoadWraps` | ddosdetector.cpp:58-72 | A reload between snapshot and decision has the new counters set against the old snapshot, and the wrapped difference examined |
| `Doubling.OldSnapshotIsTrueIff` | rules.cpp:70-74 | Even with nothing doubled, that difference is true exactly if the old counter was zero |
| `Collections.RulesCollection.Differs` | rules.cpp:244-247 | Staleness is judged on all three lists together |
| `Collections.RulesCollection.Assign` | rules.cpp:248-259 | All three lists are copied, and the change stamp is a new clock reading; assigned to itself, a collection stays as it is |
| `Collections.RulesCollection.MergeFrom` | rules.cpp:260-269 | Lists merge in order and stop at the first length mismatch; the lists before it are merged, those behind it untouched; merged into itself, a collection stays as it is |
| `Collections.MergeStops` | rules.cpp:260-269 | List by list: merged exactly if it and all before it have equal lengths; the first that has not only gets the stamp, those behind it nothing |
| `Collections.RulesCollection.CalcDelta` | rules.cpp:305-313 | Rates of all three lists; against itself, nothing changes |
| `Collections.RulesCollection.CheckTriggers` | rules.cpp:314-320 | Checks of all three lists, each rule at its own clock reading, jobs in the order TCP, UDP, ICMP |
| `Collections.RulesCollection.CheckFrame` | collector.cpp:49-104 | A frame is counted in the list of its protocol and in no other; frames of no known protocol change nothing |
| `Collections.FrameMeaning` | collector.cpp:49-104 | Which list a frame changes, and which list gives its verdict |
| `Collections.RulesCollection.Command` | controld.cpp:156-239 | A command changes the list it names, as its edit says, and no other |
| `WatcherLoop.Watcher.constructor` | ddosdetector.cpp:35-41 | The snapshot starts as a copy of the master's rules |
| `WatcherLoop.Watcher.VisitThread` | ddosdetector.cpp:45-57 | Compare, copy if stale, merge: the new master, the zeroed thread, and the other threads untouched; the merge cannot throw |
| `WatcherLoop.Watcher.VisitAll` | ddosdetector.cpp:43-57 | The loop over the threads, on objects |
| `WatcherLoop.Watcher.TakeRates` | ddosdetector.cpp:58-61 | Rates from the old snapshot, then a new snapshot equal to the master |
| `WatcherLoop.Watcher.Decide` | ddosdetector.cpp:62-72 | Triggers are checked only if the change stamp is the one of the last round; otherwise it is taken over and nothing is pushed |
| `WatcherLoop.Watcher.Round` | ddosdetector.cpp:42-75 | A whole round on objects, left alone, is a run of the protocol from an idle watcher to an idle watcher, and pushes exactly the jobs of its check |
| `WatcherLoop.Watcher.Reload` | rules.cpp:327-399 | A reload of the file, on the objects, is the reload event of the protocol, list by list in the order TCP, UDP, ICMP |
| `WatcherLoop.Watcher.Command` | controld.cpp:156-239 | A command of the console, on the objects, is the edit event of the protocol |
| `RoundSteps.VisitSteps` | ddosdetector.cpp:48-55 | The protocol's four atomic steps for a fresh thread, seven for a stale one, run without interference, are the visit the objects make |
| `RoundSteps.RoundReaches` | ddosdetector.cpp:42-75 | And all steps of a round are the round they make |
| `RoundSteps.PacketsPassBy` | rules.cpp:244-320 | Steps that stand for one critical section per protocol commute with packets, so taking them as one loses nothing |
| `WatcherTheorems.SyncIsSound` | ddosdetector.cpp:45-57 | In every run with reloads and console edits between rounds: the merge never throws, and after the last visit every thread has the master's rules |
| `WatcherTheorems.WatcherNeverStuck` | rules.cpp:61-66 | The watcher's next step is always defined; in particular time has passed when rates are computed |
| `WatcherProgress.ReachesDecide` | ddosdetector.cpp:42-75 | From every state of every run, the watcher left alone ends its round: a measure falls with each atomic step |
| `WatcherProgress.ChecksAreReached` | ddosdetector.cpp:62-72 | And it comes to check the triggers, at the latest in the round after the one that notices a reload |
| `WatcherTheorems.ExaminedRatesAreTrue` | ddosdetector.cpp:59-72 | Reload safety: every rate a check examines is the rounded true number of packets, or bytes, merged this tick, and a positive rate knows a destination, except right after a console edit |
| `WatcherTheorems.ReloadsDoNotTaint` | ddosdetector.cpp:62-72 | Runs without console edits never meet that exception |
| `WatcherTheorems.SustainedFloodAlarms` | proto/baserule.cpp:194-216 | A rule over its packet threshold at every check of a span longer than its period, counted from the last check in it right after an edit, fires in that span |
| `WatcherTheorems.SustainedByteFloodAlarms` | proto/baserule.cpp:217-236 | The same for bytes: a byte alarm in that span, unless there is a packet alarm in it |
| `WatcherTheorems.EditDelaysAlarm` | proto/baserule.cpp:203-210 | How long an edit can put an alarm off: if the check right after it finds the period over and no destination, the alarm comes at the first check more than a period later, and not before |
| `WatcherTheorems.AlarmsAreBounded` | proto/baserule.cpp:194-238 | In any `W` seconds a rule fires at most `W/(pp+1) + W/(bp+1) + 2` times, edits of other lists or not |
| `WatcherTheorems.ChecksDecideJobs` | rules.cpp:84-95 | The checks these theorems speak of see the rates of the rule, and are those that decide whether a job is pushed |
| `WatcherTheorems.ReportedVictimIsMostFrequent` | proto/baserule.cpp:239-259 | When a rule fires, the reported address is the most frequent destination among the packets the rule matched, over all threads, merged since the tables were last cleared; ties go to the lowest address |
| `WatcherTheorems.EditFreeRunsAreSound` | ddosdetector.cpp:62-72 | Runs without reloads and edits meet the side conditions of the theorem above at every check |
| `WatcherTheorems.RatesAddUp` | rules.cpp:63-75 | Rates times tick lengths add up to the packets, and bytes, merged, within half a unit per second |
| `WatcherInvariants.MergeAligns` | rules.cpp:38-49 | Why the exception is out of reach: at every merge step of every run the lengths agree, and alignment is kept |
| `WatcherInvariants.TallyKept` | rules.hpp:103-118 | Every thread's counters are those of the packets it has credited since they were last merged or overwritten |
| `WatcherRates.RoundKept` | rules.cpp:63-75 | Through a round the master moves from the snapshot by exactly what was merged |
| `WatcherRates.PositiveRateIsKnown` | proto/baserule.cpp:206-209 | A positive rate means a non-empty destination table |
| `WatcherRates.StepKeeps` | ddosdetector.cpp:42-75 | Every step of the protocol keeps the whole invariant |
| `WatcherRates.RunKeeps` | ddosdetector.cpp:42-75 | So does every run |
| `Rates.RatePositive` | rules.cpp:71-74 | A positive rate means that something was counted |
| `Rates.RateMeaning` | rules.cpp:71-74 | A rate is the whole number nearest to the quotient per second |
| `Rates.RateClose` | rules.cpp:71-74 | A rate times its tick is within half a unit per second of the count |
| `Rates.RatesIntegrate` | rules.cpp:63-75 | Rates over any sequence of ticks integrate back to the counts |
| `Alarms.IsTriggered` | proto/baserule.cpp:194-238 | The nested branches, early return included: whether the rule fires, and both memories afterwards |
| `Alarms.AlarmMeaning` | proto/baserule.cpp:198-236 | When a call raises a packet alarm, and when a byte alarm, in plain numbers |
| `Alarms.MemoryMeaning` | proto/baserule.cpp:198-236 | When each memory moves to now, and when a packet alarm leaves the byte memory alone |
| `Alarms.TwoLatches` | proto/baserule.cpp:198-236 | The method is two latches side by side; the byte latch does not see a check in which the packet latch fired |
| `Alarms.PpsAlarmSafety` | proto/baserule.cpp:198-216 | A packet alarm at `t` means every earlier check since `t - period` was over the threshold and fired no packet alarm |
| `Alarms.BpsAlarmSafety` | proto/baserule.cpp:217-236 | A byte alarm means every check in its window was over the byte threshold or pre-empted by a packet alarm, and fired no byte alarm |
| `Alarms.AlarmRateBound` | proto/baserule.cpp:194-238 | The bound on alarms in any span of checks |
| `Alarms.AlarmCountMeaning` | proto/baserule.cpp:194-238 | What is counted there: the checks of the span whose outcome is an alarm |
| `Alarms.SustainedPpsAlarms` | proto/baserule.cpp:198-216 | A known destination and a sustained excess longer than the period fire at least once |
| `Alarms.SustainedBpsAlarms` | proto/baserule.cpp:217-236 | The same for bytes, where no packet alarm comes first |
| `Latches.FiringIsSustained` | proto/baserule.cpp:200-215 | A latch fires only after a period without a calm check or a firing |
| `Alarms.SwallowedAlarmDelays` | proto/baserule.cpp:201-210 | An expiry with no destination known raises no alarm and resets the memory; the alarm follows at the first check more than a period later, and not before |
| `Alarms.FirstCheckFires` | proto/baserule.cpp:157-162 | With the memory of a new rule the very first check fires at once, exactly if it is over the packet threshold, or else over the byte threshold |
| `Latches.SustainedFires` | proto/baserule.cpp:200-215 | A latch that is over for longer than its period fires |
| `Latches.FiringsBounded` | proto/baserule.cpp:203-205 | Firings of a latch are more than a period apart |
| `Latches.QuotaMeaning` | proto/baserule.cpp:203-205 | The quota of a span: one, and one more for each whole period and second in it |
| `Queues.TsQueue.Push` | lib/queue.hpp:35-42 | Adds at the end |
| `Queues.TsQueue.WaitAndPop` | lib/queue.hpp:25-34 | Takes the front, or nothing from an empty queue |
| `Queues.DeliveryInOrder` | lib/queue.hpp:25-42 | Under any interleaving, jobs taken followed by jobs waiting are the jobs pushed, in order |
| `Deliveries.AlarmsAreDelivered` | ddosdetector.cpp:62-72 | Watcher, packets, reloads, pushes one by one, and task runner in any interleaving: jobs executed, jobs waiting, and jobs still to be pushed are together, in order, the jobs of the run |
| `Deliveries.ExecutedJobsAreAPrefix` | ddosdetector.cpp:120-135 | So the executed jobs are a prefix of the jobs of the run, and all of them once nothing waits |
| `Deliveries.PushedAreFirings` | rules.cpp:84-95 | The jobs of a run are those of its firings, one for one and in their order, each of the rule as it stood at its check |
| `Deliveries.FiringsAreAll` | rules.cpp:84-95 | The firings of a run are exactly the rules triggered at its checks |
| `Deliveries.FiringsInOrder` | rules.cpp:314-320 | They come in the order of checks, then TCP, UDP, ICMP, then rules, none twice |
| `Deliveries.FiredMeaning` | rules.cpp:84-95 | The firings of one list at one check are exactly its triggered rules, in ascending order |
| `Deliveries.JobsAreFirings` | rules.cpp:84-95 | The check of one list pushes one job for each firing, in rule order |
| `Alerts.FloodFires` | rules.cpp:84-95 | A sustained flood, of packets or of bytes, is among the firings of the run, at one of the checks of its span |
| `Alerts.FiringsAreBounded` | rules.cpp:84-95 | From any check on, the firings of a rule are within its quotas |
| `Alerts.TimesMeaning` | rules.cpp:84-95 | What is counted there: the firings of the rule from that event on |
| `Alerts.FloodIsActedOn` | ddosdetector.cpp:120-135 | End to end, in every interleaving: the flood's firing has its job executed, or waiting; once nothing waits it has been executed |
| `JobLines.RunWritten` | rules.cpp:97-138 | Every rule the master ever holds is the rule of a line, of a file or of the console |
| `JobLines.JobSaysItsLine` | proto/baserule.cpp:163-259 | The job of a firing carries what the line of its rule says: the action or `syslog`, the comment or nothing, the kind, and the victim of the table |
| `Rules.ParseRule` | proto/baserule.cpp:163-193 | A rule that parses has a range, a threshold, a period for each threshold, and zero counters |
| `Rules.ParseStores` | proto/baserule.cpp:163-185 | What an accepted line leaves in its rule: kind, `--next`, comment, action and periods, or their defaults |
| `Rules.ParseAccepts` | proto/baserule.cpp:163-193 | Exactly which lines are accepted, with one threshold, both or none, and thresholds cut to 32 bits |
| `Rules.ParseRejects` | proto/baserule.cpp:163-193 | An unreadable size, action or layer-4 option is never accepted |
| `Rules.FullThresholdIsNone` | proto/baserule.hpp:120-121 | A line with `--pps-th 4294967296p` for its only threshold is rejected, and with one more it is accepted |
| `Collections.RulesCollection.AddLine` | rules.cpp:340-386 | One line adds at most one rule, to the list of its kind; comments, unknown kinds and bad rules add none |
| `Collections.RulesCollection.AddLines` | rules.cpp:336-387 | The loop over the lines, into empty lists: each list becomes the valid lines of its kind in file order |
| `Collections.RulesFileLoader.ReloadConfig` | rules.cpp:327-399 | A reload leaves each list equal to the valid lines of its kind in file order; a missing file changes nothing |
| `Collections.ValidLinesMean` | rules.cpp:336-387 | Which rule comes from which line: the rules of a kind are, in file order, those of exactly the lines that name the kind first and parse |
| `Validity.ValidLinesAreValid` | rules.cpp:336-387 | Every rule read from a file is usable |
| `Validity.ApplyKeeps` | rules.cpp:97-138 | Add, insert, delete, reload, copy, merge, count, rates and check all keep every rule usable |
| `Validity.StoredRulesAreValid` | rules.cpp:97-138 | So does any run of them, over any number of collections |
| `Validity.StoredRuleIsUsable` | proto/baserule.cpp:186-192 | So every stored rule has a range, a threshold, and a period for each threshold |
| `Tcp.BitsetFromString` | parser.hpp:148-175 | The loop over flag tokens: accepted exactly if every token is well-formed and there is one; bits and mask record the last mention of each flag |
| `Tcp.FlagTokens` | parser.hpp:163-170 | The twelve tokens that are accepted |
| `Tcp.LastMentionMeans` | parser.hpp:170-171 | A token decides its flag, 1 for set and 0 for clear, and leaves the others to earlier tokens |
| `Tcp.NumCompAccepts` | parser.hpp:109-128 | Exactly which comparisons are accepted, and what is stored of them |
| `Tcp.ParseTcpAccepts` | proto/tcp.cpp:43-66 | TCP options are accepted exactly if each comparison and the flag list is |
| `Tcp.FlagsMeanLastMentions` | proto/tcp.cpp:9-14 | Bits are a subset of the mask, so the test is satisfiable; a header passes exactly if each named flag has the value of its last mention |
| `Tcp.ParseTcpGivesParsed` | proto/tcp.cpp:43-66 | What parsing can produce: a range is enabled unless it is 0-0, an absent comparison is the default |
| `Tcp.ParseGivesParsed` | proto/tcp.cpp:28-67 | So whole rules that parse are of the form the next three statements speak of |
| `Tcp.EqualOptions` | proto/baserule.cpp:138-142 | Options that compare equal are identical, except that `=0` equals an absent option |
| `Tcp.EqualOptionsAre` | proto/tcp.cpp:157-173 | Parsed options compare equal exactly if ranges and flags are identical, and comparisons too up to `=0` for an absent one |
| `Tcp.EqualOptionsMatchAlike` | proto/tcp.cpp:157-173 | Options that compare equal, and that some header passes, match the same headers exactly if the same comparisons are enabled |
| `Tcp.EqualListsCreditAlike` | proto/tcp.cpp:157-173 | So equal lists with the same comparisons enabled credit the same rules and give the same verdict |
| `Tcp.ZeroEqualsAbsent` | proto/baserule.cpp:139-142 | Two rules that compare equal and a header that only one of them matches |
| `Tcp.TcpIsReflexive` | proto/tcp.cpp:157-173 | `TcpRule` is an instance of the generic protocol |
| `Meaning.RuleMeansItsLine` | proto/tcp.cpp:28-156 | Parsing and matching together: an accepted TCP line matches exactly the packets whose addresses it admits, whose ports lie in its ranges, whose numbers compare as written, the header length in bytes, and whose six flag fields have the values last written for their letters |
| `Meaning.NumberMatches` | proto/baserule.cpp:124-135 | What `=`, `>` and `<` compare |
| `Meaning.PortsMatch` | proto/baserule.cpp:68-80 | Port 0 is in no range, and 0-0 is no range |
| `Meaning.LettersAreFields` | proto/tcp.cpp:124-131 | The letters U, A, P, R, S, F stand for the header's fields of those names |
| `Meaning.SynMatches` | proto/tcp.cpp:119-134 | A literal line: `S:1` is matched by packets with SYN and by no others |
| `Meaning.TriggersMeanWhatTheySay` | proto/baserule.cpp:163-193 | The thresholds, periods, kind, action, comment and `--next` stored are those written, with thousands on 64 bits, bits as bytes, the result on 32 bits, and the defaults where nothing is written |
| `Cidr.AddressMeaning` | parser.cpp:52-90 | What every written address admits: plain, with a number of bits, or unreadable, the odd cases included |
| `Cidr.RangeClosed` | parser.cpp:63-77 | The bit operations give the aligned block of 2^(32-k) addresses around the address |
| `Cidr.CidrMatches` | parser.cpp:63-77 | An address matches exactly if it is not zero and agrees on the top `k` bits (section 3.1 of RFC 4632) |
| `Cidr.CidrExact` | parser.cpp:64-73 | That is so for all `k` up to 32, except exactly `0.0.0.0/32` and `x/0` with `x` not zero |
| `Cidr.NestedOrDisjoint` | parser.cpp:63-77 | Two networks are nested or disjoint |
| `Sizes.FromShortSize` | parser.cpp:140-173 | The scaling loop and every error case, on 64 bits |
| `Sizes.SizeAccepted` | parser.cpp:140-166 | Exactly which sizes are accepted: a number, and one of six units |
| `Sizes.UnitsAre` | parser.hpp:29-34 | The units in order, each a thousand of the one before |
| `Sizes.SizeMeans` | parser.cpp:157-172 | A number and a known unit are read as the number times its power of 1000, modulo 2^64, with bits turned into bytes |
| `Sizes.ToShortSize` | parser.cpp:116-138 | The printing loop, and the unit printed, or none past the end of the table |
| `Sizes.UnitsPerSecond` | parser.hpp:23-34 | The units printed are the units read, per second |
| `Sizes.ShortSizeIsExact` | parser.cpp:122-126 | The printed digits and decimals bracket the value, and the prefix index is within its table exactly for values below 10^18 |
| `Sizes.SizesRoundTrip` | parser.cpp:116-173 | Reading `m` with prefix `j` and printing gives `m` and `j` back, exactly if it is packets, or `j > 0`, or 8 divides `m` |
| `Sizes.BitsRoundTrip` | parser.cpp:120-126 | The same for a value in bits that is stored in bytes |
| `Sizes.PacketsRoundTrip` | parser.cpp:122-126 | The same for a value in packets |
| `Rings.WindowMeaning` | sys/net/netmap_user.h:122-147 | `nm_ring_space` is the number of slots from `cur` to `tail`, and `nm_ring_next` walks them in circular order |
| `Rings.WindowHasExactly` | sys/net/netmap_user.h:122-147 | The walk visits exactly the slots of `[cur, tail)` |
| `Rings.WindowHasNoRepeats` | sys/net/netmap_user.h:122-147 | It visits none of them twice |
| `Rings.NetmapPoller.GetBuffFromRing` | collector.cpp:21-33 | The current slot, or nothing exactly if the ring is empty; both ring flags are set |
| `Rings.NetmapPoller.SetForward` | collector.cpp:34-37 | Marks the current slot and no other |
| `SlotFlags.MarkedMeaning` | collector.cpp:36 | Marking sets bit 0x0004 of the flags; the other bits, the buffer and its length stay |
| `Rings.NetmapPoller.Next` | collector.cpp:38-42 | Moves `cur` and `head` one on, around the end |
| `Rings.DrainStep` | collector.cpp:126-138 | One turn counts one frame once, and marks its slot exactly if it hit on ring 0 |
| `Rings.Drain` | collector.cpp:122-139 | The loop ends, hands each slot of `[cur, tail)` to the rules once in circular order, empties the ring, and marks exactly the slots that hit, on ring 0 only |
| `Rings.ForwardBits` | collector.cpp:122-139 | Bit by bit: afterwards the forward bit of a slot is set exactly if it was before, or the slot was visited on ring 0 and its frame hit; all other bits stay |
| `Rings.FedFramesFeed` | collector.cpp:122-139 | Each list is fed exactly the packets of its protocol, in slot order |
| `Rings.NetmapDesc.NextPkt` | sys/net/netmap_user.h:983-1013 | The first non-empty ring from the current one round; nothing is returned exactly if all are empty, and then nothing has changed |
| `PortNames.StrtolReads` | sys/net/netmap_user.h:683-684 | A written number is read to its end |
| `PortNames.StrtolFinds` | sys/net/netmap_user.h:683-684 | What is read is a written number, or nothing at all, which stands for zero |
| `PortNames.LettersMeaning` | sys/net/netmap_user.h:692-714 | The flags depend on the set of letters alone |
| `PortNames.Characters` | sys/net/netmap_user.h:629-634 | Which characters separate, set flags, sign a number, or may stand before one |
| `PortNames.RingSuffixes` | sys/net/netmap_user.h:639-668 | Which ring suffix stands for which mode, in the numbers of the kernel |
| `PortNames.FlagSuffixes` | sys/net/netmap_user.h:692-714 | Which letter sets which flag |
| `PortNames.WordSaysAll` | sys/net/netmap.h:515-529 | Mode and flags share no bit of the word |
| `PortNames.WordIs` | sys/net/netmap.h:515-529 | Which bit of the word is which flag |
| `PortNames.SuffixGrammar` | sys/net/netmap_user.h:637-720 | The automaton accepts exactly the suffixes of a written grammar, and with the ring number and flags the grammar gives |
| `PortNames.ReadSuffix` | sys/net/netmap_user.h:637-720 | The state loop ends, although its number state may consume nothing, and computes that |
| `PortNames.ReadPortName` | sys/net/netmap_user.h:623-720 | A whole name is accepted exactly if it is a recognised prefix, a name of fewer than 16 plain characters and such a suffix |
| `PortNames.NamesAreRead` | sys/net/netmap_user.h:623-636 | Up to fifteen characters that are no separators, behind `netmap:` or beginning with `vale`, are a name, whatever suffix follows |

## Left out

- `proto/udp.cpp` and `proto/icmp.cpp` as rule types of their own: the same shape as `TcpRule`; lists and collections are generic, and one protocol type stands for all three lists of a collection.
- Input and output: sockets, files, logging, InfluxDB, the control server, signals, `main`, and running the action of a job. A rules file is a list of token lists.
- Tokenizing, option parsing, reading IP addresses and port ranges from text, `stoul` and its range error: numbers, addresses and tokens are inputs, and a failed conversion is an error value or `Unreadable`.
- Reading headers out of raw frames: a frame is a record of protocol, addresses, length and header fields, in the Linux branch; FreeBSD branches are not modelled.
- Floating point: rates are exact quotients of real numbers rounded to the nearest integer, and a rate of 2^64 or more is not cut; the decimals of a printed size are an integer of thousandths.
- Sizes.ToShortSize: the text itself, whose two decimals come from a rounded float.
- Clocks are inputs. In the protocol no clock goes back, and the merge clock moves on in the pause between rounds; the change stamps of two loads differ; each rule reads the wall clock for itself.
- Locks: each list method is one atomic step, and `boost::lock` never deadlocks. `operator+=` takes its time stamp just before locking; the model takes both at once.
- Edits from the console inside a round, and reloads in pieces: in the runs of the protocol both land between rounds; `LateLoads` has one reload land anywhere inside a round, all three lists and the stamp in one step. `Validity` covers edits at any time, and `RoundLaw` any mixture of stale threads.
- RoundRates.CountIsTrueIff: while the move of the counter stays below 2^64; an error that is a multiple of 2^64 would not show. In a round that brings the rule nothing, `RoundRates.QuietCountIsTrueIff` needs no such bound.
- RoundRates.ExaminedRates: the same bound.
- ConsoleEdits.EditedCountIsTrueIff: the same bound.
- LateLoads.LateLoadRates: the same bound.
- WatcherTheorems.ReportedVictimIsMostFrequent: needs destination counts below 2^32, and no reload or edit since the check before, because either may leave a table doubled until the next check.
- Sharding.ShardingRefinesOneList: rules stay the same in it; stale threads are the matter of `RoundLaw`, and for destination counts it speaks up to the next clear.
- RoundSteps.VisitSteps: one visit without interference, as a sequential method has it; packets during a visit are the matter of the protocol and of `RoundLaw.Law`.
- RoundSteps.RoundReaches: the same for a round.
- WatcherLoop.Watcher.VisitAll: at least one thread.
- WatcherLoop.Watcher.Round: at least one thread, clocks that do not go back, and a pause between rounds that is not zero.
- RulesLists.RulesList.CalcDelta: no time between two snapshots, or a clock gone back, makes the source convert an infinite, undefined or negative quotient to an unsigned number, which has no defined result.
- Collections.RulesCollection.CalcDelta: the same.
- WatcherLoop.Watcher.TakeRates: the same.
- Cidr.CidrExact: more than 32 bits is a shift by a negative amount in the source, which has no defined result.
- Rings.Drain: the rules stay the same while a ring is drained; a copy by the watcher that lands between two frames is not modelled there. Frames are decoded by a function of buffer index and length, since buffers do not change while a thread owns them; the kernel moves `tail` only in system calls, so it is constant here. Time stamps of packets, buffer addresses, polling and memory mapping are not modelled.
- PortNames.ReadPortName: the parsing half of `nm_open`; opening the device is not modelled, and neither is the text of error messages.
- `nm_inject` and `nm_dispatch`: they do not visit every ring when they wrap around, so nothing is claimed of them.
- `get_rules` and `get_influx_querys`: sums and text.
- A destination table of 2^32 addresses, whose size would wrap to zero.
- The endless loops themselves: one round, one drain and one step of the queue are methods; runs of any length are sequences of steps.
