# Whiteout Survival autopilot: a verified model of its orchestration core

The autopilot drives the mobile game *Whiteout Survival* on Android devices.
For every gamer it keeps a priority queue of *use cases* (small scripts of
clicks, swipes, waits, loops and conditions). The bot takes the best use
case for the current screen off the queue and navigates to that use case's
start screen. It then checks the game state and runs the use case's steps.
A use case can put itself on cooldown, and it can push further use cases.

This project models that core in Dafny and proves what the code promises:

- the screen graph, its shortest-path search and the start-up check of the
  transition table (`Fsm`, `Transitions`);
- the navigator that walks the game from screen to screen (`Navigator`);
- the screen resolver that decides which screen the game is on
  (`ExpectStates`);
- the per-gamer Redis priority queue, its preloading and its cron refill
  (`RedisQueue`, `Preloader`, `Refill`);
- the step interpreter (`Executor`) and the bot's play loop (`Bot`);
- the detection of the gamer on the device and its active-gamer lookup
  (`Device`);
- the helpers those parts use:
  - text matching (`Text`, `TextCompare`);
  - the CEL bindings `compareText` and `isMax` (`TextCompare`, `IsMax`, `Cel`);
  - the duration parser (`TimeParse`);
  - the OCR result filters (`Ocr`);
  - the hero searches (`Heroes`);
  - the device configuration merge and sort (`Devices`, `Sorting`);
  - the gamer record and its screen state (`Gamers`);
  - the use-case types and rule validation (`UseCases`).

Everything outside the program is a parameter of the model. This covers:

- the Android device: whether an action fails, given the history of actions so far;
- the screen analyzer, the OCR service, the area (region) lookup and the fuzzy ranking;
- the CEL trigger evaluator and the dotted-path state writer;
- the use-case loader;
- JSON encoding, as a `Codec` that round-trips everything except `SourcePath` (and, in Go, the int kind of a number in `to`);
- Redis failures, as an oracle on the number of the round trip.

A Go `context` is modelled as a number of polls that still find it live.

Parts of the code that change state in place are classes with `modifies`
clauses: the navigator, the Redis client, the queue, the interpreter, the
bot, the device, the gamer and its screen state. Each method is proved
against a function or relation on values (`ForceTo` against `Navigates`,
its passes of `RunFrom`; the bot's loop against `Plays`; `RunStep` against `Interp`, `PreloadQueues` against `PreloadAll`, `RunJob` against
`RefillJob`). Lemmas then state what those functions promise.

## Model

| member | source | states |
|---|---|---|
| UseCases.Validate | internal/domain/usecase.go:81-88 | the rule is accepted exactly when its action is one of text, exist, color_check, findIcon, findText; otherwise the error names the action and the rule |
| UseCases.ValidateDependsOnlyOnAction | internal/domain/usecase.go:81-88 | two rules with the same action are both accepted or both rejected |
| UseCases.ValidateRejectsVariants | internal/domain/usecase.go:82-87 | the empty action and case variants of the known actions are rejected |
| UseCases.Strip | internal/domain/usecase.go:9-19 | the JSON copy of a use case has an empty source path and keeps name, priority, node, trigger, TTL, cron and the number of steps |
| UseCases.StripIdempotent | internal/domain/usecase.go:18 | serialising a copy again loses nothing more: stripping twice is stripping once |
| UseCases.StripAllIdempotent | internal/domain/usecase.go:75-79 | the same for the use-case lists of push directives, at every depth |
| Text.Lower | internal/config/func_textcompare.go:20-21 | lower-casing keeps the length and maps every character through the ASCII lower-case map |
| Text.LowerIdempotent | internal/config/func_textcompare.go:53-54 | lower-casing twice is lower-casing once |
| Text.TrimSpaceIsSlice | internal/device/detected_gamer.go:75 | the trimmed text neither starts nor ends with white space, and what was removed is a run of white space at each end |
| Text.TrimSpace | internal/device/detected_gamer.go:75 | the result is no longer than the input, neither starts nor ends with white space, and is non-empty whenever the input has a character that is not white space |
| Text.LessIrreflexive | internal/domain/gamer.go:52-54 | Go's string order is irreflexive |
| Text.LessTransitive | internal/domain/gamer.go:52-54 | Go's string order is transitive |
| Text.LessTotal | internal/domain/gamer.go:52-54 | any two different strings are ordered one way or the other |
| Text.LessAsymmetric | internal/domain/gamer.go:52-54 | Go's string order is asymmetric |
| TextCompare.EditDistanceSelf | internal/config/func_textcompare.go:30-34 | a text is at edit distance 0 from itself |
| TextCompare.FuzzySubstringMatch | internal/config/func_textcompare.go:19-39 | the loop with early return decides FuzzyMatch: false for an empty needle; whole-text distance when the haystack is shorter; otherwise some needle-length window within maxDist |
| TextCompare.ExactOccurrenceMatches | internal/config/func_textcompare.go:33-38 | an exact case-insensitive occurrence of a non-empty needle matches for every maxDist >= 0 |
| TextCompare.FuzzyMatchIgnoresCase | internal/config/func_textcompare.go:20-21 | lower-casing either argument first does not change the answer |
| TextCompare.FuzzyMatchMonotone | internal/config/func_textcompare.go:30-38 | a larger tolerance never turns a match into a mismatch |
| TextCompare.CompareText | internal/config/func_textcompare.go:46-70 | false unless both values are non-empty strings; true when the lower-cased second contains the lower-cased first; true when the first has at least 4 characters and fuzzy-matches in the second within 1; a true answer for a first argument shorter than 4 means containment; any true answer is a fuzzy match within 1 |
| IsMax.IsMaxBinding | internal/config/func_isMaxBinding.go:10-38 | true exactly when there are at least two arguments, all integers, and every other one is strictly below the first; fewer than two, a non-integer first or an argument equal to the first give false |
| TimeParse.RemoveSpaces | internal/analyzer/parse_time_duration.go:17 | the result has no space and is no longer than the input |
| TimeParse.RemoveSpacesAppend | internal/analyzer/parse_time_duration.go:17 | removing spaces distributes over concatenation, so the remaining characters keep their order |
| TimeParse.RemoveSpacesCounts | internal/analyzer/parse_time_duration.go:17 | every non-space character is kept exactly as often as it occurs; the length drops by the number of spaces |
| TimeParse.RemoveSpacesIdentity | internal/analyzer/parse_time_duration.go:17 | a text without spaces is unchanged |
| TimeParse.LeadingDigits | internal/analyzer/parse_time_duration.go:32-33 | the length of the maximal run of digits at the start |
| TimeParse.NatToStringValue | internal/analyzer/parse_time_duration.go:40-49 | reading back a rendered number gives the number |
| TimeParse.RenderRoundTrip | internal/analyzer/parse_time_duration.go:32-51 | a duration written with the units d, h, m, s in that order parses to its total in seconds |
| TimeParse.CompactRoundTrip | internal/analyzer/parse_time_duration.go:20-29 | the compact form N d HH MM SS parses to its total, with no range check on the two-digit fields |
| TimeParse.CompactExample | internal/analyzer/parse_time_duration.go:10-14 | 42d171612 is 42 days, 17 hours, 16 minutes and 12 seconds |
| TimeParse.DaysHoursMinutesRoundTrip | internal/analyzer/parse_time_duration.go:10-14 | a duration of days, hours and minutes with no seconds (the 3d4h30m example) parses to its total |
| TimeParse.MinutesSecondsRoundTrip | internal/analyzer/parse_time_duration.go:10-14 | a duration of minutes and seconds (the 90m10s example) parses to its total |
| TimeParse.OutOfOrderUnitEndsParse | internal/analyzer/parse_time_duration.go:32-51 | a unit out of order ends the parse: minutes then hours read as the minutes alone |
| TimeParse.NoLeadingGroupIsZero | internal/analyzer/parse_time_duration.go:32-33 | input that does not start with a digit after cleaning reads as 0, since the free form always matches |
| TimeParse.ParseTimeDuration | internal/analyzer/parse_time_duration.go:16-51 | the compact form when it matches the cleaned text, else the free form; a result above 0 needs a digit at the start of the cleaned text |
| TimeParse.ParseFree | internal/analyzer/parse_time_duration.go:20-33 | a plain text not in the compact form is read field by field |
| TimeParse.EndsInUnitNotCompact | internal/analyzer/parse_time_duration.go:20 | a text ending in a unit letter is never in the compact form |
| Ocr.MakeRect | internal/domain/ocr.go:41-75 | a rectangle from two corners has ordered bounds and the given coordinates |
| Ocr.FilterMembership | internal/domain/ocr.go:24-36 | a result is kept exactly when it is in the input and passes the test |
| Ocr.FilterSubsequence | internal/domain/ocr.go:24-36 | filtering yields an order-preserving subsequence of the input |
| Ocr.FilterByRect | internal/domain/ocr.go:23-37 | the results whose whole box lies inside the rectangle, bounds inclusive, in input order |
| Ocr.ClampMargin | internal/domain/ocr.go:46-59 | the margin lies in [10, 50], equals the raw margin inside that range and is clamped outside it |
| Ocr.FilterByBBox | internal/domain/ocr.go:41-75 | the results whose box overlaps the box grown by the margins, in input order; boxes of zero width or height are never kept |
| Ocr.OverlapFilter | internal/domain/ocr.go:68-74 | the overlap filter keeps exactly the overlapping results, never one with an empty box, in input order |
| Ocr.SortedByLessDescending | internal/domain/ocr.go:84-86 | a slice with no adjacent inversion of Less has non-increasing scores throughout |
| Ocr.Swap | internal/domain/ocr.go:89-91 | Swap exchanges two positions and leaves every other position alone |
| Heroes.AnyRole | internal/domain/heroes/search.go:25-31 | the role loop with break finds a role exactly when one of the two roles is listed |
| Heroes.BestForResource | internal/domain/heroes/search.go:4-17 | exactly the available heroes with buff key resource + "_gathering_speed", each once |
| Heroes.AvailableWithRole | internal/domain/heroes/search.go:20-53 | exactly the available heroes having one of two roles, each once |
| Heroes.BestForDefense | internal/domain/heroes/search.go:20-34 | exactly the available heroes with role garrison_defense or defense, each once |
| Heroes.BestForAttack | internal/domain/heroes/search.go:37-53 | exactly the available heroes with role rally_leader or combat, each once |
| Heroes.Available | internal/domain/heroes/search.go:56-69 | only the available entries, under the same names, with IsNotify copied |
| Heroes.SearchesIgnoreUnavailable | internal/domain/heroes/search.go:8-10 | filtering by availability first changes none of the three searches |
| Heroes.SelectionsArePermutations | internal/domain/heroes/search.go:8-10 | two runs visiting the map in different orders select the same names |
| Devices.AllProfiles | internal/domain/devices.go:13-21 | every device's profiles, device after device; no devices gives none |
| Devices.ProfilesOfMembership | internal/domain/devices.go:13-21 | a profile is listed exactly when some device has it |
| Devices.AllGamers | internal/domain/devices.go:24-36 | one valid address per gamer, every gamer listed, in device, profile, gamer order; addresses point into the configuration |
| Devices.IndexByIdLaterWins | internal/config/devices.go:38-41 | with duplicate IDs the later stored record wins |
| Devices.IndexByIdKeys | internal/config/devices.go:38-41 | exactly the IDs of the stored records are indexed |
| Devices.BuildStateMap | internal/config/devices.go:38-41 | the loop builds the index by ID |
| Devices.MergeProfile | internal/config/devices.go:47-54 | each gamer with a stored ID is replaced by the stored record, the others stay, then the gamers are sorted by nickname as a permutation |
| Devices.MergeDevice | internal/config/devices.go:45-58 | the result is a permutation, sorted by email, of the device's profiles each merged at its own position (gamers replaced by stored records, sorted by nickname); the device keeps its name |
| Devices.MergedDeviceMatchesProfiles | internal/config/devices.go:45-58 | every profile of a merged device is the merge of an original profile, and every original profile's merge is there |
| Devices.MergeDevices | internal/config/devices.go:44-59 | the device loop keeps the number and order of devices and merges each one in its place |
| Devices.LoadDeviceConfig | internal/config/devices.go:17-62 | a read, unmarshal or state-load failure gives an error; otherwise every device is merged and sorted |
| Sorting.LeqTransitive | internal/domain/gamer.go:52-54 | "not after" is transitive under Go's string order |
| Sorting.SortBy | internal/config/devices.go:54-58 | sorting by a key leaves the slice ordered and a permutation of what it was |
| Gamers.ScreenState.Reset | internal/domain/screenState.go:17-23 | every field of the screen state gets its start value: main_city, not main menu, not welcome, empty texts |
| Gamers.ScreenState.Assign | internal/domain/screenState.go:7-15 | a struct assignment overwrites every field |
| Gamers.Gamer.Assign | internal/executor/executor.go:255 | `*gamer = *newState` makes every field, the screen state included, the new record's |
| Gamers.LessStrictOrder | internal/domain/gamer.go:52-54 | Less on nicknames is irreflexive, asymmetric and transitive |
| Gamers.Swap | internal/domain/gamer.go:46-48 | Swap exchanges positions i and j and leaves every other position alone |
| Fsm.WriteTargets | internal/fsm/fsm.go:812-814 | every target of the source row is written over the destination row; other targets stay |
| Fsm.MergeTransitions | internal/fsm/fsm.go:807-816 | src's entries overwrite dst's and every other dst entry stays |
| Fsm.MergeEdges | internal/fsm/fsm.go:807-816 | the merged table has exactly the edges of both tables |
| Fsm.BuildFSMGraph | internal/fsm/fsm.go:26-37 | each source's list holds exactly its table targets, once each, empty step lists included |
| Fsm.NeighborsAreEdges | internal/fsm/fsm.go:26-37 | a neighbour in the graph is exactly a table edge |
| Fsm.CollectNodes | internal/fsm/fsm.go:727-733 | the node set is every graph key and every neighbour |
| Fsm.Cost | internal/fsm/fsm.go:716-721 | the cost is 1 exactly for a table edge and 2 otherwise |
| Fsm.GraphEdgesCostOne | internal/fsm/fsm.go:765-774 | every edge the search relaxes costs 1, so the search counts hops |
| Fsm.SelectMin | internal/fsm/fsm.go:750-757 | the empty name when no unvisited node has a finite distance, otherwise an unvisited node of least distance |
| Fsm.Relax | internal/fsm/fsm.go:765-774 | an unvisited neighbour whose distance improves gets distance + 1 and the settled node as predecessor; nothing else changes |
| Fsm.SelectedIsShortest | internal/fsm/fsm.go:749-775 | the unvisited node of least distance has no shorter path than its distance |
| Fsm.SettleKeepsInv | internal/fsm/fsm.go:749-775 | settling that node and relaxing its edges keeps the search invariant |
| Fsm.Reconstruct | internal/fsm/fsm.go:781-789 | following predecessors back from the target gives a path of exactly its distance |
| Fsm.SettleNext | internal/fsm/fsm.go:749-775 | one round keeps the invariant, and either stops at a finished search or settles one more node |
| Fsm.Search | internal/fsm/fsm.go:735-775 | the search loop ends finished with its invariant |
| Fsm.FindPath | internal/fsm/fsm.go:725-790 | [to] for from == to and for a target outside the graph; a graph target gives a path exactly when one exists, and then a shortest one |
| Fsm.PathToSteps | internal/fsm/fsm.go:792-805 | the steps of consecutive pairs in path order, or None (the panic) when a pair has no entry |
| Fsm.StepsAlongJoin | internal/fsm/fsm.go:792-805 | the steps of two joined paths are the steps of each, in order |
| Fsm.ValidateTransitionActions | internal/fsm/fsm.go:682-711 | panics exactly when some step has neither click nor swipe, or a click without swipe on an unknown region; exactly then a message is collected |
| Fsm.AddingSwipeOrEmptyEdgeKeepsValid | internal/fsm/fsm.go:688-695 | an edge whose steps all swipe, or that has no steps, is never rejected |
| Fsm.MergeKeepsValid | internal/fsm/fsm.go:807-816 | merging two tables that pass the check gives a table that passes it |
| ExpectStates.GetMatchedState | internal/fsm/expect_state.go:125-132 | the group of the first key in iteration order whose name matches the title, None when none matches |
| ExpectStates.NoMatchMeansNoKey | internal/fsm/expect_state.go:68-80 | no match means no key of the table matches |
| ExpectStates.Only | internal/fsm/expect_state.go:85-98 | the filter keeps only the wanted screen, and keeps it exactly when the group has it |
| ExpectStates.PickFromGroup | internal/fsm/expect_state.go:38-64 | want when the group holds it; otherwise the group's first screen; the index panic exactly when the group is missing or empty |
| ExpectStates.ExpectState | internal/fsm/expect_state.go:15-123 | an analyzer error is passed on; "world" is tested before "city", each answering want when the other group holds it, else its first screen; otherwise the title group decides the same way, and no matching group answers want |
| ExpectStates.AnswerIsWantOrGroupHead | internal/fsm/expect_state.go:38-122 | every answer is want or the first screen of some group |
| Navigator.Expected | internal/fsm/force_to.go:99-102 | after step i the path's screen i + 1, or the target past the path's end |
| Navigator.StepOnceAppends | internal/fsm/force_to.go:44-128 | a step only appends device actions, and only on known regions |
| Navigator.RunFromAppends | internal/fsm/force_to.go:43-150 | a pass only appends device actions, and only on known regions |
| Navigator.RunFromEnds | internal/fsm/force_to.go:104-128 | on a mismatch the navigator and the gamer are on the screen seen; on an analyzer error that error is returned as read |
| Navigator.SwipesAreNotObserved | internal/fsm/force_to.go:89-93 | over swipe steps a pass is the same whatever the analyzer would read |
| Navigator.DirectEntryExpectsTarget | internal/fsm/force_to.go:99-102 | on a direct entry every checked step expects the target: the index is the step index |
| Navigator.InactiveStepDoesNothing | internal/fsm/force_to.go:44-61 | a step whose trigger is false ends the pass as EventNotActive before its click or swipe |
| Navigator.GameFSM.constructor | internal/fsm/fsm.go:594-651 | on a table ValidateTransitionActions accepts, the navigator starts at main_city with the gamer there too |
| Navigator.GameFSM.PerformStep | internal/fsm/force_to.go:44-128 | one step on the device and the gamer is StepOnce |
| Navigator.GameFSM.RunAttempt | internal/fsm/force_to.go:43-150 | one pass over the steps is RunFrom; each screen check ranges over the title table in the order the environment gives for the device history at that point |
| Navigator.StepOnceMovesOnly | internal/fsm/force_to.go:44-132 | a step changes the gamer record only in its current screen |
| Navigator.RunFromMovesOnly | internal/fsm/force_to.go:43-158 | a pass changes the gamer record only in its current screen |
| Navigator.NavigatesCons | internal/fsm/force_to.go:115-127 | a first pass that ends on a screen other than the target, with a restart left, followed by a navigation from where it stopped, is a navigation with one more pass |
| Navigator.NavigatesTail | internal/fsm/force_to.go:115-127 | in a navigation of several passes the first one ended on a mismatch off the target, and the rest is a navigation from there with one restart fewer |
| Navigator.NavigatesOne | internal/fsm/force_to.go:26-176 | one planned pass that concludes (no route is Fatal with nothing changed; otherwise the run's outcome settles it) is a navigation |
| Navigator.ConcludesLeaves | internal/fsm/force_to.go:43-176 | the last pass leaves the navigator and the gamer on the target on Done, changes the gamer only in its screen, only grows the device history by allowed actions, and Failed carries the analyzer's read |
| Navigator.NavigatesLeaves | internal/fsm/force_to.go:15-176 | any navigation: Done puts the navigator on the target, and the gamer too when it had to move; the gamer changes only in its screen; the history only grows by allowed actions; Failed carries the analyzer's read |
| Navigator.GameFSM.Plan | internal/fsm/force_to.go:26-41 | Planned: the direct table entry when there is one, otherwise the steps along a shortest path, none when that path has fewer than two screens |
| Navigator.GameFSM.ForceTo | internal/fsm/force_to.go:15-176 | Navigates from the old to the new state: at the target Done with nothing changed; without a device Done on the target with no action; otherwise each pass is planned from where it starts, every pass but the last ran into a mismatch off the target and the next starts where it stopped, and the last one concludes: no route is Fatal, a false trigger EventNotActive, an analyzer error Failed, a panic Fatal, completion or a mismatch onto the target Done on the target, a mismatch with no restart left Diverged |
| Navigator.GameFSM.Drive | internal/fsm/force_to.go:43-158 | from a planned route, the run and what follows it form a navigation from the current state |
| Navigator.GameFSM.Restart | internal/fsm/force_to.go:122-127 | after a pass that stopped off the target, ForceTo from there completes a navigation that starts with that pass |
| RedisQueue.SameEncodingSameScore | internal/domain/usecase.go:18 | two use cases with one serialisation agree on everything but the source path |
| RedisQueue.BeforeTotal | internal/redis_queue/redis_queue.go:91 | ZRANGE order (score, then member bytes) is total: of two different members one ranks first |
| RedisQueue.BeforeIrreflexive | internal/redis_queue/redis_queue.go:91 | no member ranks before itself in ZRANGE order |
| RedisQueue.BeforeAsymmetric | internal/redis_queue/redis_queue.go:91 | two members never rank before each other |
| RedisQueue.BeforeTransitive | internal/redis_queue/redis_queue.go:91 | ranking before is transitive |
| RedisQueue.RankedUnique | internal/redis_queue/redis_queue.go:91 | a ZRANGE answer of a given length is determined by the set |
| RedisQueue.MinOf | internal/redis_queue/redis_queue.go:91 | the member that ranks before every other |
| RedisQueue.TopN | internal/redis_queue/redis_queue.go:91 | ZRANGE 0 n-1 gives the first min(n, size) entries in order with their stored scores |
| RedisQueue.ZAddFrame | internal/redis_queue/redis_queue.go:56-59 | ZADD changes only its own set, at one member; an existing member just takes the new score |
| RedisQueue.Redis.ZAdd | internal/redis_queue/redis_queue.go:56-59 | fails exactly on a failed round trip; otherwise the member is in the set with the score |
| RedisQueue.Redis.ZRem | internal/redis_queue/redis_queue.go:124-131 | removes the listed members from that set only, unless the round trip fails |
| RedisQueue.Redis.Del | internal/redis_queue/preloader.go:20-24 | fails exactly on a failed round trip; otherwise the key's set is gone and nothing else changes |
| RedisQueue.Redis.ZRange | internal/redis_queue/redis_queue.go:91 | the leading part of the set in ZRANGE order, nothing changed |
| RedisQueue.Redis.ZPopMin | internal/redis_queue/redis_queue.go:64 | the first entry in ZRANGE order, removed |
| RedisQueue.Redis.ZCard | internal/redis_queue/redis_queue.go:163 | the number of entries |
| RedisQueue.BestIsUnique | internal/redis_queue/redis_queue.go:99-120 | at most one window entry is the best, and then there is a candidate |
| RedisQueue.ChooseBest | internal/redis_queue/redis_queue.go:99-120 | -1 exactly when no window entry decodes below the starting best; otherwise the entry of least adjusted score (minus 5 in the same screen group), the earliest on ties, with its decoding |
| RedisQueue.ExtractMembers | internal/redis_queue/redis_queue.go:138-144 | the members of the entries, in order |
| RedisQueue.Queue.constructor | internal/redis_queue/redis_queue.go:43-45 | the queue is bound to the client and the gamer ID it is given |
| RedisQueue.Queue.Push | internal/redis_queue/redis_queue.go:49-60 | one ZADD of the serialisation with score 100 - priority; an identical serialisation only has its score updated |
| RedisQueue.Queue.Pop | internal/redis_queue/redis_queue.go:63-75 | the first entry in ZRANGE order is removed and decoded; an empty queue gives nothing and changes nothing |
| RedisQueue.Queue.Peek | internal/redis_queue/redis_queue.go:147-159 | the first entry in ZRANGE order decoded, nothing removed |
| RedisQueue.Queue.Len | internal/redis_queue/redis_queue.go:162-164 | the number of entries in the queue |
| RedisQueue.Queue.ShouldSkip | internal/bot/bot.go:84-92 | whether the use case is on cooldown for the gamer, or the round trip's error |
| RedisQueue.Queue.SetLastExecuted | internal/executor/executor.go:118-122 | the use case is on cooldown until now + TTL, unless the round trip fails |
| RedisQueue.Queue.PopBest | internal/redis_queue/redis_queue.go:90-134 | reads a 20-entry window in ZRANGE order; an empty queue gives nothing; otherwise removes exactly the best entry, or the whole window with an error when none decodes; no other queue and no cooldown changes |
| RedisQueue.TakeOutcome | internal/redis_queue/redis_queue.go:120-131 | how PopBest ends: only entries of the queue stay, with their scores; a use case comes back exactly when some entry decodes below the starting best and the ZREM works |
| RedisQueue.Queue.PopNothingIffEmpty | internal/redis_queue/redis_queue.go:90-98 | PopBest answers nothing exactly when the read works and the gamer's set is empty |
| RedisQueue.Queue.PushThenPopBest | internal/redis_queue/redis_queue.go:49-134 | a use case pushed onto an empty queue comes back from PopBest without its source path, and the queue is empty again |
| RedisQueue.Queue.Take | internal/redis_queue/redis_queue.go:122-133 | the second half of PopBest: the best entry or the whole window removed, nothing else |
| Preloader.Fill | internal/redis_queue/preloader.go:32-44 | one ZADD per loaded use case; the cooldowns and the clock stay |
| Preloader.PreloadQueues | internal/redis_queue/preloader.go:14-47 | every gamer of every profile in turn is PreloadGamer: DEL first, then the adds |
| Preloader.PreloadGamer | internal/redis_queue/preloader.go:20-44 | one round trip for the DEL and, when it and the load worked, one per loaded use case; cooldowns untouched |
| Preloader.PreloadAll | internal/redis_queue/preloader.go:14-47 | every listed gamer in turn, at least one round trip each; cooldowns untouched |
| Preloader.PreloadProfile | internal/redis_queue/preloader.go:19-46 | the inner loop over one profile's gamers |
| Preloader.PreloadOne | internal/redis_queue/preloader.go:20-45 | one gamer: a failed DEL or load skips the gamer; a failed add skips only that use case |
| Preloader.FillKeeps | internal/redis_queue/preloader.go:32-44 | an entry survives later adds that carry the same score |
| Preloader.FillAdds | internal/redis_queue/preloader.go:32-44 | a use case whose own add went through is in the queue with score 100 - priority, whatever happened to the other adds |
| Preloader.FillOnlyAdds | internal/redis_queue/preloader.go:32-44 | the adds bring in only the loaded use cases and touch no other queue |
| Preloader.PreloadGamerEffect | internal/redis_queue/preloader.go:20-44 | a failed DEL changes nothing; a failed load leaves the queue empty; otherwise only loaded use cases are there, each successful add with its score; other queues and cooldowns stay |
| Preloader.PreloadAllFrame | internal/redis_queue/preloader.go:14-47 | a gamer not listed keeps its queue; cooldowns stay |
| Refill.ScheduledMembership | internal/redis_queue/refill.go:34-37 | a use case gets a job exactly when it was loaded and has a schedule the library accepts |
| Refill.StartRefiller | internal/redis_queue/refill.go:15-40 | a failed load or scheduler start registers no job; otherwise the scheduled use cases in load order |
| Refill.RunJob | internal/redis_queue/refill.go:41-61 | a job run is RefillJob: for each gamer, the cooldown check, then the push unless it failed or said skip |
| Refill.RefillGamer | internal/redis_queue/refill.go:44-59 | the cooldown check, then the push unless it failed or said skip: one or two round trips, only that gamer's queue may change, no cooldown does |
| Refill.RefillJob | internal/redis_queue/refill.go:41-61 | every gamer in turn, one or two round trips each, cooldowns untouched |
| Refill.RefillGamerEffect | internal/redis_queue/refill.go:44-59 | the use case lands in that gamer's queue with its score exactly when the check and the push went through and it was not on cooldown |
| Refill.RefillJobKeeps | internal/redis_queue/refill.go:41-61 | a failure or skip for a later gamer does not take an added entry away |
| Refill.RefillJobFrame | internal/redis_queue/refill.go:41-61 | gamers not listed keep their queues; cooldowns stay |
| Refill.RefillJobReachesEveryone | internal/redis_queue/refill.go:41-61 | with no failed round trip, every listed gamer not on cooldown gets the use case with its score |
| Executor.AdvancesTrans | internal/executor/executor.go:141-372 | what every run keeps composes: polls only used up, history only grows by permitted actions, cooldowns and clock stay, no other queue changes |
| Executor.Originals | internal/executor/executor.go:360-361 | GetByName of every listed name, in order |
| Executor.Interp | internal/executor/executor.go:141-372 | runStep keeps the Advances frame |
| Executor.InterpLoop | internal/executor/executor.go:213-237 | a loop run keeps the Advances frame |
| Executor.InterpAll | internal/executor/executor.go:106-109 | every top-level step runs, whatever the one before answered |
| Executor.Execution | internal/executor/executor.go:69-138 | ExecuteUseCase uses up polls only and leaves the clock |
| Executor.Context.Done | internal/executor/executor.go:146-149 | the context is done exactly when no live poll is left; otherwise one is used up |
| Executor.UseCaseExecutor.constructor | internal/executor/executor.go:32-50 | the executor keeps the environment, the client and the queue it is given, with no device action yet |
| Executor.UseCaseExecutor.ExecuteUseCase | internal/executor/executor.go:69-138 | the new gamer, history, queue and cooldowns are Execution of the old ones |
| Executor.UseCaseExecutor.RunStep | internal/executor/executor.go:141-372 | the stop answer and the new state are Interp of the old state |
| Executor.UseCaseExecutor.RunAction | internal/executor/executor.go:170-261 | the action part is InterpAction |
| Executor.UseCaseExecutor.RunLoop | internal/executor/executor.go:201-237 | the loop is InterpLoop |
| Executor.UseCaseExecutor.LoopRound | internal/executor/executor.go:212-234 | one round: a cancelled context, a failed or false trigger and a stopped body each end the loop as InterpLoop says; any other round uses up a poll and leaves the rest of the loop's outcome unchanged |
| Executor.UseCaseExecutor.RunSteps | internal/executor/executor.go:225-233 | nested steps up to the first that stops are InterpSeq |
| Executor.UseCaseExecutor.RunWait | internal/executor/executor.go:263-271 | the wait part is InterpWait |
| Executor.UseCaseExecutor.RunIf | internal/executor/executor.go:274-315 | the if part is InterpIf |
| Executor.UseCaseExecutor.RunTail | internal/executor/executor.go:318-369 | the long-tap and push parts are InterpTail |
| Executor.UseCaseExecutor.PushAll | internal/executor/executor.go:342-369 | the queue gets one add per triggered use case, directive by directive |
| Executor.UseCaseExecutor.PushList | internal/executor/executor.go:359-366 | every listed name is pushed as GetByName gives it; a failed push is skipped |
| Executor.FillAppend | internal/executor/executor.go:343-368 | adding in two batches is adding them all |
| Executor.TriggeredSnoc | internal/executor/executor.go:343-368 | one more directive adds its list when it fires and nothing when it does not |
| Executor.TriggeredExactly | internal/executor/executor.go:343-368 | a use case is enqueued exactly when a directive that fires lists it |
| Executor.PushesLand | internal/executor/executor.go:342-369 | with no failed push every triggered use case is in the queue with score 100 - priority, and nothing else is added |
| Executor.ExecutionCooldown | internal/executor/executor.go:80-122 | a trigger that fails or does not hold runs nothing and changes nothing; the cooldowns change only for TTL > 0 with a queue; then the use case is on cooldown for its TTL unless the write fails |
| Executor.CancelledRunsNothing | internal/executor/executor.go:146-149 | with the context cancelled the top-level steps change nothing |
| Executor.StopBeforeLaterParts | internal/executor/executor.go:146-167 | a cancelled context, an unknown click region or a failed click answers stop before any later part |
| Executor.ActionsThatEndTheStep | internal/executor/executor.go:176-242 | reset without a path and loop without a trigger answer false, loop_stop answers true, and nothing of the step follows |
| Executor.LoopEnds | internal/executor/executor.go:213-237 | a loop exits with its trigger false or failing; cancellation leaves no poll; a stop from the body is answered with false |
| Executor.IfOutcomes | internal/executor/executor.go:274-315 | an if-trigger error answers false and runs neither branch; a stop in the branch taken is passed on as true |
| Executor.ScreenshotReplacesOnSuccess | internal/executor/executor.go:245-258 | a screenshot with rules replaces the gamer by the analysis when, and only when, it succeeds |
| Bot.Bot.Refresh | internal/bot/update_state.go:8-24 | on a successful analysis the gamer becomes the analysed record, otherwise it stays |
| Bot.Bot.constructor | internal/bot/bot.go:33-55 | the bot holds the gamer, its queue, the navigator and an executor bound to that same queue |
| Bot.Bot.Play | internal/bot/bot.go:58-143 | after the refresh on main_city, the rounds form a chain of Plays from state to state; every round but the last goes on and the last ends the loop; the way home to main_city is a navigation taken exactly after the queue ran empty, from the loop's last state, and Done leaves the FSM on main_city |
| Bot.Bot.Rounds | internal/bot/bot.go:62-131 | the loop's rounds chain the states from its start to its end; all but the last go on, the last names how the loop ends |
| Bot.Bot.NavigateTo | internal/bot/bot.go:100 | ForceTo with the bot's restarts is a navigation from the old to the new state, and only the navigator's part of the state changes |
| Bot.Bot.PlayRound | internal/bot/bot.go:62-131 | Plays from the old to the new state: a cancelled context ends the loop with nothing changed, otherwise a poll is used up and the queue polled; a round that goes on uses up a poll |
| Bot.Bot.Poll | internal/bot/bot.go:70-131 | Polls: PopBest on the gamer's screen as the queue does it; a failure goes on and an empty answer ends the loop with nothing else done; a use case goes to its cooldown check |
| Bot.Bot.Live | internal/bot/bot.go:63-68 | the context is done exactly when no poll is left; a live context uses up one poll and nothing else changes |
| Bot.Bot.CancelledRound | internal/bot/bot.go:63-66 | with the context done a round changes nothing and ends the loop |
| Bot.Bot.PolledRound | internal/bot/bot.go:62-68 | a round with a live context is its poll from one poll fewer |
| Bot.Bot.Check | internal/bot/bot.go:84-131 | Checks: the cooldown check costs one round trip; a failed check or a use case on cooldown is dropped and goes on; otherwise the rest of the round proceeds from the state after the check |
| Bot.Bot.ShouldSkip | internal/bot/bot.go:84 | the check fails exactly when the round trip fails, otherwise answers whether the gamer has the use case on cooldown; only the round-trip count changes |
| Bot.Bot.DroppedRound | internal/bot/bot.go:85-92 | a failed check, or a use case on cooldown, is a dropped round |
| Bot.Bot.TakenRound | internal/bot/bot.go:94-127 | a use case that passed the check and proceeded is a taken round |
| Bot.Bot.PopBest | internal/bot/bot.go:71 | the queue's PopBest on the gamer's screen, with its whole contract: the ZRANGE window, the pick and the removal, the failure cases |
| Bot.Bot.Proceed | internal/bot/bot.go:96-127 | ProceedsFrom: navigation exactly when off the start screen, as ForceTo's navigation from the state before; EventNotActive sets the cooldown of the use case for its TTL and nothing else; a navigation that does not return ends the round there; other errors are only logged; a refresh exactly when no switch succeeded; then the use case runs as Execution from the refreshed state |
| Bot.Bot.Cooldown | internal/bot/bot.go:106-109 | SetLastExecuted puts the use case on cooldown for the gamer with its TTL, and nothing else changes; its error is only logged |
| Bot.Bot.RefreshAndRun | internal/bot/bot.go:122-127 | RanFrom: the run starts from the state refreshed on the use case's screen when asked (the analysed gamer, or the same one on failure), is Execution of the use case with the bot's queue, and ends in the new state |
| Bot.Bot.ChainGrows | internal/bot/bot.go:62-131 | a round played from the last state of a chain of rounds extends the chain |
| Bot.Bot.EmptyRoundFoundNothing | internal/bot/bot.go:71-81 | the loop ends on an empty queue only when the read worked and the gamer's set was empty |
| Bot.Bot.CooledRoundPutsOnCooldown | internal/bot/bot.go:100-111 | after a round whose navigation hit an inactive event, the use case is on cooldown for the gamer when the write worked and its TTL is positive |
| Device.CloseFrom | internal/device/detected_gamer.go:59-60 | the first ']' at or after a position, or the end: no ']' is skipped |
| Device.StripTag | internal/device/detected_gamer.go:58-61 | a text without ']' stays as it is; the nickname never holds a ']' |
| Device.StripTagSplits | internal/device/detected_gamer.go:58-61 | with a ']' the read text is a tag without ']', then ']', then the nickname, then nothing or the rest from the next ']' on |
| Device.StripTagIdempotent | internal/device/detected_gamer.go:58-61 | stripping twice is stripping once |
| Device.GamerMatchesExactly | internal/device/detected_gamer.go:74-79 | one profile's matches are exactly its gamers the ranking matches, with their scores |
| Device.MatchesExactly | internal/device/detected_gamer.go:73-80 | the collected matches are exactly the gamers whose trimmed, lower-cased nickname ranks other than -1, with that rank |
| Device.Expected | internal/device/detected_gamer.go:75 | the configured nickname trimmed and lower-cased: no longer than it, already lower-case, with no white space at either end |
| Device.DetectError | internal/device/detected_gamer.go:44-53 | the OCR error, wrapped with its message at the end, exactly when the region is known and the OCR failed; otherwise "no matches found with nickname" |
| Device.BestIsCollected | internal/device/detected_gamer.go:82-91 | a best candidate is among the matches, so with a region and a text read detection cannot fail |
| Device.Device.ActiveGamer | internal/device/next_profile.go:126-134 | a gamer exactly when both indices are in range, and then the one at [profile][gamer]; a function, so no state changes |
| Device.Device.DetectedGamer | internal/device/detected_gamer.go:18-100 | (-1, -1) and an error exactly for a missing region, an OCR error, no text or no candidate; otherwise a candidate no other candidate outranks |
| Device.Device.CollectMatches | internal/device/detected_gamer.go:71-80 | the nested loops collect Matches: every candidate with its score, profile by profile and gamer by gamer |
| Device.Device.AppendGamerMatches | internal/device/detected_gamer.go:74-79 | the inner loop appends the candidates among one profile's gamers, in order |
| Device.Device.LowestScore | internal/device/detected_gamer.go:88-91 | an entry of the matches whose score no entry beats |
| Device.Device.DetectAndSetCurrentGamer | internal/device/detected_gamer.go:102-122 | on failure (nil, -1, -1, err) with nothing changed; on success the indices are saved, that gamer's screen state is reset to main_city, and it is the active gamer |

## Left out

- Device and ADB I/O, sleeps and random jitter. A device action is an entry in an action history; whether it fails is an oracle on that history.
- The screen analyzer, OCR service, area lookup, `fuzzy.RankMatch`, `TitleToState`, `SameScreenGroup`, the CEL evaluator, `SetStateFieldByPath` and the use-case loader are parameters, because their code is not part of this model.
- `SetStateFieldByPath` is assumed to leave the gamer unchanged when it returns an error.
- The analyzer's own writes to the queue during a screenshot step are not modelled; only its resulting gamer record is.
- The `updateStateFromScreen` callback that `ForceTo` calls after a switch is not modelled; the bot's own refresh is.
- The repository save after a refresh (internal/bot/update_state.go) is I/O and is left out. The refresh answer depends only on the screen name and the gamer.
- Navigator.GameFSM.ForceTo: the unbounded restart on a mismatch has a restart budget, and running out of it is a separate outcome (Diverged), because Dafny requires termination.
- Fsm.FindPath: ties between equally short paths follow Go's map order in the source; the model proves that the result is some shortest path, not which one.
- Executor.Context.Done: a Go context is a number of polls that find it live. Every run of the source that ends is a run of the model for a large enough number.
- The Redis server clock does not advance during a run. A cooldown entry is taken to expire exactly at now + TTL. `ShouldSkip` and `SetLastExecuted` are not part of this model's source files, so they are stated as that ledger.
- JSON encoding is a codec with a round-trip property; `json.Marshal` errors, decode error texts and the exact bytes are not modelled.
- Scores are `float64` in the source but always whole numbers; they are integers here. PopBest's starting best score of 1e9 is a constant of the model.
- Ocr.FilterByBBox: the five-per-cent margin is computed in floating point by the source; it is an input here, and only its [10, 50] clamp is modelled. `BBox.ToRectangle` is not part of this model.
- `OCRResults.Len` and `Gamers.Len` are the length of the slice and have no member of their own.
- The three extra transition tables merged at start-up are in files that are not part of this model; the main table is data in `Transitions`.
- Device.Device.DetectedGamer: the navigation to the profile screen and back (detected_gamer.go:22-27) is left out, because its results are ignored by the source.
- Device.Device.DetectedGamer: `sort.Slice` is not stable, so the source promises only a candidate of lowest score; the model picks the first such in scan order and states only the lowest-score property.
- Device.Device.DetectAndSetCurrentGamer: the gamer is returned as a copy of the profile's entry, not a pointer into the profile. `SetCallback` on the navigator is left out.
- `GetByName` returning nil for an unknown name is not modelled: the loader always returns a use case.
- Bot.Bot.Play: the rounds and the result of the way home are ghost outputs that record what happened.
- Tracing spans, metrics and logging are left out.
- Text.Lower: lower-cases ASCII letters only; Go's `strings.ToLower` also folds other Unicode letters (Cyrillic nicknames, say), so on such text the model promises nothing about the source's result.
- Text.TrimSpace: trims ASCII white space only; Go's `strings.TrimSpace` also trims Unicode white space.
- TextCompare.FuzzySubstringMatch: lengths and windows are counted in characters; Go's `len` and `haystack[i:i+n]` count and cut bytes of UTF-8, so on non-ASCII text the source compares other windows (and may cut a character in half).
- TextCompare.CompareText: the threshold `len(al) >= 4` is a character count here and a UTF-8 byte count in the source, so a two-letter Cyrillic first argument is tried fuzzily by the source and not by the model; case folding is ASCII only, as for Text.Lower.
- TimeParse.ParseTimeDuration: the result is an unbounded number of seconds; the source's `time.Duration` is int64 nanoseconds that wrap around past about 292 years, and `strconv.Atoi` saturates a too-long digit run at the int64 bounds. Neither overflow is modelled.
- Devices.MergeDevice: the profiles are sorted with `SortBy` on the email key; the source's `domain.Profiles` sort order is assumed to be by email, as its use at internal/config/devices.go:58 implies, because that type's `Less` is not part of this model.
- Navigator.GameFSM.constructor: the table's validity (`TableValid`, on which ValidateTransitionActions panics at start-up in internal/fsm/fsm.go:647) is a `requires` of the constructor rather than a modelled panic.
- Navigator.GameFSM.RunAttempt: the title table's iteration order is a function of the device history, so it may differ from one screen check to the next; two checks with no device action between them (a step with neither click nor swipe) see the same order, where Go's map range may pick another one.
- Navigator.GameFSM.ForceTo: the same order as for RunAttempt; which group a title that matches two keys at distance 0 resolves to follows that order.
- RedisQueue.SameEncodingSameScore: holds for the codec as modelled, which gives back every field as it was; `encoding/json` decodes a number in `Step.To` (an `interface{}`) as float64, so an int `to` loaded from YAML comes back as a float, which the model's `IntVal` does not tell apart.
- RedisQueue.Queue.PushThenPopBest: the round trip holds up to that numeric kind of `to` only; the source returns a float64 where an int was pushed.
- The interpreter and the navigator keep separate device action histories.
