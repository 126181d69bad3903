# What this project models

The server of a multiplayer racing game. It runs one goroutine per race, admits players over UDP with
single-use tokens, and stores the results. The model is written from the Go code; every proof is about all
inputs, all runs and all interleavings that the model admits.

**The race** (`internal/race`)

* `Physics` – the car model over real numbers: one step, the geometry of what a step can reach, `wrapAngle`.
* `RaceModel` – one race as a value, and each of its critical sections as a function. `Op` is one critical
  section; `After` runs any sequence of them, with monotone clock readings and any order of
  `for range r.players`. `log` is a trace kept for the proofs.
* `CarHistory`, `RaceRuns` – what the trace says about one car, and the invariant every operation keeps.
* `Places`, `Laps`, `Ranking`, `LoneCar`, `Lifecycle` – the theorems about whole runs.
* `Twins` – two runs that differ only in clock readings and visiting orders.
* `Counterexamples` – runs in which what one might expect fails.
* `RaceLoop` – `Run` and the goroutines beside it as a state machine: one action is a critical section, a channel
  operation or a clock reading, and other goroutines may act between any two of them.
* `Iterations` – what every schedule of that machine does with its channels, and exactly when its loop ends.
* `RaceEngine` – the `Race`, `PlayerState` and clock objects, updated in place; each method is proved equal to its
  function of `RaceModel`.
* `RaceRunner` – `Run` as the loop it is, over these objects: each method names the actions of the machine of
  `RaceLoop` that it carries out, and the loop is proved to be a schedule of that machine.

**Around the race**

* `Tokens`, `Assignments`, `Admission`, `Delivery` – signed tokens, their table and single use, the session registry,
  the race of a match, and the way from a join to an input, in both directions: which inputs may be passed on and
  which must be (`internal/matchmaking`, `internal/networking`).
* `Framing`, `Subscribers` – the wire format and the subscription table.
* `RaceHistory`, `ResultsWriter` – keyset pagination and the transaction that stores results.
* `Base` – identifiers, `Option`, Go's integer division.

The methods are tied to their specification functions by their `ensures`; what the source promises is proved about
those functions, or is an invariant of the runs.

## Where the code and its own words disagree

The model follows the code.

* A race ends on passage max(2, MaxLaps) of waypoint 0, not MaxLaps (`internal/race/manager.go:375-396`): the first
  passage only opens the first lap.
* The comment on `OnFinish` says it is called under the race mutex; it is called after the mutex is released.
* The comment on `BindAddr` says false means "a different player"; it is false for every bound address, the player's
  own included, and `handleJoin` ignores the answer.
* The comment on `ListByPlayer` says `<= cursor`; the query says `<`.
* `AddPlayer` refuses a full race before it looks whether the player is already in it, so it is idempotent only while
  the race is not full.
* `VerifyAndConsume` ignores the number of rows it updated. Single use rests on the one read loop that makes its
  calls one after the other (`internal/networking/server.go:80-148`); here one call is one step.

## What turned out false, and the exact condition

* **Ranking.** A player that finished, left and is added again is in the finishing order while unfinished, and can
  be listed twice (`ComebackCounterexample`). The ranking holds throughout a run if and only if that never happens
  (`RankedExactly`). That everybody present at the finish check is in the results needs no condition.
* **Best lap.** A lap of 0 ms reads as "no lap yet". BestLapMs is the minimum lap if and only if no lap of 0 ms is
  followed by a longer last one (`BestLapExact`); `BestLapCounterexample` is a run with laps of 0, 0 and 5 ms.
* **Pagination.** A walk brings every race if and only if, with the player's finished races counted from the latest,
  no multiple of the page size falls strictly inside the places of races of the same finishing time
  (`WalkComplete`, `TieCounterexample`).
* **Persisting twice.** It is persisting once if and only if both writes use the same FinishedAt (`AppliedTwice`).
  Without one in the request the retry takes a new clock reading, and after a COMMIT whose answer was lost it does
  write a second time (`PersistWithRetry`).
* **Cleanup.** `CleanupFinished` leaves the match on file. A join meets a nil race if and only if its token is accepted
  and an earlier cleanup found the race of its match finished (`NilRaceOverRuns`); `NilRaceHappens` is such a run. In Go
  that is a nil pointer panic in `AddPlayer` (`internal/race/manager.go:145`, `internal/race/race.go:137`), which ends
  the process; the model answers `NilRace` instead.

## Model

| member | source | states |
|---|---|---|
| Physics.WrapAngle | internal/race/physics.go:53-61 | both loops end; the answer is in [-pi, pi] and differs from the argument by whole turns |
| Physics.WrapMeaning | internal/race/physics.go:53-61 | wrapping lands in [-pi, pi], moves by whole turns only, and leaves a wrapped angle alone |
| Physics.StepMeaning | internal/race/physics.go:23-41 | one step, written out: throttle less brake times MaxAccel times dt is added to the speed and cut off at MaxSpeed, steering times MaxSteerRate times dt turns the heading, and the car moves by the new speed times dt along (cos, sin) of the new heading |
| Physics.SpeedIsSumOfPedals | internal/race/physics.go:26-30 | over any inputs at which no speed leaves the limits, the speed is the first speed plus the sum of (throttle - brake) times MaxAccel times dt |
| Physics.MoreThrottleIsNotSlower | internal/race/physics.go:26-30 | over any drive, more throttle or less brake at every step never gives less speed |
| Physics.HeadingIsSumOfSteering | internal/race/physics.go:30-35 | after any inputs the heading is the first heading plus the sum of all steering, up to whole turns |
| Physics.SpeedLimitExact | internal/race/physics.go:27-30 | the speed stays within MaxSpeed after every input sequence, for every spec whose MaxSpeed is not negative and for no other |
| Physics.StepReach | internal/race/physics.go:23-41 | one step moves a car by at most MaxSpeed times dt, whatever the input and heading |
| Physics.DriveReach | internal/race/physics.go:23-41 | n steps stay within n times that distance of the start, whatever the inputs |
| LoneCar.MotionInRuns | internal/race/manager.go:345-354 | in every run a present car is where the inputs applied since it was added drove it from the place at which it was added |
| LoneCar.SpeedAndHeadingInRuns | internal/race/physics.go:27-35 | in every run each present car's speed is within MaxSpeed, and its heading is the sum of all steering applied since it was added, up to whole turns and within [-pi, pi] |
| RaceEngine.Step | internal/race/physics.go:23-41 | the in-place step writes exactly velocity, heading and position, as the step of StepMeaning |
| RaceEngine.Clock.Now | internal/race/manager.go:239-243 | a clock reading is never earlier than the last one |
| RaceEngine.Race.constructor | internal/race/race.go:81-113 | a new race is Pending and empty, and non-positive settings become 30 ticks, 1 lap and 4 players |
| RaceEngine.Race.AddPlayer | internal/race/race.go:136-158 | accepted if and only if the race is not finished and has fewer than MaxPlayers players; then the player is there, as before if it was there already, else a car at its spawn with both stamps; a refusal changes nothing |
| RaceEngine.Race.RemovePlayer | internal/race/race.go:161-166 | the player and its spec go, the finishing order stays |
| RaceEngine.Race.ApplyInput | internal/race/race.go:170-179 | appended to the queue, or dropped when 256 are waiting |
| RaceEngine.Race.EnqueueJoin | internal/race/race.go:182-187 | appended, or dropped when 8 are waiting |
| RaceEngine.Race.EnqueueLeave | internal/race/race.go:190-195 | appended, or dropped when 8 are waiting |
| RaceEngine.Race.ApplyInputLocked | internal/race/manager.go:332-342 | sets the input of a present unfinished player, otherwise changes nothing |
| RaceEngine.Race.CheckCar | internal/race/manager.go:354-397 | the checkpoint code leaves the record, events and finishing order that the model's checkpoint rules give |
| RaceEngine.Race.CloseLap | internal/race/manager.go:375-390 | lap time, best lap, lap count, event, and finish with rank at MaxLaps |
| RaceEngine.Race.TurnOf | internal/race/manager.go:347-399 | one turn of the loop over players: that car steps and is checked, a finished one and all others are untouched |
| RaceEngine.Race.AdvanceTickLocked | internal/race/manager.go:345-400 | every player gets exactly one turn, in some order with rising clock readings, each on the state the turns before it left |
| RaceEngine.Race.FinalResults | internal/race/manager.go:403-419 | the list that FinalResultsExact describes |
| RaceEngine.Race.AllPlayersFinished | internal/race/manager.go:317-329 | true exactly when somebody is there and everybody there is finished |
| RaceEngine.Race.AutoStart | internal/race/manager.go:235-239 | Pending with a player becomes Starting, with StartRealTime written and announced; any other race, an empty one too, stays as it is |
| RaceEngine.Race.Launch | internal/race/manager.go:241-245 | Starting becomes InProgress once 3000 ms have passed; started remembers it |
| RaceEngine.Race.DrainInputs | internal/race/manager.go:248-257 | empties the queue, applying the messages in order of arrival |
| RaceEngine.Race.TickSection | internal/race/manager.go:230-265 | the whole locked section: start checks, drain, tick if the race is on, and Events emptied |
| RaceEngine.Race.FinishSection | internal/race/manager.go:173-186 | closes a race that is not finished, with the results of that moment, and says whether it did |
| RaceRuns.DrainFeeds | internal/race/manager.go:248-257 | draining feeds each car exactly its own messages in order and changes nothing else of it |
| RaceRuns.OnlyLastInputsCount | internal/race/manager.go:247-261 | draining a queue equals draining only each player's last message, in any order |
| RaceRuns.InputsCommute | internal/race/manager.go:332-342 | inputs of different players commute |
| RaceRuns.StrayInputsAreIgnored | internal/race/manager.go:332-342 | inputs of unknown or finished players change nothing |
| RaceRuns.OwnTurn | internal/race/manager.go:347-353 | a tick touches a car once: its turn finds its record as the tick began, and the tick ends with what it left |
| RaceRuns.DoKeeps | internal/race/race.go:136-166 | every operation keeps: players and specs have the same ids, at most MaxPlayers, every car agrees with its trace |
| RaceRuns.RunKeeps | internal/race/manager.go:164-308 | the same over every run |
| Places.PlaceIsGiven | internal/race/race.go:136-158 | over every run: adding a new player to a race that is not finished and has fewer than MaxPlayers makes one player more, at rest on the next place of the grid with its stamps; any other addition changes no player, spec or finisher |
| Places.PlaceIsFreed | internal/race/race.go:161-166 | over every run: removing takes away that player and its spec and nothing else |
| Places.FirstOnTheGrid | internal/race/race.go:220-227 | from an empty race the first MaxPlayers players all get in, and stand on the spawns in turn |
| RaceModel.TickLength | internal/race/manager.go:165 | a tick is the whole number of nanoseconds that fits TickRateHz times into a second |
| RaceModel.EventsMeaning | internal/race/manager.go:362-385 | a turn announces the checkpoint with its index and tick, and then a closed lap with its number, time and tick |
| Laps.CheckpointArithmetic | internal/race/manager.go:360-397 | after k checkpoints on n waypoints: NextCheckpoint, LastCheckpoint and Lap are (k+1) mod n, k mod n and k / n; none skipped, each within 8 m; Finished if and only if k is n times max(2, MaxLaps) |
| Laps.PassedExactly | internal/race/manager.go:355-371 | in every run a locked section lets an unfinished car pass its next waypoint if and only if the race is then InProgress and the car within 8 m of it, and it passes no other |
| Laps.NoCarBeatsTheTrack | internal/race/manager.go:355-371 | between consecutive checkpoints, and over the whole stay, a car took more ticks than the distance less the 8 m discs needs at MaxSpeed |
| Laps.LapTimesAddUp | internal/race/manager.go:375-390 | a finisher's laps sum to at most its total, which exceeds them by less than 1 ms per lap if its join stamps are equal; BestLapMs is the minimum lap under the exact condition, and then (Lap-1) times it is at most the total |
| Laps.BestLapExact | internal/race/manager.go:377-381 | BestLapMs is the minimum lap if and only if no 0 ms lap is followed by a longer last lap |
| Counterexamples.BestLapCounterexample | internal/race/manager.go:377-381 | a run whose finisher has laps of 0, 0 and 5 ms: its BestLapMs is 5, not the minimum, and three times that exceeds its total |
| Ranking.AddRanksExactly | internal/race/race.go:136-158 | adding a player keeps the ranking if and only if it is not a listed player that left |
| Ranking.RankedExactly | internal/race/manager.go:386-390 | a run is ranked at every moment if and only if no listed player that left comes back |
| Ranking.RunRanks | internal/race/manager.go:386-390 | then the finishing order has no duplicates, the present finished players are exactly those listed, FinishPos is the place, FinishTime rises along it |
| Ranking.DoRecords | internal/race/manager.go:386-390 | whoever is present and finished is listed, after every operation and even with comebacks |
| Ranking.FinalResultsExact | internal/race/manager.go:403-419 | the results are exactly the present finished players, each once, by rank and by finish time, Position being FinishPos |
| Ranking.ResultsOfRun | internal/race/race.go:198-216 | the same for every run without comebacks, and a present player is finished if and only if its FinishPos points at it |
| Counterexamples.ComebackCounterexample | internal/race/race.go:161-166 | a run in which a comeback puts one player into the finishing order twice |
| LoneCar.TickIsProduct | internal/race/manager.go:345-400 | a tick does to each car what it does to that car alone, in any order and at any clock readings |
| LoneCar.TickLists | internal/race/manager.go:386-390 | a tick appends to the finishing order exactly the cars it finishes |
| LoneCar.OrderDoesNotMatter | internal/race/manager.go:347-399 | within one tick: two visiting orders give the same motion, checkpoints, laps and finished flags, finish the same cars, and leave the same times and rank to every car that closes no lap |
| LoneCar.SameFinishers | internal/race/manager.go:386-390 | within one tick: two visiting orders append equally many cars to the finishing order, the same ones, each once |
| Twins.OrderAffectsOnlyTimes | internal/race/manager.go:345-400 | over whole runs: two runs with the same operations up to clock readings and visiting orders have at every moment the same players, specs, status and bodies and the same finishers; both finishing orders only grow, so places differ only within one tick |
| LoneCar.RaceIsProduct | internal/race/manager.go:345-400 | after any run each car is where a lone car is that got only its own inputs and its own entries and exits |
| LoneCar.FinishTakesGoal | internal/race/manager.go:360-397 | for a lone car: finishing takes at least n times max(2, MaxLaps) moving turns, and exactly that many inside every disc |
| LoneCar.FinishTakesGoalTicks | internal/race/manager.go:360-397 | in every run of a race: whoever is finished was there for at least n times max(2, MaxLaps) InProgress ticks, and a car always inside every disc is finished after exactly that many |
| Lifecycle.OnlyForward | internal/race/manager.go:230-245 | no operation takes the status back or rewrites StartRealTime |
| Lifecycle.SectionStarts | internal/race/manager.go:230-265 | a locked section leaves Pending if and only if somebody is there, with the first reading as StartRealTime, and leaves Starting if and only if its second reading is 3000 ms or more later, with this tick as StartTick; Events is empty after it |
| Lifecycle.StartsExactly | internal/race/manager.go:235-239 | over every run StartRealTime is set if and only if some locked section found somebody in a race not finished, until then the race is Pending or finished unstarted, and FinishTime is set if and only if it is finished |
| Lifecycle.LifeOfARace | internal/race/manager.go:235-261 | between any two moments of a run: status only forward, StartRealTime written once, no car off its spawn before 3000 ms after it |
| RaceLoop.OpPossible | internal/race/manager.go:164-308 | whatever the interleaving, each critical section finds the clock and tick number it relies on |
| RaceLoop.MachineRunsRace | internal/race/manager.go:164-308 | every schedule of the goroutines is a run of the race's operations, so all theorems about runs hold of it |
| RaceLoop.DoAnnounces | internal/race/manager.go:179-183 | only finishRace announces results, and it announces those there are |
| RaceLoop.RunEndsOnce | internal/race/manager.go:173-192 | when Run has returned: Finished, OnFinish called once if set, Done closed once after that, never more than once before; Events holds one RaceFinishedEvt, last, from the moment the race is Finished, with the list that FinalResults still answers, and none before |
| RaceLoop.ReapedOnlyEmpty | internal/race/manager.go:276-290 | a race is reaped only after every look at its players over more than 30 s saw none |
| RaceLoop.EverybodyPresentIsRewarded | internal/race/manager.go:293-296 | everybody present at the finish check is in the announced results, whoever joins before finishRace has the lock |
| Iterations.JoinsKeepOrder | internal/race/manager.go:205-216 | in every schedule the joins that found room among 8 are those that Run added, each once and in order, and then those that wait |
| Iterations.JoinsAreAnnounced | internal/race/manager.go:209-212 | whoever Run takes from the channel and adds is announced as joined, once, in this order |
| Iterations.LeavesKeepOrder | internal/race/manager.go:217-228 | the leaves that found room among 8 are those removed and then announced with their reason, each once and in order, and then those that wait |
| Iterations.InputsKeepOrder | internal/race/manager.go:248-257 | the inputs that found room among 256, or came while they were drained, are those applied, each once and in order, and then those that wait |
| Iterations.SectionsAreNumbered | internal/race/manager.go:194-265 | the n-th locked section is tick n, counted from 0, and comes after both control channels were found empty in the same iteration |
| Iterations.ReapedExactly | internal/race/manager.go:276-290 | a look at the player count ends the race if and only if the last looks, over more than 30 s, all saw nobody |
| Iterations.FinishedExactly | internal/race/manager.go:293-298 | the finish check ends the race if and only if it is InProgress, somebody is there and everybody there is finished; else the tick is counted |
| RaceRunner.OneMoreAct | internal/race/manager.go:194-307 | an enabled action with its effect on the race extends the schedule |
| RaceRunner.Runner.Deliver | internal/race/race.go:136-195 | what another goroutine does is exactly one action of the machine, the one that its message says |
| RaceRunner.Runner.TakeJoins | internal/race/manager.go:205-216 | joins are taken and noted one by one, all that were waiting and all that arrive meanwhile, until the channel is empty |
| RaceRunner.Runner.TakeLeaves | internal/race/manager.go:217-228 | leaves are taken and noted one by one, all that were waiting and all that arrive meanwhile, until the channel is empty |
| RaceRunner.Runner.LockedSection | internal/race/manager.go:230-265 | the locked section is exactly one action |
| RaceRunner.Runner.LookAtCount | internal/race/manager.go:276-290 | lastEmpty is set, kept or cleared, and the race is reaped, as the machine says |
| RaceRunner.Runner.CheckFinished | internal/race/manager.go:293-298 | ends the loop exactly when the machine does, else counts the tick |
| RaceRunner.Runner.FinishRace | internal/race/manager.go:173-192 | Run closes the race, calls the hook and closes Done, in this order and nothing else, with others in between |
| RaceRunner.Runner.Iteration | internal/race/manager.go:194-298 | a cancelled iteration returns as cancelled; any other runs the locked section, and then returns reaped or with everybody done, or counts one tick and waits |
| RaceRunner.Runner.Run | internal/race/manager.go:164-308 | while it does not return, every round ran and counted its tick; it returns in the first round that is cancelled, reaped or done; then Finished, one call of a set OnFinish, one close, one RaceFinishedEvt, last, with the results that FinalResults answers, and none of these before |
| Framing.Encode | internal/protoframing/framing.go:54-62 | the frame of a payload of at most 65536 bytes, four bytes that denote its size, the highest first, and then the payload; else too large |
| Framing.FramingEncode | internal/networking/broadcast.go:154-166 | the shift-based encoder gives the same frames and refusals |
| Framing.DecodeExact | internal/protoframing/framing.go:34-50 | a payload and a remainder are answered if and only if the buffer is that payload's frame followed by that remainder |
| Framing.StreamRoundTrip | internal/protoframing/framing.go:34-62 | concatenated frames decode to exactly their payloads, the rest untouched |
| Framing.UniquelyDecodable | internal/protoframing/framing.go:54-62 | equal streams of frames have equal payloads |
| Framing.PrefixIsShort | internal/protoframing/framing.go:34-50 | every strict prefix of a frame is a short frame |
| Framing.TooLargeExact | internal/protoframing/framing.go:42-44 | too large is answered if and only if the first four bytes denote more than MaxFrame |
| Subscribers.Subscriptions.Add | internal/networking/broadcast.go:46-56 | a new entry goes into map and list, a known player changes nothing |
| Subscribers.Subscriptions.Remove | internal/networking/broadcast.go:59-70 | the player leaves map and list, in the same backing array |
| Subscribers.Subscriptions.Compact | internal/networking/broadcast.go:62-69 | the in-place filter leaves exactly the other entries |
| Subscribers.Subscriptions.All | internal/networking/broadcast.go:73-79 | a fresh copy of the list |
| Subscribers.FilterMeaning | internal/networking/broadcast.go:62-69 | the filter keeps every entry of other players and their relative order, and no other |
| Subscribers.AlwaysAgree | internal/networking/broadcast.go:46-70 | after any calls map and list hold the same entries, each once |
| Subscribers.SnapshotsStay | internal/networking/broadcast.go:46-79 | later calls make of the table what serving them in order makes of its players and addresses, and leave a list that All returned as it is |
| RaceHistory.ListByPlayer | internal/racehistory/repo.go:62-122 | the latest rows before the cursor, the clamped number of them or all, and a cursor exactly for a full page |
| RaceHistory.PageMeaning | internal/racehistory/repo.go:62-122 | a page, written out: finished races of the player before the cursor, latest first, none twice; 20 by default and 100 at most; a cursor if and only if it is full, at its last row, and nothing later than that is missing |
| RaceHistory.PagesShrink | internal/racehistory/repo.go:114-120 | after a page with a cursor strictly fewer rows remain |
| RaceHistory.WalkFrom | internal/racehistory/repo.go:62-122 | asking page after page ends, with every page asked from the cursor before it |
| RaceHistory.WalkComplete | internal/racehistory/repo.go:62-122 | a walk brings every race if and only if the table has no tie across a page boundary of the clamped limit |
| RaceHistory.WalkExact | internal/racehistory/repo.go:62-122 | a walk brings races of the player only, none twice, latest first, and all of them if and only if no page of it cuts a tie |
| RaceHistory.WalkBringsAll | internal/racehistory/repo.go:62-122 | with distinct finishing times each finished race of the player exactly once, latest first, at every limit |
| RaceHistory.TieCounterexample | internal/racehistory/repo.go:85-95 | two races at the same time, one per page: one is never brought |
| ResultsWriter.Writer.PersistRaceFinish | internal/results/writer.go:56-130 | exactly which error each failure gives, in this order: race id, track id, no results, BEGIN, statements, COMMIT; and exactly when the tables change: all statements and the COMMIT succeed, whether or not the answer arrives |
| ResultsWriter.Writer.ExecEntries | internal/results/writer.go:93-117 | the loop over the results writes them all, or stops at the first that lacks its player or whose statement fails |
| ResultsWriter.ExecutesExactly | internal/results/writer.go:84-117 | the statements succeed if and only if the race or its track is on file, each player named or its row is, and none of the statements is the one that fails, two for each player named |
| ResultsWriter.KeepsIntegrity | internal/results/writer.go:84-117 | a write keeps the foreign keys of races, race_players and race_results |
| ResultsWriter.Writer.PersistWithRetry | internal/results/writer.go:135-155 | ends in the old state or the once-applied state; if either attempt can go through, in the latter; a lost answer and a clean retry write twice |
| ResultsWriter.AppliedTwice | internal/results/writer.go:84-117 | writing twice is writing once if and only if FinishedAt is the same |
| ResultsWriter.EntriesMeaning | internal/results/writer.go:93-117 | one row per named player, from its last entry, field by field: position, total time, best lap with NULL for 0, finish position and finish time; none for nil; every other row as before |
| ResultsWriter.RowsOfRace | internal/results/writer.go:84-117 | which players have rows afterwards, with what in each field; an existing race keeps its track and start, a new one gets the request's; rows of other players and other races stay |
| Tokens.Base64RoundTrip | internal/matchmaking/token.go:42-43 | base64url without padding (RFC 4648, sections 5 and 3.2) decodes to what was encoded |
| Tokens.SplitToken | internal/matchmaking/token.go:99-106 | the loop finds the last dot, or none |
| Tokens.SplitMeaning | internal/matchmaking/token.go:96-106 | the parts are a and b if and only if the string is a, a dot and a dotless b |
| Tokens.HmacExact | internal/matchmaking/token.go:111-118 | accepted if and only if the string is a payload, a dot and that payload's signature |
| Tokens.SignedTokenParts | internal/matchmaking/token.go:30-45 | a signed token splits into its claims and a signature that verifies |
| Tokens.SigningFails | internal/matchmaking/token.go:30-36 | an empty secret is refused first, then a nil match or player, and nothing else |
| Tokens.SigningCarries | internal/matchmaking/token.go:37-45 | a signed token carries its match, its player and an expiry 300 s later, rounded down to a second, and that expiry is given back |
| Tokens.VerdictExact | internal/matchmaking/token.go:50-80 | valid with these claims if and only if the token is a signed payload of these claims, not past its second, and fresh in the table if that is asked; each refusal with its own condition |
| Tokens.AcceptanceExact | internal/matchmaking/token.go:50-80 | a signed token is accepted with its match and player up to an age of the TTL, rejected as expired from TTL + 1 s, and in between by the whole second |
| Tokens.RowFreshnessIsStricter | internal/matchmaking/token.go:37-44 | a row that has not expired has an age of at most the TTL, and its token is not expired |
| Assignments.NewTokenIsAcceptedOnce | internal/matchmaking/repo.go:25-34 | after a signed token is assigned, it is accepted up to the time that signing gave, expired afterwards, and a second use is refused as consumed |
| Assignments.Repo.AssignmentIsFresh | internal/matchmaking/repo.go:37-60 | fresh only if the token is signed and an unconsumed, unexpired row of the key is there, stale only if one of these fails for some row; the scanned row decides |
| Assignments.Repo.MarkConsumed | internal/matchmaking/repo.go:67-76 | all rows of the key are consumed; no row is lost, moved or otherwise changed |
| Assignments.Repo.VerifyAndConsume | internal/matchmaking/repo.go:80-117 | each refusal in the source's order; an acceptance consumes every row of its key; a lost answer may have too |
| Assignments.AnswersExact | internal/matchmaking/repo.go:80-117 | each answer if and only if its condition on the scanned row, the clock and the token holds, and which rows are marked then |
| Assignments.OneCall | internal/matchmaking/repo.go:80-117 | consumed never reverts, and an acceptance uses up at least one row of its key |
| Assignments.SingleUse | internal/matchmaking/repo.go:80-117 | over all serial runs the acceptances of a (match, player, token) are at most its consumed rows, and so at most the rows created |
| Assignments.NothingLeftAfterAcceptance | internal/matchmaking/repo.go:110-116 | right after an acceptance no row of the key is unconsumed, and the next call with it is refused |
| Admission.SessionRegistry.BindAddr | internal/networking/dispatcher.go:56-72 | an unbound address is bound and becomes the player's current one, whose race stays; a bound one changes nothing |
| Admission.SessionRegistry.SetRace | internal/networking/dispatcher.go:75-84 | a known player's race, nothing for an unknown one |
| Admission.SessionRegistry.PlayerFromAddr | internal/networking/dispatcher.go:87-92 | on a consistent registry whoever is found is known, and a known player's current address finds that player |
| Admission.SessionRegistry.RaceFromPlayer | internal/networking/dispatcher.go:95-103 | the player's race, if known and set |
| Admission.SessionRegistry.RacePlayers | internal/networking/dispatcher.go:112-128 | exactly the players of the race, each once, with their current addresses |
| Admission.Manager.FindOrCreate | internal/race/manager.go:67-123 | the race on file, a nil race if it was cleaned up, or a new one |
| Admission.Manager.Register | internal/race/manager.go:136-149 | that race with the player added, or why not |
| Admission.Manager.CleanupFinished | internal/race/manager.go:153-161 | the loop drops every finished race and keeps every other; race objects and matches stay |
| Admission.NilRaceExact | internal/race/manager.go:67-75 | a nil race is met if and only if the match is on file and its race is not |
| Admission.CleanupLeavesNil | internal/race/manager.go:153-161 | which holds after a cleanup exactly for the finished races and those dropped before |
| Admission.NilRaceOverRuns | internal/race/manager.go:136-161 | over every run a join meets a nil race if and only if its token is accepted and some earlier cleanup found the race of its match finished |
| Admission.NilRaceHappens | internal/race/manager.go:136-161 | a run in which a join with a good token of its own meets it |
| Admission.Dispatcher.OnJoin | internal/networking/dispatcher.go:179-215 | each refusal in order; on success the token is used up, the player added, the address bound, the race set |
| Admission.Dispatcher.OnInput | internal/networking/dispatcher.go:217-239 | passed on exactly for a bound address whose player has a race that is not finished; InputsArePassedOn says over whole runs which inputs these are |
| Admission.BindingKeeps | internal/networking/dispatcher.go:56-84 | a join keeps the registry: a player's current address leads back to it, bound addresses name known players, owners stay, only the joining player's race moves |
| Admission.AddressesDiffer | internal/networking/dispatcher.go:34-38 | two players never share a current address |
| Admission.OwnersStay | internal/networking/dispatcher.go:56-72 | over every run an address never changes owner |
| Admission.JoinMeans | internal/networking/dispatcher.go:192-206 | a join that succeeds had an unconsumed, unexpired, signed row of exactly this match, player and token, leaves none, and the player is in the one race on file for that match |
| Admission.StepKeeps | internal/networking/dispatcher.go:179-239 | every step of the server keeps the registry, the fleet, and that sessions and inputs stem from joins |
| Admission.AdmissionChain | internal/networking/dispatcher.go:217-237 | over every run, each input passed to a race names a player whose own join carried an accepted token for that race's match and was answered with that race |
| Admission.InputFollowsItsJoin | internal/networking/dispatcher.go:217-237 | an input passed on is for the owner of its address, who had joined that unfinished race with an accepted token for its match |
| Delivery.InputsArePassedOn | internal/networking/dispatcher.go:217-239 | over every run an input from an address whose owner's latest answered join was answered with a race not finished is passed on to exactly that race, in the owner's name and as it came; any other input changes nothing |
| Delivery.ExactlyTheDue | internal/networking/dispatcher.go:217-239 | over every run the inputs passed on are exactly those, in the order in which they came |
| Delivery.SessionsAreJoins | internal/networking/dispatcher.go:56-84 | over every run an address is bound to the player of its first answered join, and a known player's entry holds the address of its latest answered join from a free address and the race of its latest answered join |
| Delivery.JoinAnswers | internal/networking/dispatcher.go:179-215 | each answer to a join if and only if its condition holds; an accepted token gets the race of its match exactly if that race is on file or can be made, is not finished and is not full |
| Delivery.JoinMoves | internal/race/manager.go:136-149 | an answered join adds its player with the default spec to the race of its match, making that race first if there is none, and moves no other race; a refused one moves no session |
| Admission.TokensLimitJoins | internal/matchmaking/repo.go:80-117 | over every run a token lets its player in at most as often as rows were created for it |

## Left out

* IEEE floats: `float32` and `float64` are reals, so rounding, NaN and infinities are not modelled. Go's `Cos`, `Sin`,
  `Hypot` and `Pi` are parameters with cos² + sin² = 1, hypot(x, z)² = x² + z², hypot ≥ 0 and pi > 0.
* The widths of `uint32` sequence numbers and `uint64` ticks; a nil `*Track`; `NewTicker`'s panic when TickRateHz
  makes the tick shorter than a nanosecond.
* Wall-clock jumps: `time.Now` is a monotone count of nanoseconds.
* `SnapshotOut`, `buildWorldSnapshot`, `PlayersSnapshot`, `PlayerRace`, `FinishAck` and the broadcaster: output only.
* RaceRunner.Runner.Run: runs through a given list of rounds, because the loop need not end, and a drain loop that other
  goroutines keep busy for ever is not considered. `RaceLoop` has no such limits.
* RaceEngine.Race.FinalResults: models both `FinalResults` and `finalResultsLocked`, which have the same loop.
* RaceLoop.ReapedOnlyEmpty: cancellation of the context is an action that may always happen, since a context is not
  part of this model.
* Admission.Manager.Register: a race is a value under its id, and between two steps of the server it may change in any
  way; its own steps are those of `RaceModel`. A new race gets an unused id. The panic on a nil race is the answer
  `NilRace`, after which the model goes on.
* Admission.Dispatcher.OnJoin: the protobuf parsing and the choice in `Handle` come before it; a request arrives with
  ids that parse or do not. The reply's tick and text are left out.
* Admission.SessionRegistry.RacePlayers: addresses stay strings; host and port are not split.
* Tokens.AcceptanceExact: HMAC and JSON are parameters; JSON is assumed to round-trip. Nothing is said about forging.
* Assignments.Repo.VerifyAndConsume: the database's failures are inputs of the call; row ids and `created_at` are left
  out.
* RaceHistory.ListByPlayer: the order of rows with equal times is arbitrary; failing queries and `GetRace` are left out.
* ResultsWriter.Writer.PersistRaceFinish: the database is three keyed maps with the foreign keys that the inserts need;
  BEGIN, each statement and COMMIT may fail, and the answer to COMMIT may be lost.
* `findOrCreateMatch` and its cap of four (its read and its insert are not one step), `CountForMatch`, the
  leaderboard, authentication, HTTP, configuration and logging: no hard property, or library behaviour.
