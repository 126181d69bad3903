/**
 * Race.Run and the goroutines around it as a state machine. One action is what happens between two
 * points where another goroutine can get in: a critical section, a channel operation, a clock reading.
 */
module RaceLoop {
  import opened Base
  import opened Physics
  import opened RaceModel
  import opened RaceRuns
  import opened Laps
  import opened Ranking

  datatype JoinMsg = JoinMsg(id: Uuid, spec: CarSpec)
  datatype LeaveMsg = LeaveMsg(id: Uuid, reason: string)

  /** Why the loop ends; present: who was in the race when everybody was found finished. */
  datatype Why = Cancelled | Reaped | AllDone(present: set<Uuid>) | DoneSeen

  /** Where Run stands. */
  datatype Pc =
    | Top | Joins | JoinNote(id: Uuid) | Leaves | LeaveNote(id: Uuid, reason: string)
    | Locked | EmptyCheck | FinishCheck | Wait
    | Finishing(why: Why) | Calling(why: Why) | Closing(why: Why) | Returned(why: Why)

  /** One look at the number of players after a tick. */
  datatype Check = Check(count: nat, at: int)

  /**
   * The race, its channels, the local variables of Run, how often OnFinish was called (calls) and Done
   * was closed (closes), and for the proofs the latest clock reading and all looks at the player count.
   */
  datatype Sys = Sys(race: RaceState, joins: seq<JoinMsg>, leaves: seq<LeaveMsg>, inputs: seq<InputMsg>,
                     pc: Pc, tickIdx: nat, started: bool, lastEmpty: Option<int>,
                     calls: nat, closes: nat, now: int, checks: seq<Check>)

  datatype Act =
    // other goroutines
    | DispatchAdd(id: Uuid, spec: CarSpec, stampA: int, stampB: int)
    | SendJoin(join: JoinMsg)
    | SendLeave(leave: LeaveMsg)
    | SendInput(input: InputMsg)
    // Run
    | SeeCancel
    | SeeDone
    | Begin
    | TakeJoin(stampA: int, stampB: int)
    | NoteJoin(stamp: int)
    | JoinsEmpty
    | TakeLeave
    | NoteLeave
    | LeavesEmpty
    | Lock(startStamp: int, sinceStamp: int, late: seq<InputMsg>, visits: seq<Visit>)
    | LookEmpty(stamp: int)
    | LookFinished
    | Tick
    | CloseRace(stamp: int)
    | Call
    | CloseDone

  function NewSys(clock: int): Sys {
    Sys(NewRace(clock), [], [], [], Top, 0, false, None, 0, 0, clock, [])
  }

  /** A non-blocking send on a channel of the given capacity. */
  function Send<T>(channel: seq<T>, capacity: nat, m: T): seq<T> {
    if |channel| < capacity then channel + [m] else channel
  }

  /** The operation on the race, if the action is one. */
  function OpOf(s: Sys, a: Act): Option<Op> {
    match a
    case DispatchAdd(id, spec, x, y) => Some(Add(id, spec, x, y))
    case TakeJoin(x, y) => if s.joins == [] then None else Some(Add(s.joins[0].id, s.joins[0].spec, x, y))
    case NoteJoin(t) => if s.pc.JoinNote? then Some(Note(PlayerJoinedEvt(s.pc.id, t))) else None
    case TakeLeave => if s.leaves == [] then None else Some(Remove(s.leaves[0].id))
    case NoteLeave => if s.pc.LeaveNote? then Some(Note(PlayerLeftEvt(s.pc.id, s.pc.reason))) else None
    case Lock(x, y, late, visits) => Some(Section(s.tickIdx, x, y, s.inputs + late, visits))
    case CloseRace(t) => Some(Finish(t))
    case _ => None
  }

  /** The clock readings of an action, the last one. */
  function Reads(s: Sys, a: Act): int {
    match a
    case DispatchAdd(_, _, _, y) => y
    case TakeJoin(_, y) => y
    case NoteJoin(t) => t
    case Lock(_, y, _, visits) => LastReading(y, visits)
    case LookEmpty(t) => t
    case CloseRace(t) => t
    case _ => s.now
  }

  ghost predicate Fresh(s: Sys, a: Act) {
    match a
    case DispatchAdd(_, _, x, y) => s.now <= x <= y
    case TakeJoin(x, y) => s.now <= x <= y
    case NoteJoin(t) => s.now <= t
    case Lock(x, y, _, visits) => s.now <= x <= y && Rising(y, visits)
    case LookEmpty(t) => s.now <= t
    case CloseRace(t) => s.now <= t
    case _ => true
  }

  /** The points of the loop where an action of Run can happen. */
  predicate Here(s: Sys, a: Act) {
    match a
    case DispatchAdd(_, _, _, _) => true
    case SendJoin(_) => true
    case SendLeave(_) => true
    case SendInput(_) => true
    case SeeCancel => s.pc.Top? || s.pc.Wait?
    case SeeDone => (s.pc.Top? || s.pc.Wait?) && s.closes > 0
    case Begin => s.pc.Top? && s.closes == 0
    case TakeJoin(_, _) => s.pc.Joins? && s.joins != []
    case NoteJoin(_) => s.pc.JoinNote?
    case JoinsEmpty => s.pc.Joins? && s.joins == []
    case TakeLeave => s.pc.Leaves? && s.leaves != []
    case NoteLeave => s.pc.LeaveNote?
    case LeavesEmpty => s.pc.Leaves? && s.leaves == []
    case Lock(_, _, _, _) => s.pc.Locked?
    case LookEmpty(_) => s.pc.EmptyCheck?
    case LookFinished => s.pc.FinishCheck?
    case Tick => s.pc.Wait?
    case CloseRace(_) => s.pc.Finishing?
    case Call => s.pc.Calling?
    case CloseDone => s.pc.Closing?
  }

  /** `for range r.players`: every player once, in some order; nobody unless the race is on. */
  ghost predicate LoopsOverPlayers(s: Sys, a: Act) {
    a.Lock? ==>
      if Started(s.race, a.startStamp, a.sinceStamp, s.tickIdx).status == InProgress
      then Ids(a.visits) == s.race.players.Keys && Distinct(a.visits)
      else a.visits == []
  }

  ghost predicate Enabled(s: Sys, a: Act) {
    Here(s, a) && Fresh(s, a) && LoopsOverPlayers(s, a)
  }

  /** The race after an action; OpPossible below shows that the operation is always possible. */
  ghost function RaceAfter(cfg: Config, s: Sys, a: Act): RaceState
    requires ConfigOk(cfg) && Enabled(s, a)
  {
    var op := OpOf(s, a);
    if op.Some? && OpOk(cfg, s.race, op.value) then Do(cfg, s.race, op.value) else s.race
  }

  /** The empty-race check after the player count was read: lastEmpty, and whether the loop ends. */
  function EmptyAfter(s: Sys, stamp: int): (Option<int>, bool) {
    if |s.race.players| != 0 then (None, false)
    else if s.lastEmpty.None? then (Some(stamp), false)
    else (s.lastEmpty, stamp - s.lastEmpty.value > EMPTY_RACE_REAP_AFTER)
  }

  /** Everything but the race after an action; hook: whether OnFinish is set. */
  function Control(hook: bool, s: Sys, a: Act, race: RaceState): Sys
    requires Here(s, a)
  {
    var t := s.(race := race, now := Reads(s, a));
    match a
    case DispatchAdd(_, _, _, _) => t
    case SendJoin(m) => t.(joins := Send(s.joins, CONTROL_CAPACITY, m))
    case SendLeave(m) => t.(leaves := Send(s.leaves, CONTROL_CAPACITY, m))
    case SendInput(m) => t.(inputs := Send(s.inputs, INPUT_CAPACITY, m))
    case SeeCancel => t.(pc := Finishing(Cancelled))
    case SeeDone => t.(pc := Returned(DoneSeen))
    case Begin => t.(pc := Joins)
    case TakeJoin(_, _) => t.(pc := JoinNote(s.joins[0].id), joins := s.joins[1..])
    case NoteJoin(_) => t.(pc := Joins)
    case JoinsEmpty => t.(pc := Leaves)
    case TakeLeave => t.(pc := LeaveNote(s.leaves[0].id, s.leaves[0].reason), leaves := s.leaves[1..])
    case NoteLeave => t.(pc := Leaves)
    case LeavesEmpty => t.(pc := Locked)
    case Lock(_, _, _, _) =>
      t.(pc := EmptyCheck, inputs := [],
         started := s.started || (s.race.status != InProgress && race.status == InProgress))
    case LookEmpty(stamp) =>
      var (lastEmpty, over) := EmptyAfter(s, stamp);
      t.(pc := if over then Finishing(Reaped) else FinishCheck, lastEmpty := lastEmpty,
         checks := s.checks + [Check(|s.race.players|, stamp)])
    case LookFinished =>
      if s.started && AllPlayersFinished(s.race)
      then t.(pc := Finishing(AllDone(s.race.players.Keys)))
      else t.(pc := Wait, tickIdx := s.tickIdx + 1)
    case Tick => t.(pc := Top)
    case CloseRace(_) => t.(pc := if s.race.status == Finished then Returned(s.pc.why) else Calling(s.pc.why))
    case Call => t.(pc := Closing(s.pc.why), calls := if hook then s.calls + 1 else s.calls)
    case CloseDone => t.(pc := Returned(s.pc.why), closes := if s.closes == 0 then 1 else s.closes)
  }

  ghost function Fire(cfg: Config, hook: bool, s: Sys, a: Act): Sys
    requires ConfigOk(cfg) && Enabled(s, a)
  {
    Control(hook, s, a, RaceAfter(cfg, s, a))
  }

  ghost function Play(cfg: Config, hook: bool, clock: int, acts: seq<Act>): Option<Sys>
    requires ConfigOk(cfg)
  {
    if acts == [] then Some(NewSys(clock))
    else
      var n := |acts| - 1;
      var before := Play(cfg, hook, clock, acts[..n]);
      if before.Some? && Enabled(before.value, acts[n]) then Some(Fire(cfg, hook, before.value, acts[n])) else None
  }

  // ----- the control of Run -----

  /** Before the locked section of the iteration, or waiting for the next one. */
  predicate Early(pc: Pc) {
    pc.Top? || pc.Joins? || pc.JoinNote? || pc.Leaves? || pc.LeaveNote? || pc.Locked? || pc.Wait?
  }

  predicate Over(pc: Pc) {
    pc.Calling? || pc.Closing? || pc.Returned?
  }

  /** Clock readings and tick numbers run ahead of what the race has seen. */
  ghost predicate InStep(s: Sys) {
    && s.race.clock <= s.now
    && (if Early(s.pc) then s.race.lastTick < s.tickIdx else s.race.lastTick <= s.tickIdx)
  }

  lemma OpPossible(cfg: Config, s: Sys, a: Act)
    requires ConfigOk(cfg) && Enabled(s, a) && InStep(s) && OpOf(s, a).Some?
    ensures OpOk(cfg, s.race, OpOf(s, a).value)
  {
  }

  /** An action reads the clock no later than Reads says, and only the locked section sets the tick. */
  lemma RaceInStep(cfg: Config, s: Sys, a: Act)
    requires ConfigOk(cfg) && Enabled(s, a) && InStep(s)
    ensures s.now <= Reads(s, a) && RaceAfter(cfg, s, a).clock <= Reads(s, a)
    ensures RaceAfter(cfg, s, a).lastTick == if a.Lock? then s.tickIdx else s.race.lastTick
  {
    var op := OpOf(s, a);
    if op.Some? {
      OpPossible(cfg, s, a);
      if a.Lock? {
        SectionFrame(cfg, s.race, op.value);
        LockClock(cfg, s.race, op.value);
      }
    }
  }

  lemma InStepStep(hook: bool, s: Sys, a: Act, r': RaceState)
    requires Here(s, a) && InStep(s) && r'.clock <= Reads(s, a)
    requires r'.lastTick == if a.Lock? then s.tickIdx else s.race.lastTick
    ensures InStep(Control(hook, s, a, r'))
  {
  }

  lemma StaysInStep(cfg: Config, hook: bool, s: Sys, a: Act)
    requires ConfigOk(cfg) && Enabled(s, a) && InStep(s)
    ensures InStep(Fire(cfg, hook, s, a))
  {
    RaceInStep(cfg, s, a);
    InStepStep(hook, s, a, RaceAfter(cfg, s, a));
  }

  lemma LockClock(cfg: Config, r: RaceState, op: Op)
    requires ConfigOk(cfg) && op.Section? && OpOk(cfg, r, op)
    ensures Do(cfg, r, op).clock <= LastReading(op.sinceStamp, op.visits)
  {
    ReadyFrame(r, op);
    if Ready(r, op).status == InProgress {
      AdvanceFrame(cfg, Ready(r, op), op.visits, op.tick);
    }
  }

  /** The result lists announced so far. */
  function Announced(log: seq<Mark>): seq<seq<RaceResult>> {
    if log == [] then []
    else
      Announced(log[..|log| - 1]) +
      if log[|log| - 1].Closed? then [log[|log| - 1].results] else []
  }

  /** The counters of calls and closes, and the points of the loop where the race is over. */
  ghost predicate Counted(hook: bool, s: Sys) {
    && s.calls == (if hook && (s.pc.Closing? || s.pc.Returned?) then 1 else 0)
    && s.closes == (if s.pc.Returned? then 1 else 0)
    && (Over(s.pc) || s.pc.Finishing? ==> s.pc.why != DoneSeen)
  }

  /** The race is finished exactly from finishRace's section on, and then its results are what was announced, once. */
  ghost predicate ClosedOnce(hook: bool, s: Sys) {
    && (s.race.status == Finished <==> Over(s.pc))
    && Announced(s.race.log) == (if Over(s.pc) then [FinalResults(s.race)] else [])
    && Counted(hook, s)
  }

  lemma {:induction false} AnnouncedAppend(log: seq<Mark>, more: seq<Mark>)
    ensures Announced(log + more) == Announced(log) + Announced(more)
  {
    if more == [] {
      assert log + more == log;
    } else {
      var n := |more| - 1;
      assert (log + more)[..|log| + n] == log + more[..n];
      AnnouncedAppend(log, more[..n]);
    }
  }

  lemma AnnouncedMarks(cfg: Config, id: Uuid, m: Body, t: Times, tick: int, now: int)
    ensures Announced(MarksOf(cfg, id, m, t, tick, now)) == []
  {
    var ms := MarksOf(cfg, id, m, t, tick, now);
    if ms != [] {
      assert ms == [ms[0]] + ms[1..];
      AnnouncedAppend([ms[0]], ms[1..]);
      assert [ms[0]][..0] == [] && (|ms| == 2 ==> ms[1..] == [ms[1]] && ms[1..][..0] == []);
    }
  }

  lemma {:induction false} AdvanceAnnounces(cfg: Config, r: RaceState, visits: seq<Visit>, tick: int)
    requires ConfigOk(cfg) && forall v :: v in visits ==> v.id in r.players
    ensures Announced(Advance(cfg, r, visits, tick).log) == Announced(r.log)
  {
    if visits != [] {
      var n := |visits| - 1;
      var v, before := visits[n], Advance(cfg, r, visits[..n], tick);
      AdvanceAnnounces(cfg, r, visits[..n], tick);
      var c := before.players[v.id];
      var m := Moved(cfg, c.body, SpecOf(before, v.id));
      AnnouncedMarks(cfg, v.id, m, c.times, tick, v.now);
      AnnouncedAppend(before.log, MarksOf(cfg, v.id, m, c.times, tick, v.now));
    }
  }

  /** Only finishRace announces results, and it announces the results there are. */
  lemma DoAnnounces(cfg: Config, r: RaceState, op: Op)
    requires ConfigOk(cfg) && OpOk(cfg, r, op)
    ensures Announced(Do(cfg, r, op).log) ==
            Announced(r.log) + if op.Finish? && r.status != Finished then [FinalResults(r)] else []
  {
    match op
    case Add(id, spec, a, b) =>
      AnnouncedAppend(r.log, [Added(id, Spawn(cfg, |r.players|), r.lastTick, a, b)]);
    case Section(_, _, _, _, _) =>
      ReadyFrame(r, op);
      if Ready(r, op).status == InProgress {
        AdvanceAnnounces(cfg, Ready(r, op), op.visits, op.tick);
      }
    case Finish(_) => AnnouncedAppend(r.log, [Closed(FinalResults(r))]);
    case _ =>
  }

  /** What an action does to the race, as far as the control of Run is concerned. */
  ghost predicate Effect(s: Sys, a: Act, r': RaceState) {
    && (OpOf(s, a).None? ==> r' == s.race)
    && (a.CloseRace? ==> r' == Close(s.race, a.stamp))
    && (!a.CloseRace? ==>
          && (r'.status == Finished <==> s.race.status == Finished)
          && Announced(r'.log) == Announced(s.race.log)
          && (Over(s.pc) && s.race.status == Finished ==> r' == s.race))
    && (s.pc.Finishing? ==>
          forall id :: id in s.race.players ==> id in r'.players && r'.players[id] == s.race.players[id])
  }

  lemma DoStatus(cfg: Config, r: RaceState, op: Op)
    requires ConfigOk(cfg) && OpOk(cfg, r, op) && !op.Finish?
    ensures Do(cfg, r, op).status == Finished <==> r.status == Finished
    ensures op.Add? && r.status == Finished ==> Do(cfg, r, op) == r
    ensures op.Add? ==>
              forall id :: id in r.players ==>
                id in Do(cfg, r, op).players && Do(cfg, r, op).players[id] == r.players[id]
  {
    if op.Section? {
      SectionFrame(cfg, r, op);
      ReadyFrame(r, op);
    }
  }

  lemma EffectOf(cfg: Config, s: Sys, a: Act)
    requires ConfigOk(cfg) && Enabled(s, a) && InStep(s)
    ensures Effect(s, a, RaceAfter(cfg, s, a))
  {
    var op := OpOf(s, a);
    if op.Some? {
      OpPossible(cfg, s, a);
      if !a.CloseRace? {
        DoStatus(cfg, s.race, op.value);
        DoAnnounces(cfg, s.race, op.value);
      }
    }
  }

  lemma CountedStep(hook: bool, s: Sys, a: Act, r': RaceState)
    requires Here(s, a) && Counted(hook, s) && (a.CloseRace? ==> s.race.status != Finished)
    ensures var t := Control(hook, s, a, r');
            && t.race == r' && Counted(hook, t)
            && (Over(t.pc) <==> Over(s.pc) || a.CloseRace?)
  {
  }

  lemma ClosedOnceStep(hook: bool, s: Sys, a: Act, t: Sys)
    requires Here(s, a) && ClosedOnce(hook, s) && Effect(s, a, t.race)
    requires a.CloseRace? ==> Announced(t.race.log) == Announced(s.race.log) + [FinalResults(s.race)]
    requires Counted(hook, t) && (Over(t.pc) <==> Over(s.pc) || a.CloseRace?)
    ensures ClosedOnce(hook, t)
  {
  }

  lemma StaysClosedOnce(cfg: Config, hook: bool, s: Sys, a: Act)
    requires ConfigOk(cfg) && Enabled(s, a) && InStep(s) && ClosedOnce(hook, s)
    ensures ClosedOnce(hook, Fire(cfg, hook, s, a))
  {
    EffectOf(cfg, s, a);
    if a.CloseRace? {
      OpPossible(cfg, s, a);
      DoAnnounces(cfg, s.race, OpOf(s, a).value);
    }
    CountedStep(hook, s, a, RaceAfter(cfg, s, a));
    ClosedOnceStep(hook, s, a, Control(hook, s, a, RaceAfter(cfg, s, a)));
  }

  // ----- the event -----

  predicate NoFinishEvt(events: seq<Event>) {
    forall i :: 0 <= i < |events| ==> !events[i].RaceFinishedEvt?
  }

  /** The last event is the race's end, with the results there are, and the only one of its kind. */
  predicate FinishEvtLast(r: RaceState) {
    var n := |r.events| - 1;
    n >= 0 && r.events[n] == RaceFinishedEvt(FinalResults(r)) && NoFinishEvt(r.events[..n])
  }

  ghost predicate Emitted(s: Sys) {
    if Over(s.pc) then FinishEvtLast(s.race) else NoFinishEvt(s.race.events)
  }

  lemma DoEmits(cfg: Config, r: RaceState, op: Op)
    requires ConfigOk(cfg) && OpOk(cfg, r, op) && !op.Finish? && NoFinishEvt(r.events)
    ensures NoFinishEvt(Do(cfg, r, op).events)
  {
  }

  lemma StaysEmitted(cfg: Config, hook: bool, s: Sys, a: Act)
    requires ConfigOk(cfg) && Enabled(s, a) && InStep(s) && ClosedOnce(hook, s) && Emitted(s)
    ensures Emitted(Fire(cfg, hook, s, a))
  {
    var r' := RaceAfter(cfg, s, a);
    EffectOf(cfg, s, a);
    CountedStep(hook, s, a, r');
    if !a.CloseRace? && OpOf(s, a).Some? && !Over(s.pc) {
      OpPossible(cfg, s, a);
      DoEmits(cfg, s.race, OpOf(s, a).value);
    }
    EmittedStep(s, a, Control(hook, s, a, r'));
  }

  lemma EmittedStep(s: Sys, a: Act, t: Sys)
    requires Emitted(s) && Effect(s, a, t.race) && (Over(t.pc) <==> Over(s.pc) || a.CloseRace?)
    requires s.race.status == Finished <==> Over(s.pc)
    requires a.CloseRace? ==> !Over(s.pc)
    requires !a.CloseRace? && !Over(s.pc) ==> NoFinishEvt(t.race.events)
    ensures Emitted(t)
  {
    if a.CloseRace? {
      var n := |s.race.events|;
      assert t.race.events[..n] == s.race.events;
    }
  }

  // ----- reaping -----

  /** From the i-th look on, nobody was seen. */
  ghost predicate NobodySince(checks: seq<Check>, i: nat) {
    i < |checks| && forall k :: i <= k < |checks| ==> checks[k].count == 0
  }

  /** The last looks, over more than 30 s, all saw nobody. */
  ghost predicate EmptyWindow(checks: seq<Check>) {
    exists i :: 0 <= i < |checks| && NobodySince(checks, i) &&
                checks[|checks| - 1].at - checks[i].at > 30_000_000_000
  }

  predicate ReapedPc(pc: Pc) {
    (Over(pc) || pc.Finishing?) && pc.why == Reaped
  }

  ghost predicate Watched(s: Sys) {
    && (s.lastEmpty.Some? ==>
          exists i :: 0 <= i < |s.checks| && NobodySince(s.checks, i) && s.checks[i].at == s.lastEmpty.value)
    && (ReapedPc(s.pc) ==> EmptyWindow(s.checks))
  }

  lemma LookIsWatched(s: Sys, t: Sys, stamp: int)
    requires Watched(s) && t.checks == s.checks + [Check(|s.race.players|, stamp)]
    requires t.lastEmpty == EmptyAfter(s, stamp).0 && (ReapedPc(t.pc) ==> EmptyAfter(s, stamp).1)
    ensures Watched(t)
  {
    if t.lastEmpty.Some? {
      if s.lastEmpty.None? {
        assert NobodySince(t.checks, |s.checks|);
      } else {
        var i :| 0 <= i < |s.checks| && NobodySince(s.checks, i) && s.checks[i].at == s.lastEmpty.value;
        assert NobodySince(t.checks, i) && t.checks[i].at == s.lastEmpty.value;
      }
    }
  }

  lemma WatchedStep(hook: bool, s: Sys, a: Act, r': RaceState)
    requires Here(s, a) && !a.LookEmpty?
    ensures var t := Control(hook, s, a, r');
            t.checks == s.checks && t.lastEmpty == s.lastEmpty && (ReapedPc(t.pc) ==> ReapedPc(s.pc))
  {
  }

  lemma StaysWatched(cfg: Config, hook: bool, s: Sys, a: Act)
    requires ConfigOk(cfg) && Enabled(s, a) && Watched(s)
    ensures Watched(Fire(cfg, hook, s, a))
  {
    if a.LookEmpty? {
      LookIsWatched(s, Fire(cfg, hook, s, a), a.stamp);
    } else {
      WatchedStep(hook, s, a, RaceAfter(cfg, s, a));
    }
  }

  // ----- who is in the results -----

  /** Those found finished are there and finished until the race closes, and then they are in its results. */
  ghost predicate Rewarded(s: Sys) {
    && Recorded(s.race)
    && (s.pc.Finishing? && s.pc.why.AllDone? ==>
          forall id :: id in s.pc.why.present ==> id in s.race.players && s.race.players[id].body.finished)
    && (Over(s.pc) && s.pc.why.AllDone? ==>
          forall id :: id in s.pc.why.present ==> Listed(FinalResults(s.race), id))
  }

  /** How the loop comes to end because everybody is done, and how it goes on from there. */
  ghost predicate EndsWith(s: Sys, a: Act, pc: Pc) {
    && (pc.Finishing? && pc.why.AllDone? ==>
          (pc == s.pc && !a.CloseRace?) ||
          (OpOf(s, a).None? && AllPlayersFinished(s.race) && pc.why.present == s.race.players.Keys))
    && (Over(pc) && pc.why.AllDone? ==>
          (Over(s.pc) && pc.why == s.pc.why && !a.CloseRace?) ||
          (a.CloseRace? && s.pc.Finishing? && pc.why == s.pc.why))
  }

  lemma PcStep(hook: bool, s: Sys, a: Act, r': RaceState)
    requires Here(s, a)
    ensures var t := Control(hook, s, a, r'); t.race == r' && EndsWith(s, a, t.pc)
  {
  }

  lemma RewardedStep(hook: bool, s: Sys, a: Act, t: Sys)
    requires ClosedOnce(hook, s) && Rewarded(s) && Effect(s, a, t.race) && Recorded(t.race) && EndsWith(s, a, t.pc)
    ensures Rewarded(t)
  {
    if a.CloseRace? {
      forall id
        ensures Listed(FinalResults(s.race), id) <==> id in s.race.players && id in s.race.finishedOrder
      {
        ResultsList(s.race, id);
      }
    }
  }

  lemma StaysRewarded(cfg: Config, hook: bool, s: Sys, a: Act)
    requires ConfigOk(cfg) && Enabled(s, a) && InStep(s) && ClosedOnce(hook, s) && Rewarded(s)
    ensures Rewarded(Fire(cfg, hook, s, a))
  {
    var r' := RaceAfter(cfg, s, a);
    EffectOf(cfg, s, a);
    RaceRecords(cfg, s, a);
    PcStep(hook, s, a, r');
    RewardedStep(hook, s, a, Control(hook, s, a, r'));
  }

  lemma RaceRecords(cfg: Config, s: Sys, a: Act)
    requires ConfigOk(cfg) && Enabled(s, a) && InStep(s) && Recorded(s.race)
    ensures Recorded(RaceAfter(cfg, s, a))
  {
    if OpOf(s, a).Some? {
      OpPossible(cfg, s, a);
      DoRecords(cfg, s.race, OpOf(s, a).value);
    }
  }

  // ----- every schedule -----

  ghost predicate Schedule(cfg: Config, hook: bool, clock: int, acts: seq<Act>) {
    ConfigOk(cfg) && Play(cfg, hook, clock, acts).Some?
  }

  ghost function Now(cfg: Config, hook: bool, clock: int, acts: seq<Act>): Sys
    requires Schedule(cfg, hook, clock, acts)
  {
    Play(cfg, hook, clock, acts).value
  }

  lemma {:induction false} ScheduleKeeps(cfg: Config, hook: bool, clock: int, acts: seq<Act>)
    requires Schedule(cfg, hook, clock, acts)
    ensures var s := Now(cfg, hook, clock, acts);
            InStep(s) && ClosedOnce(hook, s) && Emitted(s) && Watched(s) && Rewarded(s)
  {
    if acts != [] {
      var n := |acts| - 1;
      ScheduleKeeps(cfg, hook, clock, acts[..n]);
      var s := Now(cfg, hook, clock, acts[..n]);
      StaysInStep(cfg, hook, s, acts[n]);
      StaysClosedOnce(cfg, hook, s, acts[n]);
      StaysEmitted(cfg, hook, s, acts[n]);
      StaysWatched(cfg, hook, s, acts[n]);
      StaysRewarded(cfg, hook, s, acts[n]);
    }
  }

  /**
   * However the goroutines interleave: when Run has returned, the race is Finished, OnFinish was called
   * exactly once if it was set, and Done was closed exactly once, after the call. A RaceFinishedEvt is in
   * Events from the moment the race is Finished, once and last, and its list is what FinalResults still
   * answers; before, there is none.
   */
  lemma RunEndsOnce(cfg: Config, hook: bool, clock: int, acts: seq<Act>)
    requires Schedule(cfg, hook, clock, acts)
    ensures var s := Now(cfg, hook, clock, acts);
            && (s.pc.Returned? ==>
                  && s.race.status == Finished && s.closes == 1 && s.calls == (if hook then 1 else 0)
                  && s.pc.why != DoneSeen)
            && s.closes <= 1 && s.calls <= 1 && (hook ==> s.closes <= s.calls)
            && (s.race.status == Finished ==>
                  FinishEvtLast(s.race) && Announced(s.race.log) == [FinalResults(s.race)])
            && (s.race.status != Finished ==>
                  NoFinishEvt(s.race.events) && Announced(s.race.log) == [] && s.calls == 0 && s.closes == 0)
  {
    ScheduleKeeps(cfg, hook, clock, acts);
  }

  /** A race is reaped only when every look at its players over more than 30 s saw none. */
  lemma ReapedOnlyEmpty(cfg: Config, hook: bool, clock: int, acts: seq<Act>)
    requires Schedule(cfg, hook, clock, acts)
    ensures var s := Now(cfg, hook, clock, acts);
            s.pc.Returned? && s.pc.why == Reaped ==> EmptyWindow(s.checks)
  {
    ScheduleKeeps(cfg, hook, clock, acts);
  }

  /**
   * When the loop ends because everybody present was finished, everybody present at that check is in the
   * announced results, whoever joined in between.
   */
  lemma EverybodyPresentIsRewarded(cfg: Config, hook: bool, clock: int, acts: seq<Act>, id: Uuid)
    requires Schedule(cfg, hook, clock, acts)
    requires Now(cfg, hook, clock, acts).pc.Returned? && Now(cfg, hook, clock, acts).pc.why.AllDone?
    requires id in Now(cfg, hook, clock, acts).pc.why.present
    ensures var s := Now(cfg, hook, clock, acts);
            |Announced(s.race.log)| == 1 && Listed(Announced(s.race.log)[0], id)
  {
    ScheduleKeeps(cfg, hook, clock, acts);
  }

  // ----- the machine runs the race -----

  /** The operations on the race among some actions. */
  ghost function OpsOf(cfg: Config, hook: bool, clock: int, acts: seq<Act>): seq<Op>
    requires Schedule(cfg, hook, clock, acts)
  {
    if acts == [] then []
    else
      var n := |acts| - 1;
      var op := OpOf(Play(cfg, hook, clock, acts[..n]).value, acts[n]);
      OpsOf(cfg, hook, clock, acts[..n]) + if op.Some? then [op.value] else []
  }

  /** Every schedule of the machine is, on the race, a run of its operations: all that runs keep holds here. */
  lemma {:induction false} MachineRunsRace(cfg: Config, hook: bool, clock: int, acts: seq<Act>)
    requires Schedule(cfg, hook, clock, acts)
    ensures var ops := OpsOf(cfg, hook, clock, acts);
            Run(cfg, clock, ops) && End(cfg, clock, ops) == Play(cfg, hook, clock, acts).value.race
  {
    if acts != [] {
      var n := |acts| - 1;
      MachineRunsRace(cfg, hook, clock, acts[..n]);
      ScheduleKeeps(cfg, hook, clock, acts[..n]);
      var s := Now(cfg, hook, clock, acts[..n]);
      var op := OpOf(s, acts[n]);
      var ops := OpsOf(cfg, hook, clock, acts[..n]);
      FireRace(cfg, hook, s, acts[n]);
      if op.Some? {
        OpPossible(cfg, s, acts[n]);
        Grow(cfg, NewRace(clock), ops, op.value, s.race);
      } else {
        assert ops + [] == ops;
      }
    }
  }

  lemma FireRace(cfg: Config, hook: bool, s: Sys, a: Act)
    requires ConfigOk(cfg) && Enabled(s, a)
    ensures Fire(cfg, hook, s, a).race == RaceAfter(cfg, s, a)
  {
  }
}
