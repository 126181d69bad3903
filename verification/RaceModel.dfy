/** One race as a value, and its atomic steps as functions: the specification of internal/race. */
module RaceModel {
  import opened Base
  import opened Physics

  datatype Status = Pending | Starting | InProgress | Finished

  /** What is fixed when a race is created: its track, its limits and Go's package math. */
  datatype Config = Config(env: Env, waypoints: seq<Vec3>, spawns: seq<Vec3>,
                           tickHz: nat, maxLaps: nat, maxPlayers: nat)

  ghost predicate ConfigOk(cfg: Config) {
    EnvOk(cfg.env) && cfg.tickHz > 0 && cfg.maxLaps > 0 && cfg.maxPlayers > 0
  }

  const DEFAULT_TICK_HZ := 30
  const DEFAULT_MAX_PLAYERS := 4
  const DEFAULT_MAX_LAPS := 1
  const COUNTDOWN := 3_000 * MILLI
  const EMPTY_RACE_REAP_AFTER := 30 * SECOND
  const CHECKPOINT_RADIUS := 8.0
  const INPUT_CAPACITY := 256
  const CONTROL_CAPACITY := 8

  /** New's handling of non-positive settings. */
  function NewConfig(env: Env, waypoints: seq<Vec3>, spawns: seq<Vec3>,
                     tickHz: int, maxLaps: int, maxPlayers: int): Config
  {
    Config(env, waypoints, spawns,
           if tickHz <= 0 then DEFAULT_TICK_HZ else tickHz,
           if maxLaps <= 0 then DEFAULT_MAX_LAPS else maxLaps,
           if maxPlayers <= 0 then DEFAULT_MAX_PLAYERS else maxPlayers)
  }

  /** The tick length in seconds: a whole number of nanoseconds. */
  function Dt(cfg: Config): (dt: real)
    requires cfg.tickHz > 0
    ensures dt >= 0.0
  {
    (SECOND / cfg.tickHz) as real / SECOND as real
  }

  /** A tick is the whole number of nanoseconds that fits TickRateHz times into a second. */
  lemma TickLength(cfg: Config) returns (ns: nat)
    requires cfg.tickHz > 0
    ensures Dt(cfg) == ns as real / 1_000_000_000.0
    ensures ns * cfg.tickHz <= 1_000_000_000 < (ns + 1) * cfg.tickHz
  {
    ns := SECOND / cfg.tickHz;
    assert SECOND == ns * cfg.tickHz + SECOND % cfg.tickHz;
  }

  // ----- cars -----

  /** The part of PlayerState that no clock reading and no rank flows into. */
  datatype Body = Body(motion: Motion, lastInput: Input, lastInputTick: nat,
                       lap: nat, lastCheckpoint: nat, nextCheckpoint: nat, finished: bool)

  /** The rest of PlayerState. */
  datatype Times = Times(startedAt: int, lapStartedAt: int, bestLapMs: int, finishTime: int, finishPos: nat)

  datatype Car = Car(body: Body, times: Times)

  datatype InputMsg = InputMsg(id: Uuid, input: Input, sequence: nat)

  datatype RaceResult = RaceResult(id: Uuid, position: nat, totalTimeMs: int, bestLapMs: int)

  datatype Event =
    | RaceStartingEvt
    | PlayerJoinedEvt(id: Uuid, at: int)
    | PlayerLeftEvt(id: Uuid, reason: string)
    | CheckpointPassedEvt(id: Uuid, index: nat, tick: int)
    | LapCompletedEvt(id: Uuid, lap: nat, lapTimeMs: int, tick: int)
    | RaceFinishedEvt(results: seq<RaceResult>)

  const IDLE := Input(0.0, 0.0, 0.0)

  function LenOr1<T>(s: seq<T>): nat {
    if s == [] then 1 else |s|
  }

  function NewBody(cfg: Config, at: Vec3): Body {
    Body(Motion(at, 0.0, 0.0), IDLE, 0, 0, 0, 1 % LenOr1(cfg.waypoints), false)
  }

  function NewCar(cfg: Config, at: Vec3, stampA: int, stampB: int): Car {
    Car(NewBody(cfg, at), Times(stampA, stampB, 0, 0, 0))
  }

  function Spawn(cfg: Config, index: nat): Vec3 {
    if cfg.spawns == [] then Vec3(index as real * 2.0, 0.0, 0.0)
    else cfg.spawns[index % |cfg.spawns|]
  }

  // ----- one car in one tick -----

  function Moved(cfg: Config, b: Body, spec: CarSpec): Body
    requires cfg.env.pi > 0.0 && cfg.tickHz > 0
  {
    b.(motion := Stepped(cfg.env, b.motion, b.lastInput, spec, Dt(cfg)))
  }

  function NextIndex(cfg: Config, b: Body): (i: nat)
    requires cfg.waypoints != []
    ensures i < |cfg.waypoints|
  {
    b.nextCheckpoint % |cfg.waypoints|
  }

  /** The checkpoint test after the step. */
  predicate Near(cfg: Config, b: Body) {
    cfg.waypoints != [] &&
    Distance(cfg.env, b.motion.position, cfg.waypoints[NextIndex(cfg, b)]) < CHECKPOINT_RADIUS
  }

  /** The start line is crossed by a car that has crossed it before. */
  predicate ClosesLap(cfg: Config, b: Body) {
    Near(cfg, b) && NextIndex(cfg, b) == 0 && b.lap > 0
  }

  function Passing(cfg: Config, b: Body): Body
    requires cfg.waypoints != []
  {
    var i := NextIndex(cfg, b);
    var lap := if i == 0 then b.lap + 1 else b.lap;
    b.(lastCheckpoint := i, nextCheckpoint := (i + 1) % |cfg.waypoints|, lap := lap,
       finished := i == 0 && b.lap > 0 && lap >= cfg.maxLaps)
  }

  /** The body after the checkpoint code, given the body m that the step left. */
  function Checked(cfg: Config, m: Body): Body {
    if Near(cfg, m) then Passing(cfg, m) else m
  }

  function BodyTick(cfg: Config, b: Body, spec: CarSpec): Body
    requires cfg.env.pi > 0.0 && cfg.tickHz > 0
  {
    if b.finished then b else Checked(cfg, Moved(cfg, b, spec))
  }

  function LapMs(t: Times, now: int): int {
    TruncDiv(now - t.lapStartedAt, MILLI)
  }

  function Better(best: int, lapMs: int): int {
    if best == 0 || lapMs < best then lapMs else best
  }

  function TimesTick(cfg: Config, m: Body, t: Times, now: int, rank: nat): Times {
    if !ClosesLap(cfg, m) then t
    else
      var lapped := t.(bestLapMs := Better(t.bestLapMs, LapMs(t, now)), lapStartedAt := now);
      if Checked(cfg, m).finished then lapped.(finishTime := now, finishPos := rank) else lapped
  }

  /**
   * The trace that the proofs are about: what was appended to Events, and what the code leaves
   * unsaid (where a car was when it passed, when and where it was added).
   */
  datatype Mark =
    | Added(id: Uuid, at: Vec3, since: int, stampA: int, stampB: int)
    | Passed(id: Uuid, index: nat, tick: int, at: Vec3)
    | Lapped(id: Uuid, lap: nat, lapTimeMs: int, tick: int)
    | Closed(results: seq<RaceResult>)

  function MarksOf(cfg: Config, id: Uuid, m: Body, t: Times, tick: int, now: int): seq<Mark> {
    if !Near(cfg, m) then []
    else
      [Passed(id, NextIndex(cfg, m), tick, m.motion.position)] +
      if ClosesLap(cfg, m) then [Lapped(id, m.lap + 1, LapMs(t, now), tick)] else []
  }

  /** The event that goes with a mark of MarksOf. */
  function Announce(m: Mark): Event
    requires m.Passed? || m.Lapped?
  {
    match m
    case Passed(id, index, tick, _) => CheckpointPassedEvt(id, index, tick)
    case Lapped(id, lap, ms, tick) => LapCompletedEvt(id, lap, ms, tick)
  }

  function EventsOf(cfg: Config, id: Uuid, m: Body, t: Times, tick: int, now: int): seq<Event> {
    var marks := MarksOf(cfg, id, m, t, tick, now);
    seq(|marks|, i requires 0 <= i < |marks| => Announce(marks[i]))
  }

  /** The events of a turn: the checkpoint with its index and tick, then a lap with its number, time and tick. */
  lemma EventsMeaning(cfg: Config, id: Uuid, m: Body, t: Times, tick: int, now: int)
    ensures !Near(cfg, m) ==> EventsOf(cfg, id, m, t, tick, now) == []
    ensures Near(cfg, m) && !ClosesLap(cfg, m) ==>
              EventsOf(cfg, id, m, t, tick, now) == [CheckpointPassedEvt(id, m.nextCheckpoint % |cfg.waypoints|, tick)]
    ensures Near(cfg, m) && ClosesLap(cfg, m) ==>
              EventsOf(cfg, id, m, t, tick, now) ==
              [CheckpointPassedEvt(id, 0, tick), LapCompletedEvt(id, m.lap + 1, LapMs(t, now), tick)]
  {
  }

  // ----- the race -----

  /** clock: the latest clock reading; lastTick: the latest tick; both only for the proofs, like log. */
  datatype RaceState = RaceState(status: Status, players: map<Uuid, Car>, specs: map<Uuid, CarSpec>,
                                 finishedOrder: seq<Uuid>, startTick: int,
                                 startRealTime: Option<int>, finishTime: Option<int>, events: seq<Event>,
                                 log: seq<Mark>, clock: int, lastTick: int)

  function NewRace(clock: int): RaceState {
    RaceState(Pending, map[], map[], [], 0, None, None, [], [], clock, -1)
  }

  /** AddPlayer's answer. */
  predicate Accepts(cfg: Config, r: RaceState) {
    r.status != Finished && |r.players| < cfg.maxPlayers
  }

  function AddPlayer(cfg: Config, r: RaceState, id: Uuid, spec: CarSpec, stampA: int, stampB: int): RaceState {
    if !Accepts(cfg, r) || id in r.players then r
    else
      var at := Spawn(cfg, |r.players|);
      r.(players := r.players[id := NewCar(cfg, at, stampA, stampB)],
         specs := r.specs[id := spec],
         log := r.log + [Added(id, at, r.lastTick, stampA, stampB)],
         clock := stampB)
  }

  function RemovePlayer(r: RaceState, id: Uuid): RaceState {
    r.(players := r.players - {id}, specs := r.specs - {id})
  }

  function ApplyInput(r: RaceState, m: InputMsg): RaceState {
    if m.id !in r.players || r.players[m.id].body.finished then r
    else
      var c := r.players[m.id];
      r.(players := r.players[m.id := c.(body := c.body.(lastInput := m.input, lastInputTick := m.sequence))])
  }

  function DrainInputs(r: RaceState, msgs: seq<InputMsg>): RaceState {
    if msgs == [] then r
    else ApplyInput(DrainInputs(r, msgs[..|msgs| - 1]), msgs[|msgs| - 1])
  }

  /** One turn of the loop over players: whose, and the clock as it stands when the turn ends. */
  datatype Visit = Visit(id: Uuid, now: int)

  function SpecOf(r: RaceState, id: Uuid): CarSpec {
    if id in r.specs then r.specs[id] else DEFAULT_SPEC
  }

  function AdvanceOne(cfg: Config, r: RaceState, v: Visit, tick: int): RaceState
    requires cfg.env.pi > 0.0 && cfg.tickHz > 0 && v.id in r.players
  {
    var c := r.players[v.id];
    if c.body.finished then r.(clock := v.now)
    else Settle(cfg, r, v, tick, Moved(cfg, c.body, SpecOf(r, v.id)))
  }

  /** The rest of a turn, given the body m that the step left. */
  function Settle(cfg: Config, r: RaceState, v: Visit, tick: int, m: Body): RaceState
    requires v.id in r.players
  {
    var t := r.players[v.id].times;
    var b := Checked(cfg, m);
    r.(players := r.players[v.id := Car(b, TimesTick(cfg, m, t, v.now, |r.finishedOrder| + 1))],
       finishedOrder := if b.finished then r.finishedOrder + [v.id] else r.finishedOrder,
       events := r.events + EventsOf(cfg, v.id, m, t, tick, v.now),
       log := r.log + MarksOf(cfg, v.id, m, t, tick, v.now),
       clock := v.now)
  }

  function Ids(visits: seq<Visit>): set<Uuid> {
    set v | v in visits :: v.id
  }

  ghost predicate Distinct(visits: seq<Visit>) {
    forall i, j :: 0 <= i < j < |visits| ==> visits[i].id != visits[j].id
  }

  ghost predicate Rising(from: int, visits: seq<Visit>) {
    && (forall i :: 0 <= i < |visits| ==> from <= visits[i].now)
    && (forall i, j :: 0 <= i < j < |visits| ==> visits[i].now <= visits[j].now)
  }

  /** The clock after a tick that began at the reading from. */
  function LastReading(from: int, visits: seq<Visit>): int {
    if visits == [] then from else visits[|visits| - 1].now
  }

  function Advance(cfg: Config, r: RaceState, visits: seq<Visit>, tick: int): (r': RaceState)
    requires cfg.env.pi > 0.0 && cfg.tickHz > 0
    requires forall v :: v in visits ==> v.id in r.players
    ensures r'.players.Keys == r.players.Keys
  {
    if visits == [] then r
    else
      var before := Advance(cfg, r, visits[..|visits| - 1], tick);
      AdvanceOne(cfg, before, visits[|visits| - 1], tick)
  }

  function AutoStart(r: RaceState, stamp: int): RaceState {
    if r.status == Pending && r.players != map[]
    then r.(status := Starting, startRealTime := Some(stamp), events := r.events + [RaceStartingEvt], clock := stamp)
    else r
  }

  function Launch(r: RaceState, stamp: int, tick: int): RaceState {
    if r.status == Starting && r.startRealTime.Some? && stamp - r.startRealTime.value >= COUNTDOWN
    then r.(status := InProgress, startTick := tick, clock := stamp)
    else r
  }

  function Started(r: RaceState, startStamp: int, sinceStamp: int, tick: int): RaceState {
    Launch(AutoStart(r, startStamp), sinceStamp, tick)
  }

  /** The locked section of one loop iteration. */
  function TickSection(cfg: Config, r: RaceState, tick: int, startStamp: int, sinceStamp: int,
                       msgs: seq<InputMsg>, visits: seq<Visit>): RaceState
    requires cfg.env.pi > 0.0 && cfg.tickHz > 0
    requires forall v :: v in visits ==> v.id in r.players
  {
    var started := Started(r, startStamp, sinceStamp, tick);
    DrainKeeps(started, msgs);
    var drained := DrainInputs(started, msgs);
    var moved := if drained.status == InProgress then Advance(cfg, drained, visits, tick) else drained;
    moved.(events := [], lastTick := tick)
  }

  lemma DrainKeeps(r: RaceState, msgs: seq<InputMsg>)
    ensures DrainInputs(r, msgs).players.Keys == r.players.Keys
    ensures DrainInputs(r, msgs).(players := r.players) == r
  {
  }

  function TotalMs(t: Times): int {
    TruncDiv(t.finishTime - t.startedAt, MILLI)
  }

  function ResultOf(id: Uuid, position: nat, t: Times): RaceResult {
    RaceResult(id, position, TotalMs(t), t.bestLapMs)
  }

  /** The results of the first n finishers, players that left skipped. */
  function ResultsUpTo(players: map<Uuid, Car>, order: seq<Uuid>, n: nat): seq<RaceResult>
    requires n <= |order|
  {
    if n == 0 then []
    else
      ResultsUpTo(players, order, n - 1) +
      if order[n - 1] in players then [ResultOf(order[n - 1], n, players[order[n - 1]].times)] else []
  }

  function FinalResults(r: RaceState): seq<RaceResult> {
    ResultsUpTo(r.players, r.finishedOrder, |r.finishedOrder|)
  }

  /** The locked section of finishRace. */
  function Close(r: RaceState, stamp: int): RaceState {
    if r.status == Finished then r
    else r.(status := Finished, finishTime := Some(stamp),
            events := r.events + [RaceFinishedEvt(FinalResults(r))],
            log := r.log + [Closed(FinalResults(r))], clock := stamp)
  }

  predicate AllPlayersFinished(r: RaceState) {
    r.players != map[] && forall id :: id in r.players ==> r.players[id].body.finished
  }

  // ----- operations and runs -----

  /** Everything that happens to a race under its lock, in the order the lock is taken. */
  datatype Op =
    | Add(id: Uuid, spec: CarSpec, stampA: int, stampB: int)
    | Remove(id: Uuid)
    | Note(event: Event)
    | Section(tick: int, startStamp: int, sinceStamp: int, msgs: seq<InputMsg>, visits: seq<Visit>)
    | Finish(stamp: int)

  /** The clock is monotone, ticks are numbered upward, and the loop visits every player once in some order. */
  ghost predicate OpOk(cfg: Config, r: RaceState, op: Op) {
    match op
    case Add(_, _, a, b) => r.clock <= a <= b
    case Remove(_) => true
    case Note(ev) => ev.PlayerJoinedEvt? || ev.PlayerLeftEvt?
    case Section(tick, a, b, _, visits) =>
      && r.lastTick < tick && r.clock <= a <= b
      && (if Started(r, a, b, tick).status == InProgress
          then Ids(visits) == r.players.Keys && Distinct(visits) && Rising(b, visits)
          else visits == [])
    case Finish(stamp) => r.clock <= stamp
  }

  ghost function Do(cfg: Config, r: RaceState, op: Op): RaceState
    requires ConfigOk(cfg) && OpOk(cfg, r, op)
  {
    match op
    case Add(id, spec, a, b) => AddPlayer(cfg, r, id, spec, a, b)
    case Remove(id) => RemovePlayer(r, id)
    case Note(ev) => r.(events := r.events + [ev])
    case Section(tick, a, b, msgs, visits) => TickSection(cfg, r, tick, a, b, msgs, visits)
    case Finish(stamp) => Close(r, stamp)
  }

  /** The race after some operations, if each was possible in its turn. */
  ghost function After(cfg: Config, r: RaceState, ops: seq<Op>): Option<RaceState>
    requires ConfigOk(cfg)
  {
    if ops == [] then Some(r)
    else
      var before := After(cfg, r, ops[..|ops| - 1]);
      var op := ops[|ops| - 1];
      if before.Some? && OpOk(cfg, before.value, op) then Some(Do(cfg, before.value, op)) else None
  }
}
