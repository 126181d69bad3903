/** The objects of internal/race, updated in place, each method proved against RaceModel. */
module RaceEngine {
  import opened Base
  import opened Physics
  import opened RaceModel
  import opened RaceLoop

  /** time.Now: readings never go back. */
  class Clock {
    var last: int

    constructor (start: int)
      ensures last == start
    {
      last := start;
    }

    method Now() returns (t: int)
      modifies this
      ensures old(last) <= t == last
    {
      var passed: int := *;
      last := if passed > 0 then last + passed else last;
      t := last;
    }
  }

  class PlayerState {
    const id: Uuid
    var position: Vec3
    var velocity: real
    var heading: real
    var lastInput: Input
    var lastInputTick: nat
    var lap: nat
    var lastCheckpoint: nat
    var nextCheckpoint: nat
    var finished: bool
    var finishPos: nat
    var finishTime: int
    var lapStartedAt: int
    var bestLapMs: int
    var startedAt: int

    ghost function Body(): Body
      reads this
    {
      RaceModel.Body(Motion(position, velocity, heading), lastInput, lastInputTick,
                     lap, lastCheckpoint, nextCheckpoint, finished)
    }

    ghost function Value(): Car
      reads this
    {
      Car(Body(), Times(startedAt, lapStartedAt, bestLapMs, finishTime, finishPos))
    }

    constructor (id: Uuid, position: Vec3, nextCheckpoint: nat, startedAt: int, lapStartedAt: int)
      ensures this.id == id
      ensures Value() == Car(RaceModel.Body(Motion(position, 0.0, 0.0), IDLE, 0, 0, 0, nextCheckpoint, false),
                             Times(startedAt, lapStartedAt, 0, 0, 0))
    {
      this.id := id;
      this.position := position;
      this.nextCheckpoint := nextCheckpoint;
      this.startedAt := startedAt;
      this.lapStartedAt := lapStartedAt;
      velocity, heading := 0.0, 0.0;
      lastInput, lastInputTick := IDLE, 0;
      lap, lastCheckpoint, finished := 0, 0, false;
      finishPos, finishTime, bestLapMs := 0, 0, 0;
    }
  }

  method Step(e: Env, state: PlayerState, input: Input, spec: CarSpec, dt: real)
    requires e.pi > 0.0
    modifies state
    ensures state.Value() == old(state.Value()).(body := old(state.Body()).(motion :=
                               Stepped(e, old(state.Body()).motion, input, spec, dt)))
  {
    var accel := (input.throttle - input.brake) * spec.maxAccel;
    ghost var p := state.position;
    var v, h := state.velocity, state.heading;
    state.velocity := Clamp(v + accel * dt, -spec.maxSpeed, spec.maxSpeed);
    assert state.velocity == Accelerate(v, input, spec, dt);
    var headingDelta := Turn(input, spec, dt);
    state.heading := WrapAngle(e.pi, h + headingDelta);
    var speed := state.velocity;
    state.position := state.position.(x := state.position.x + speed * dt * e.cos(state.heading));
    state.position := state.position.(z := state.position.z + speed * dt * e.sin(state.heading));
    assert state.position == Glide(e, p, state.velocity, state.heading, dt);
  }

  class Race {
    const cfg: Config
    var status: Status
    var players: map<Uuid, PlayerState>
    var specs: map<Uuid, CarSpec>
    var finishedOrder: seq<Uuid>
    var startTick: int
    var startRealTime: Option<int>
    var finishTime: Option<int>
    var events: seq<Event>
    var joinMsg: seq<JoinMsg>
    var leaveMsg: seq<LeaveMsg>
    var inputCh: seq<InputMsg>
    // for the proofs only
    ghost var cars: map<Uuid, Car>
    ghost var log: seq<Mark>
    ghost var seen: int
    ghost var lastTick: int

    /** cars is what the player objects hold; each is filed under its own id, so no two entries share one. */
    ghost predicate Valid()
      reads this`players, this`cars, players.Values
    {
      && ConfigOk(cfg)
      && cars.Keys == players.Keys
      && forall id :: id in players ==> players[id].id == id && players[id].Value() == cars[id]
    }

    ghost function View(): RaceState
      reads this`status, this`cars, this`specs, this`finishedOrder, this`startTick, this`startRealTime,
            this`finishTime, this`events, this`log, this`seen, this`lastTick
    {
      RaceState(status, cars, specs, finishedOrder, startTick, startRealTime, finishTime, events,
                log, seen, lastTick)
    }

    /** What the locked section never touches. */
    twostate predicate RestStays()
      reads this`players, this`joinMsg, this`leaveMsg
    {
      players == old(players) && joinMsg == old(joinMsg) && leaveMsg == old(leaveMsg)
    }

    constructor (env: Env, waypoints: seq<Vec3>, spawns: seq<Vec3>,
                 tickHz: int, maxLaps: int, maxPlayers: int, ghost clock: int)
      requires EnvOk(env)
      ensures Valid() && cfg == NewConfig(env, waypoints, spawns, tickHz, maxLaps, maxPlayers)
      ensures cfg.env == env && cfg.waypoints == waypoints && cfg.spawns == spawns
      ensures cfg.tickHz == (if tickHz <= 0 then 30 else tickHz) && cfg.maxLaps == (if maxLaps <= 0 then 1 else maxLaps)
      ensures cfg.maxPlayers == if maxPlayers <= 0 then 4 else maxPlayers
      ensures View() == NewRace(clock) && joinMsg == [] && leaveMsg == [] && inputCh == []
      ensures status == Pending && players == map[] && specs == map[] && finishedOrder == [] && events == []
      ensures startRealTime.None? && finishTime.None?
    {
      cfg := NewConfig(env, waypoints, spawns, tickHz, maxLaps, maxPlayers);
      status, players, specs, finishedOrder := Pending, map[], map[], [];
      startTick, startRealTime, finishTime, events := 0, None, None, [];
      joinMsg, leaveMsg, inputCh := [], [], [];
      cars, log, seen, lastTick := map[], [], clock, -1;
    }

    /** len(r.players). */
    method Count() returns (n: nat)
      requires Valid()
      ensures n == |cars| == |players| && cars.Keys == players.Keys
    {
      assert |cars.Keys| == |players.Keys|;
      n := |players|;
    }

    /** Files a new player object, with its two join stamps. */
    method FilePlayer(p: PlayerState, spec: CarSpec, ghost a: int, ghost b: int)
      requires Valid() && p.id !in players && p.Value() == NewCar(cfg, p.position, a, b)
      modifies this`players, this`cars, this`specs, this`log, this`seen
      ensures Valid() && View() == old(View()).(
                players := old(View()).players[p.id := NewCar(cfg, p.position, a, b)],
                specs := old(specs)[p.id := spec],
                log := old(log) + [Added(p.id, p.position, lastTick, a, b)], clock := b)
      ensures players == old(players)[p.id := p]
    {
      hide NewCar, Valid;
      Seat(p);
      specs := specs[p.id := spec];
      log := log + [Added(p.id, p.position, lastTick, a, b)];
      seen := b;
    }

    method Seat(p: PlayerState)
      requires Valid() && p.id !in players
      modifies this`players, this`cars
      ensures Valid() && players == old(players)[p.id := p] && cars == old(cars)[p.id := p.Value()]
    {
      players := players[p.id := p];
      cars := cars[p.id := p.Value()];
    }

    method AddPlayer(id: Uuid, spec: CarSpec, clock: Clock) returns (ok: bool, ghost a: int, ghost b: int)
      requires Valid() && seen <= clock.last
      modifies this`players, this`cars, this`specs, this`log, this`seen, clock
      ensures Valid() && old(clock.last) <= a <= b == clock.last && seen <= clock.last
      ensures ok <==> old(status) != Finished && |old(players)| < cfg.maxPlayers
      ensures ok ==> players.Keys == old(players).Keys + {id}
      ensures !ok ==> View() == old(View())
      ensures View() == RaceModel.AddPlayer(cfg, old(View()), id, spec, a, b)
      ensures forall p :: p in players.Values ==> p in old(players.Values) || fresh(p)
    {
      hide Valid, NewCar, Spawn;
      a, b := clock.last, clock.last;
      var count := Count();
      if status == Finished {
        return false, a, b;
      }
      if count >= cfg.maxPlayers {
        return false, a, b;
      }
      if id in players {
        return true, a, b;
      }
      a, b := NewPlayer(id, spec, Spawn(cfg, count), clock);
      ok := true;
    }

    method NewPlayer(id: Uuid, spec: CarSpec, at: Vec3, clock: Clock) returns (ghost a: int, ghost b: int)
      requires Valid() && seen <= clock.last && id !in players
      modifies this`players, this`cars, this`specs, this`log, this`seen, clock
      ensures Valid() && old(clock.last) <= a <= b == clock.last == seen
      ensures players.Keys == old(players).Keys + {id}
      ensures View() == old(View()).(players := old(View()).players[id := NewCar(cfg, at, a, b)],
                                     specs := old(specs)[id := spec],
                                     log := old(log) + [Added(id, at, lastTick, a, b)], clock := b)
      ensures forall p :: p in players.Values ==> p in old(players.Values) || fresh(p)
    {
      hide Valid;
      var startedAt := clock.Now();
      var lapStartedAt := clock.Now();
      a, b := startedAt, lapStartedAt;
      var p := new PlayerState(id, at, 1 % LenOr1(cfg.waypoints), startedAt, lapStartedAt);
      FilePlayer(p, spec, startedAt, lapStartedAt);
    }

    method RemovePlayer(id: Uuid)
      requires Valid()
      modifies this`players, this`cars, this`specs
      ensures Valid() && View() == RaceModel.RemovePlayer(old(View()), id)
      ensures players.Values <= old(players.Values)
    {
      players := players - {id};
      specs := specs - {id};
      cars := cars - {id};
    }

    /** The three non-blocking sends: a full channel drops the message. */
    method ApplyInput(m: InputMsg)
      requires Valid()
      modifies this`inputCh
      ensures inputCh == Send(old(inputCh), INPUT_CAPACITY, m)
      ensures inputCh == if |old(inputCh)| < 256 then old(inputCh) + [m] else old(inputCh)
    {
      if |inputCh| < INPUT_CAPACITY {
        inputCh := inputCh + [m];
      }
    }

    method EnqueueJoin(m: JoinMsg)
      requires Valid()
      modifies this`joinMsg
      ensures joinMsg == Send(old(joinMsg), CONTROL_CAPACITY, m)
      ensures joinMsg == if |old(joinMsg)| < 8 then old(joinMsg) + [m] else old(joinMsg)
    {
      if |joinMsg| < CONTROL_CAPACITY {
        joinMsg := joinMsg + [m];
      }
    }

    method EnqueueLeave(m: LeaveMsg)
      requires Valid()
      modifies this`leaveMsg
      ensures leaveMsg == Send(old(leaveMsg), CONTROL_CAPACITY, m)
      ensures leaveMsg == if |old(leaveMsg)| < 8 then old(leaveMsg) + [m] else old(leaveMsg)
    {
      if |leaveMsg| < CONTROL_CAPACITY {
        leaveMsg := leaveMsg + [m];
      }
    }

    /** The receiving ends, for Run. */
    method ReceiveJoin() returns (m: JoinMsg)
      requires joinMsg != []
      modifies this`joinMsg
      ensures m == old(joinMsg)[0] && joinMsg == old(joinMsg)[1..]
    {
      m := joinMsg[0];
      joinMsg := joinMsg[1..];
    }

    method ReceiveLeave() returns (m: LeaveMsg)
      requires leaveMsg != []
      modifies this`leaveMsg
      ensures m == old(leaveMsg)[0] && leaveMsg == old(leaveMsg)[1..]
    {
      m := leaveMsg[0];
      leaveMsg := leaveMsg[1..];
    }

    method Emit(event: Event)
      modifies this`events
      ensures View() == old(View()).(events := old(events) + [event])
    {
      events := events + [event];
    }

    method ApplyInputLocked(m: InputMsg)
      requires Valid()
      modifies this`cars, players.Values
      ensures Valid() && RestStays() && View() == RaceModel.ApplyInput(old(View()), m)
    {
      if m.id !in players {
        return;
      }
      var p := players[m.id];
      if p.finished {
        return;
      }
      Steered(p, m);
      cars := cars[m.id := p.Value()];
    }

    method Steered(p: PlayerState, m: InputMsg)
      modifies p
      ensures p.Value() == old(p.Value()).(body := old(p.Body()).(lastInput := m.input, lastInputTick := m.sequence))
    {
      p.lastInput := m.input;
      p.lastInputTick := m.sequence;
    }

    /** The start line crossed by a car that has crossed it before. */
    method CloseLap(p: PlayerState, clock: Clock, tick: int)
      modifies this`events, this`finishedOrder, p, clock
      ensures old(clock.last) <= clock.last
      ensures var t, lapMs := old(p.Value().times), LapMs(old(p.Value().times), clock.last);
              var lapped := t.(bestLapMs := Better(t.bestLapMs, lapMs), lapStartedAt := clock.last);
              var over := old(p.lap) + 1 >= cfg.maxLaps;
              && p.Body() == old(p.Body()).(lap := old(p.lap) + 1, finished := old(p.finished) || over)
              && p.Value().times == (if over
                                     then lapped.(finishTime := clock.last, finishPos := |old(finishedOrder)| + 1)
                                     else lapped)
              && events == old(events) + [LapCompletedEvt(p.id, old(p.lap) + 1, lapMs, tick)]
              && finishedOrder == old(finishedOrder) + if over then [p.id] else []
    {
      var now := clock.Now();
      var lapMs := TruncDiv(now - p.lapStartedAt, MILLI);
      if p.bestLapMs == 0 || lapMs < p.bestLapMs {
        p.bestLapMs := lapMs;
      }
      p.lap := p.lap + 1;
      p.lapStartedAt := now;
      events := events + [LapCompletedEvt(p.id, p.lap, lapMs, tick)];
      if p.lap >= cfg.maxLaps {
        FinishCar(p, now);
      }
    }

    method FinishCar(p: PlayerState, now: int)
      modifies this`finishedOrder, p
      ensures p.Value() == Car(old(p.Body()).(finished := true),
                               old(p.Value().times).(finishTime := now, finishPos := |old(finishedOrder)| + 1))
      ensures finishedOrder == old(finishedOrder) + [p.id]
    {
      p.finished := true;
      p.finishTime := now;
      p.finishPos := |finishedOrder| + 1;
      finishedOrder := finishedOrder + [p.id];
    }

    /** The checkpoint code of one turn, after Step. */
    method CheckCar(p: PlayerState, clock: Clock, tick: int)
      requires !p.finished
      modifies this`events, this`finishedOrder, p, clock
      ensures old(clock.last) <= clock.last
      ensures var m, t, now := old(p.Body()), old(p.Value().times), clock.last;
              && p.Value() == Car(Checked(cfg, m), TimesTick(cfg, m, t, now, |old(finishedOrder)| + 1))
              && events == old(events) + EventsOf(cfg, p.id, m, t, tick, now)
              && finishedOrder == old(finishedOrder) + if p.finished then [p.id] else []
    {
      ghost var m := p.Body();
      if cfg.waypoints == [] {
        return;
      }
      var idx := p.nextCheckpoint % |cfg.waypoints|;
      var wp := cfg.waypoints[idx];
      if cfg.env.hypot(p.position.x - wp.x, p.position.z - wp.z) < CHECKPOINT_RADIUS {
        assert Near(cfg, m);
        var wasStartLine := idx == 0;
        p.lastCheckpoint := idx;
        p.nextCheckpoint := (idx + 1) % |cfg.waypoints|;
        events := events + [CheckpointPassedEvt(p.id, idx, tick)];
        if wasStartLine && p.lap > 0 {
          CloseLap(p, clock, tick);
        } else if wasStartLine && p.lap == 0 {
          p.lap := 1;
        }
      }
    }

    /** Step, as one turn uses it. */
    method Move(p: PlayerState, spec: CarSpec)
      requires ConfigOk(cfg)
      modifies p
      ensures p.Value() == old(p.Value()).(body := Moved(cfg, old(p.Body()), spec))
    {
      Step(cfg.env, p, p.lastInput, spec, Dt(cfg));
    }

    /** The rest of a turn: CheckCar, and the trace. */
    method SettleTurn(p: PlayerState, clock: Clock, tick: int)
      requires Valid() && seen <= clock.last && p.id in players && players[p.id] == p && !p.finished
      modifies this`cars, this`events, this`finishedOrder, this`log, this`seen, p, clock
      ensures Valid() && old(clock.last) <= clock.last == seen
      ensures View() == Settle(cfg, old(View()), Visit(p.id, clock.last), tick, old(p.Body()))
    {
      ghost var m, t := p.Body(), p.Value().times;
      CheckCar(p, clock, tick);
      Record(p, MarksOf(cfg, p.id, m, t, tick, clock.last), clock.last);
    }

    /** The bookkeeping of the proofs after the object p was written. */
    ghost method Record(p: PlayerState, marks: seq<Mark>, now: int)
      requires ConfigOk(cfg) && cars.Keys == players.Keys && p.id in players && players[p.id] == p
      requires forall id :: id in players && id != p.id ==> players[id].id == id && players[id].Value() == cars[id]
      modifies this`cars, this`log, this`seen
      ensures Valid() && cars == old(cars)[p.id := p.Value()] && log == old(log) + marks && seen == now
    {
      log := log + marks;
      seen := now;
      cars := cars[p.id := p.Value()];
    }

    lemma Overwritten(r: RaceState, r': RaceState, v: Visit, tick: int, m: Body)
      requires v.id in r.players && r' == r.(players := r.players[v.id := r.players[v.id].(body := m)])
      ensures Settle(cfg, r', v, tick, m) == Settle(cfg, r, v, tick, m)
    {
      var c := Car(Checked(cfg, m), TimesTick(cfg, m, r.players[v.id].times, v.now, |r.finishedOrder| + 1));
      assert r'.players[v.id := c] == r.players[v.id := c];
    }

    /** One turn of the loop over players. */
    method TurnOf(id: Uuid, clock: Clock, tick: int)
      requires Valid() && seen <= clock.last && id in players
      modifies this`cars, this`events, this`finishedOrder, this`log, this`seen, players[id], clock
      ensures Valid() && old(clock.last) <= clock.last == seen
      ensures View() == AdvanceOne(cfg, old(View()), Visit(id, clock.last), tick)
    {
      var p := players[id];
      if p.finished {
        seen := clock.last;
        return;
      }
      var spec := if id in specs then specs[id] else DEFAULT_SPEC;
      Move(p, spec);
      cars := cars[id := p.Value()];
      ghost var m, moved := p.Body(), View();
      SettleTurn(p, clock, tick);
      Overwritten(old(View()), moved, Visit(id, clock.last), tick, m);
    }

    /** The loop over players, in whatever order the map gives them. */
    method AdvanceTickLocked(clock: Clock, tick: int) returns (ghost visits: seq<Visit>)
      requires Valid() && seen <= clock.last
      modifies this`cars, this`events, this`finishedOrder, this`log, this`seen, players.Values, clock
      ensures Valid() && old(clock.last) <= clock.last && seen <= clock.last
      ensures Ids(visits) == players.Keys && Distinct(visits) && Rising(old(clock.last), visits)
      ensures forall v :: v in visits ==> v.id in old(View()).players
      ensures clock.last == LastReading(old(clock.last), visits) && RestStays()
      ensures inputCh == old(inputCh) && status == old(status)
      ensures View() == Advance(cfg, old(View()), visits, tick)
    {
      visits := [];
      var todo := players.Keys;
      ghost var begun, from := View(), clock.last;
      while todo != {}
        invariant todo <= players.Keys && Valid() && seen <= clock.last
        invariant Underway(begun, from, todo, visits, tick, View(), clock.last) && RestStays()
        invariant inputCh == old(inputCh) && status == old(status)
        decreases todo
      {
        var id :| id in todo;
        visits := NextTurn(id, clock, tick, begun, from, todo, visits);
        todo := todo - {id};
      }
      Complete(begun, from, visits, tick, View(), clock.last);
    }

    /** A tick that began in begun at the reading from, with those in todo still to be visited. */
    ghost predicate Underway(begun: RaceState, from: int, todo: set<Uuid>, visits: seq<Visit>, tick: int,
                             r: RaceState, now: int)
    {
      && ConfigOk(cfg) && from <= now == LastReading(from, visits) && todo <= begun.players.Keys
      && Ids(visits) == begun.players.Keys - todo && Distinct(visits) && Rising(from, visits)
      && (forall v :: v in visits ==> v.id in begun.players && v.now <= now)
      && r == Advance(cfg, begun, visits, tick)
    }

    lemma Complete(begun: RaceState, from: int, visits: seq<Visit>, tick: int, r: RaceState, now: int)
      requires Underway(begun, from, {}, visits, tick, r, now)
      ensures Ids(visits) == begun.players.Keys && Distinct(visits) && Rising(from, visits)
      ensures forall v :: v in visits ==> v.id in begun.players
      ensures now == LastReading(from, visits)
      ensures r == Advance(cfg, begun, visits, tick) && r.players.Keys == begun.players.Keys
    {
    }

    lemma StillUnderway(begun: RaceState, from: int, todo: set<Uuid>, visits: seq<Visit>, tick: int,
                        r: RaceState, upto: int, v: Visit)
      requires Underway(begun, from, todo, visits, tick, r, upto) && v.id in todo && upto <= v.now
      ensures v.id in r.players
      ensures Underway(begun, from, todo - {v.id}, visits + [v], tick, AdvanceOne(cfg, r, v, tick), v.now)
    {
      OneMoreVisit(begun, visits, v, tick);
      VisitAppended(from, visits, v);
    }

    lemma VisitAppended(from: int, visits: seq<Visit>, v: Visit)
      requires Distinct(visits) && Rising(from, visits) && v.id !in Ids(visits) && from <= v.now
      requires forall w :: w in visits ==> w.now <= v.now
      ensures Ids(visits + [v]) == Ids(visits) + {v.id}
      ensures Distinct(visits + [v]) && Rising(from, visits + [v])
    {
    }

    /** One turn of the loop, and the record of whose it was. */
    method NextTurn(id: Uuid, clock: Clock, tick: int, ghost begun: RaceState, ghost from: int,
                    ghost todo: set<Uuid>, ghost visits: seq<Visit>) returns (ghost visits': seq<Visit>)
      requires Valid() && seen <= clock.last && id in players && id in todo
      requires Underway(begun, from, todo, visits, tick, View(), clock.last)
      modifies this`cars, this`events, this`finishedOrder, this`log, this`seen, players[id], clock
      ensures Valid() && old(clock.last) <= clock.last == seen && RestStays()
      ensures inputCh == old(inputCh) && status == old(status)
      ensures Underway(begun, from, todo - {id}, visits', tick, View(), clock.last)
    {
      hide Underway, AdvanceOne, Valid;
      ghost var r, upto := View(), clock.last;
      TurnOf(id, clock, tick);
      StillUnderway(begun, from, todo, visits, tick, r, upto, Visit(id, clock.last));
      visits' := visits + [Visit(id, clock.last)];
    }

    lemma OneMoreVisit(r: RaceState, visits: seq<Visit>, v: Visit, tick: int)
      requires ConfigOk(cfg) && (forall v :: v in visits ==> v.id in r.players) && v.id in r.players
      ensures Advance(cfg, r, visits + [v], tick) == AdvanceOne(cfg, Advance(cfg, r, visits, tick), v, tick)
    {
    }

    /** finalResultsLocked, and FinalResults, which has the same loop. */
    method FinalResults() returns (out: seq<RaceResult>)
      requires Valid()
      ensures out == RaceModel.FinalResults(View())
    {
      out := [];
      for i := 0 to |finishedOrder|
        invariant out == ResultsUpTo(cars, finishedOrder, i)
      {
        var pid := finishedOrder[i];
        if pid in players {
          var p := players[pid];
          var total := TruncDiv(p.finishTime - p.startedAt, MILLI);
          out := out + [RaceResult(pid, i + 1, total, p.bestLapMs)];
        }
      }
    }

    method AllPlayersFinished() returns (all: bool)
      requires Valid()
      ensures all == RaceModel.AllPlayersFinished(View())
    {
      var empty := NobodyHere();
      if empty {
        return false;
      }
      var todo := players.Keys;
      while todo != {}
        invariant todo <= players.Keys
        invariant forall id :: id in players.Keys - todo ==> players[id].finished
        decreases todo
      {
        var id :| id in todo;
        if !players[id].finished {
          assert !cars[id].body.finished;
          return false;
        }
        todo := todo - {id};
      }
      all := true;
    }

    method NobodyHere() returns (empty: bool)
      requires Valid()
      ensures empty == (cars == map[])
    {
      empty := |players.Keys| == 0;
    }

    method BeginCountdown(clock: Clock) returns (now: int)
      requires Valid() && seen <= clock.last
      modifies this`status, this`startRealTime, this`events, this`seen, clock
      ensures Valid() && old(clock.last) <= now == clock.last == seen
      ensures View() == old(View()).(status := Starting, startRealTime := Some(now),
                                     events := old(events) + [RaceStartingEvt], clock := now)
    {
      status := Starting;
      now := clock.Now();
      startRealTime := Some(now);
      events := events + [RaceStartingEvt];
      seen := now;
    }

    /** The auto-start check at the head of the locked section. */
    method AutoStart(clock: Clock) returns (ghost a: int)
      requires Valid() && seen <= clock.last
      modifies this`status, this`startRealTime, this`events, this`seen, clock
      ensures Valid() && old(clock.last) <= a == clock.last && seen <= clock.last
      ensures View() == RaceModel.AutoStart(old(View()), a)
      ensures old(status) == Pending && old(cars) != map[] ==>
                status == Starting && startRealTime == Some(a) && events == old(events) + [RaceStartingEvt]
      ensures old(status) != Pending || old(cars) == map[] ==> View() == old(View())
    {
      a := clock.last;
      var empty := NobodyHere();
      if status == Pending && !empty {
        a := BeginCountdown(clock);
      }
    }

    /** The countdown check. */
    method Launch(clock: Clock, tickIdx: int, started: bool) returns (nowStarted: bool, ghost b: int)
      requires Valid() && seen <= clock.last
      requires status == Starting ==> startRealTime.Some?
      modifies this`status, this`startTick, this`seen, clock
      ensures Valid() && old(clock.last) <= b == clock.last && seen <= clock.last
      ensures View() == RaceModel.Launch(old(View()), b, tickIdx)
      ensures status == InProgress <==>
                old(status) == InProgress || (old(status) == Starting && b - startRealTime.value >= 3_000_000_000)
      ensures old(status) == Starting && status == InProgress ==> startTick == tickIdx
      ensures nowStarted == (started || (old(status) != InProgress && status == InProgress))
    {
      nowStarted, b := started, clock.last;
      if status == Starting {
        var now := clock.Now();
        b := now;
        if now - startRealTime.value >= COUNTDOWN {
          status := InProgress;
          startTick := tickIdx;
          nowStarted := true;
          seen := now;
        }
      }
    }

    /** The drain of InputCh; late are inputs that arrive while it drains. */
    method DrainInputs(late: seq<InputMsg>)
      requires Valid()
      modifies this`cars, this`inputCh, players.Values
      ensures Valid() && inputCh == [] && View() == RaceModel.DrainInputs(old(View()), old(inputCh) + late)
      ensures RestStays()
    {
      ghost var begun := View();
      var queue := inputCh + late;
      inputCh := [];
      var n := 0;
      while n < |queue|
        invariant n <= |queue| && Valid() && inputCh == []
        invariant View() == RaceModel.DrainInputs(begun, queue[..n]) && RestStays()
      {
        assert queue[..n + 1][..n] == queue[..n];
        ApplyInputLocked(queue[n]);
        n := n + 1;
      }
      assert queue[..n] == queue;
    }

    /** Both checks at the head of the locked section. */
    method StartChecks(clock: Clock, tickIdx: int, started: bool) returns (nowStarted: bool, ghost a: int, ghost b: int)
      requires Valid() && seen <= clock.last
      requires status == Starting ==> startRealTime.Some?
      modifies this`status, this`startRealTime, this`startTick, this`events, this`seen, clock
      ensures Valid() && old(clock.last) <= a <= b == clock.last && seen <= clock.last
      ensures View() == Started(old(View()), a, b, tickIdx)
      ensures nowStarted == (started || (old(status) != InProgress && status == InProgress))
    {
      a := AutoStart(clock);
      nowStarted, b := Launch(clock, tickIdx, started);
    }

    /** Physics and checkpoints, when the race is on. */
    method AdvanceIfOn(clock: Clock, tick: int) returns (ghost visits: seq<Visit>)
      requires Valid() && seen <= clock.last
      modifies this`cars, this`events, this`finishedOrder, this`log, this`seen, players.Values, clock
      ensures Valid() && old(clock.last) <= clock.last && seen <= clock.last
      ensures if status == InProgress
              then Ids(visits) == players.Keys && Distinct(visits) && Rising(old(clock.last), visits)
              else visits == []
      ensures forall v :: v in visits ==> v.id in old(View()).players
      ensures clock.last == LastReading(old(clock.last), visits) && RestStays()
      ensures inputCh == old(inputCh) && status == old(status)
      ensures View() == if status == InProgress then Advance(cfg, old(View()), visits, tick) else old(View())
    {
      visits := [];
      if status == InProgress {
        visits := AdvanceTickLocked(clock, tick);
      }
    }

    /** The end of the locked section: the events are dropped, and the tick is over. */
    method EndTick(tickIdx: int)
      requires Valid()
      modifies this`events, this`lastTick
      ensures Valid() && View() == old(View()).(events := [], lastTick := tickIdx)
    {
      events := [];
      lastTick := tickIdx;
    }

    /** The locked section of one iteration of Run; late are inputs that arrive while it drains. */
    method TickSection(clock: Clock, tickIdx: int, started: bool, late: seq<InputMsg>)
      returns (nowStarted: bool, ghost a: int, ghost b: int, ghost visits: seq<Visit>)
      requires Valid() && seen <= clock.last
      requires status == Starting ==> startRealTime.Some?
      modifies this`status, this`startRealTime, this`startTick, this`cars, this`events, this`finishedOrder,
               this`log, this`seen, this`lastTick, this`inputCh, players.Values, clock
      ensures Valid() && old(clock.last) <= a <= b <= clock.last && seen <= clock.last
      ensures inputCh == [] && RestStays()
      ensures nowStarted == (started || (old(status) != InProgress && status == InProgress))
      ensures if status == InProgress then Ids(visits) == players.Keys && Distinct(visits) && Rising(b, visits)
              else visits == []
      ensures forall v :: v in visits ==> v.id in old(View()).players
      ensures clock.last == LastReading(b, visits)
      ensures View() == RaceModel.TickSection(cfg, old(View()), tickIdx, a, b, old(inputCh) + late, visits)
    {
      hide Valid, Ids, Distinct, Rising, RaceModel.DrainInputs, Started, RaceModel.TickSection, RaceModel.Advance;
      nowStarted, a, b := StartAndDrain(clock, tickIdx, started, late);
      ghost var s3 := View();
      visits := AdvanceIfOn(clock, tickIdx);
      SectionParts(old(View()), s3, View(), tickIdx, a, b, old(inputCh) + late, visits);
      EndTick(tickIdx);
    }

    /** The first half of the section. */
    method StartAndDrain(clock: Clock, tickIdx: int, started: bool, late: seq<InputMsg>)
      returns (nowStarted: bool, ghost a: int, ghost b: int)
      requires Valid() && seen <= clock.last
      requires status == Starting ==> startRealTime.Some?
      modifies this`status, this`startRealTime, this`startTick, this`cars, this`events, this`seen, this`inputCh,
               players.Values, clock
      ensures Valid() && old(clock.last) <= a <= b == clock.last && seen <= clock.last && inputCh == []
      ensures nowStarted == (started || (old(status) != InProgress && status == InProgress))
      ensures cars.Keys == old(View()).players.Keys && RestStays()
      ensures View() == RaceModel.DrainInputs(Started(old(View()), a, b, tickIdx), old(inputCh) + late)
    {
      hide RaceModel.DrainInputs;
      nowStarted, a, b := StartChecks(clock, tickIdx, started);
      DrainKeeps(View(), inputCh + late);
      DrainInputs(late);
    }

    lemma SectionParts(s0: RaceState, s3: RaceState, s4: RaceState,
                       tick: int, a: int, b: int, msgs: seq<InputMsg>, visits: seq<Visit>)
      requires ConfigOk(cfg) && s3 == RaceModel.DrainInputs(Started(s0, a, b, tick), msgs)
      requires forall v :: v in visits ==> v.id in s0.players && v.id in s3.players
      requires s4 == if s3.status == InProgress then Advance(cfg, s3, visits, tick) else s3
      ensures s4.(events := [], lastTick := tick) == RaceModel.TickSection(cfg, s0, tick, a, b, msgs, visits)
    {
    }

    /** The locked section of finishRace: whether this call closed the race. */
    method FinishSection(clock: Clock) returns (closed: bool, ghost stamp: int)
      requires Valid() && seen <= clock.last
      modifies this`status, this`finishTime, this`events, this`log, this`seen, clock
      ensures Valid() && old(clock.last) <= stamp == clock.last && seen <= clock.last
      ensures closed == (old(status) != Finished)
      ensures View() == Close(old(View()), stamp)
      ensures closed ==> status == Finished && finishTime == Some(stamp) &&
                         events == old(events) + [RaceFinishedEvt(RaceModel.FinalResults(old(View())))]
    {
      stamp := clock.last;
      if status == Finished {
        return false, stamp;
      }
      var results := FinalResults();
      status := Finished;
      var now := clock.Now();
      finishTime := Some(now);
      events := events + [RaceFinishedEvt(results)];
      stamp, log, seen := now, log + [Closed(results)], now;
      closed := true;
    }
  }
}
