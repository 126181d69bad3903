/** Runs of a race in which what one might expect of it fails. */
module Counterexamples {
  import opened Base
  import opened Physics
  import opened RaceModel
  import opened CarHistory
  import opened RaceRuns
  import opened Laps

  const ORIGIN := Vec3(0.0, 0.0, 0.0)

  /** One waypoint at the origin, no spawns listed: a car at rest there passes it every tick. */
  function Roundabout(e: Env, maxLaps: nat): Config {
    Config(e, [ORIGIN], [], 30, maxLaps, 4)
  }

  /** What a car at rest in the origin has come to, and the finishing order. */
  datatype Standing = Standing(lap: nat, finished: bool, times: Times, laps: seq<int>, order: seq<Uuid>)

  /** One more tick, with the clock read at now. */
  function Ticked(maxLaps: nat, s: Standing, now: int): Standing {
    if s.lap == 0 then s.(lap := 1)
    else
      var ms, over := LapMs(s.times, now), s.lap + 1 >= maxLaps;
      var times := s.times.(bestLapMs := Better(s.times.bestLapMs, ms), lapStartedAt := now);
      Standing(s.lap + 1, over,
               if over then times.(finishTime := now, finishPos := |s.order| + 1) else times,
               s.laps + [ms], if over then s.order + [7] else s.order)
  }

  /** Player 7 alone in a race that is on. */
  ghost predicate Resting(r: RaceState, s: Standing, tick: int, clock: int) {
    && r.status == InProgress && r.players.Keys == {7} && SpecOf(r, 7) == DEFAULT_SPEC
    && r.players[7] == Car(Body(Motion(ORIGIN, 0.0, 0.0), IDLE, 0, s.lap, 0, 0, s.finished), s.times)
    && Story(r, 7).laps == s.laps
    && r.finishedOrder == s.order && r.lastTick == tick && r.clock == clock
  }

  lemma AtRest(e: Env, m: Motion, dt: real)
    requires EnvOk(e) && m == Motion(ORIGIN, 0.0, 0.0)
    ensures Stepped(e, m, IDLE, DEFAULT_SPEC, dt) == m
    ensures Distance(e, ORIGIN, ORIGIN) == 0.0
  {
    DistanceFacts(e, ORIGIN, ORIGIN);
    WrapMeaning(e.pi, 0.0);
  }

  lemma RestingTurn(e: Env, maxLaps: nat, r: RaceState, s: Standing, last: int, clock: int, tick: int, now: int)
    requires EnvOk(e) && Resting(r, s, last, clock) && !s.finished
    ensures Resting(AdvanceOne(Roundabout(e, maxLaps), r, Visit(7, now), tick), Ticked(maxLaps, s, now), last, now)
  {
    var cfg, b := Roundabout(e, maxLaps), r.players[7].body;
    AtRest(e, b.motion, Dt(cfg));
    var m := Moved(cfg, b, SpecOf(r, 7));
    assert m == b;
    assert Near(cfg, m) && NextIndex(cfg, m) == 0;
    HistOfTick(r.log, cfg, 7, m, r.players[7].times, tick, now, 7);
  }

  function TickOp(tick: int, start: int, since: int, now: int): Op {
    Section(tick, start, since, [], [Visit(7, now)])
  }

  lemma RestingTick(e: Env, maxLaps: nat, r: RaceState, s: Standing, last: int, clock: int, op: Op)
    requires EnvOk(e) && maxLaps > 0 && !s.finished
    requires op.Section? && op.msgs == [] && |op.visits| == 1 && op.visits[0].id == 7
    requires r.clock <= op.startStamp <= op.sinceStamp <= op.visits[0].now && r.lastTick < op.tick
    requires Resting(Started(r, op.startStamp, op.sinceStamp, op.tick), s, last, clock)
    ensures OpOk(Roundabout(e, maxLaps), r, op)
    ensures var now := op.visits[0].now;
            Resting(Do(Roundabout(e, maxLaps), r, op), Ticked(maxLaps, s, now), op.tick, now)
  {
    var cfg, v := Roundabout(e, maxLaps), op.visits[0];
    var started := Started(r, op.startStamp, op.sinceStamp, op.tick);
    assert op.visits == [v] && op.visits[..0] == [];
    assert Ids(op.visits) == {7} by {
      assert v in op.visits;
    }
    assert Advance(cfg, started, [], op.tick) == started;
    RestingTurn(e, maxLaps, started, s, last, clock, op.tick, v.now);
  }

  /** A race of the given operations has come to r. */
  ghost predicate Came(e: Env, maxLaps: nat, ops: seq<Op>, r: RaceState) {
    ConfigOk(Roundabout(e, maxLaps)) && After(Roundabout(e, maxLaps), NewRace(0), ops) == Some(r)
  }

  lemma NextTick(e: Env, maxLaps: nat, ops: seq<Op>, r: RaceState, s: Standing, tick: int, clock: int, now: int)
    returns (r': RaceState)
    requires EnvOk(e) && Came(e, maxLaps, ops, r) && Resting(r, s, tick, clock) && !s.finished && clock <= now
    ensures Came(e, maxLaps, ops + [TickOp(tick + 1, clock, clock, now)], r')
    ensures Resting(r', Ticked(maxLaps, s, now), tick + 1, now)
  {
    var op := TickOp(tick + 1, clock, clock, now);
    RestingTick(e, maxLaps, r, s, tick, clock, op);
    r' := Do(Roundabout(e, maxLaps), r, op);
    Grow(Roundabout(e, maxLaps), NewRace(0), ops, op, r);
  }

  /** The race starts with player 7, and the first tick that is on is read as the countdown ends. */
  function Opening(): seq<Op> {
    [Add(7, DEFAULT_SPEC, 0, 0)] + [TickOp(0, 0, COUNTDOWN, COUNTDOWN)]
  }

  lemma Opened(e: Env, maxLaps: nat) returns (r: RaceState)
    requires EnvOk(e) && maxLaps > 0
    ensures Came(e, maxLaps, Opening(), r)
    ensures Resting(r, Standing(1, false, Times(0, 0, 0, 0, 0), [], []), 0, COUNTDOWN)
  {
    var cfg, r0, add := Roundabout(e, maxLaps), NewRace(0), Add(7, DEFAULT_SPEC, 0, 0);
    var r1 := Do(cfg, r0, add);
    assert [] + [add] == [add];
    Grow(cfg, r0, [], add, r0);
    HistOfOne(r0.log, Added(7, Spawn(cfg, 0), -1, 0, 0), 7);
    var op := TickOp(0, 0, COUNTDOWN, COUNTDOWN);
    RestingTick(e, maxLaps, r1, Standing(0, false, Times(0, 0, 0, 0, 0), [], []), -1, COUNTDOWN, op);
    r := Do(cfg, r1, op);
    Grow(cfg, r0, [add], op, r1);
  }

  lemma LeavesAndReturns(e: Env, maxLaps: nat, ops: seq<Op>, r: RaceState, s: Standing, tick: int, clock: int)
    returns (r': RaceState)
    requires EnvOk(e) && Came(e, maxLaps, ops, r) && Resting(r, s, tick, clock)
    ensures Came(e, maxLaps, ops + [Remove(7)] + [Add(7, DEFAULT_SPEC, clock, clock)], r')
    ensures Resting(r', Standing(0, false, Times(clock, clock, 0, 0, 0), [], s.order), tick, clock)
  {
    var cfg := Roundabout(e, maxLaps);
    var gone := RemovePlayer(r, 7);
    Grow(cfg, NewRace(0), ops, Remove(7), r);
    assert gone.players == map[];
    var add := Add(7, DEFAULT_SPEC, clock, clock);
    r' := Do(cfg, gone, add);
    Grow(cfg, NewRace(0), ops + [Remove(7)], add, gone);
    HistOfOne(gone.log, Added(7, Spawn(cfg, 0), tick, clock, clock), 7);
  }

  // ----- a comeback -----

  /** Player 7 finishes, leaves, is added again and finishes again. */
  function ComebackRun(): seq<Op> {
    Opening() + [TickOp(1, COUNTDOWN, COUNTDOWN, COUNTDOWN)]
    + [Remove(7)] + [Add(7, DEFAULT_SPEC, COUNTDOWN, COUNTDOWN)]
    + [TickOp(2, COUNTDOWN, COUNTDOWN, COUNTDOWN)] + [TickOp(3, COUNTDOWN, COUNTDOWN, COUNTDOWN)]
  }

  /** A run with a comeback after which the finishing order lists one player twice. */
  lemma ComebackCounterexample(e: Env)
    requires EnvOk(e)
    ensures Run(Roundabout(e, 1), 0, ComebackRun())
    ensures End(Roundabout(e, 1), 0, ComebackRun()).finishedOrder == [7, 7]
  {
    var r := ComebackEnd(e);
  }

  lemma ComebackEnd(e: Env) returns (r: RaceState)
    requires EnvOk(e)
    ensures Came(e, 1, ComebackRun(), r) && r.finishedOrder == [7, 7]
  {
    hide Came, TickOp, Opening;
    var ops, s := Opening(), Standing(1, false, Times(0, 0, 0, 0, 0), [], []);
    r := Opened(e, 1);
    r := NextTick(e, 1, ops, r, s, 0, COUNTDOWN, COUNTDOWN);
    ops, s := ops + [TickOp(1, COUNTDOWN, COUNTDOWN, COUNTDOWN)], Ticked(1, s, COUNTDOWN);
    r := LeavesAndReturns(e, 1, ops, r, s, 1, COUNTDOWN);
    ops := ops + [Remove(7)] + [Add(7, DEFAULT_SPEC, COUNTDOWN, COUNTDOWN)];
    s := Standing(0, false, Times(COUNTDOWN, COUNTDOWN, 0, 0, 0), [], s.order);
    r := NextTick(e, 1, ops, r, s, 1, COUNTDOWN, COUNTDOWN);
    ops, s := ops + [TickOp(2, COUNTDOWN, COUNTDOWN, COUNTDOWN)], Ticked(1, s, COUNTDOWN);
    r := NextTick(e, 1, ops, r, s, 2, COUNTDOWN, COUNTDOWN);
    assert [7] + [7] == [7, 7];
  }

  // ----- laps of no time -----

  /** Player 7 comes late to a race of four laps, and its ticks are read three times at once and once 5 ms later. */
  function HastyRun(): seq<Op> {
    Opening() + [Remove(7)] + [Add(7, DEFAULT_SPEC, COUNTDOWN, COUNTDOWN)]
    + [TickOp(1, COUNTDOWN, COUNTDOWN, COUNTDOWN)] + [TickOp(2, COUNTDOWN, COUNTDOWN, COUNTDOWN)]
    + [TickOp(3, COUNTDOWN, COUNTDOWN, COUNTDOWN)] + [TickOp(4, COUNTDOWN, COUNTDOWN, COUNTDOWN + 5 * MILLI)]
  }

  lemma HastyEnd(e: Env) returns (r: RaceState)
    requires EnvOk(e)
    ensures Came(e, 4, HastyRun(), r)
    ensures Resting(r, Standing(4, true, Times(COUNTDOWN, COUNTDOWN + 5 * MILLI, 5, COUNTDOWN + 5 * MILLI, 1),
                                [0, 0, 5], [7]), 4, COUNTDOWN + 5 * MILLI)
  {
    hide Came, Resting, TickOp, Opening;
    var ops := Opening();
    r := Opened(e, 4);
    r := LeavesAndReturns(e, 4, ops, r, Standing(1, false, Times(0, 0, 0, 0, 0), [], []), 0, COUNTDOWN);
    ops := ops + [Remove(7)] + [Add(7, DEFAULT_SPEC, COUNTDOWN, COUNTDOWN)];
    var s := Standing(0, false, Times(COUNTDOWN, COUNTDOWN, 0, 0, 0), [], []);
    r := NextTick(e, 4, ops, r, s, 0, COUNTDOWN, COUNTDOWN);
    ops, s := ops + [TickOp(1, COUNTDOWN, COUNTDOWN, COUNTDOWN)], Ticked(4, s, COUNTDOWN);
    r := NextTick(e, 4, ops, r, s, 1, COUNTDOWN, COUNTDOWN);
    ops, s := ops + [TickOp(2, COUNTDOWN, COUNTDOWN, COUNTDOWN)], Ticked(4, s, COUNTDOWN);
    r := NextTick(e, 4, ops, r, s, 2, COUNTDOWN, COUNTDOWN);
    ops, s := ops + [TickOp(3, COUNTDOWN, COUNTDOWN, COUNTDOWN)], Ticked(4, s, COUNTDOWN);
    assert s == Standing(3, false, Times(COUNTDOWN, COUNTDOWN, 0, 0, 0), [0, 0], []);
    r := NextTick(e, 4, ops, r, s, 3, COUNTDOWN, COUNTDOWN + 5 * MILLI);
    assert [0, 0] + [5] == [0, 0, 5] && [] + [7] == [7];
  }

  /**
   * A run whose finisher has laps of 0, 0 and 5 ms: its BestLapMs is 5, not the minimum, and three times
   * that is more than its total of 5 ms.
   */
  lemma BestLapCounterexample(e: Env)
    requires EnvOk(e)
    ensures Run(Roundabout(e, 4), 0, HastyRun())
    ensures var r := End(Roundabout(e, 4), 0, HastyRun());
            && 7 in r.players && r.players[7].body.finished
            && var c := r.players[7];
               && Story(r, 7).laps == [0, 0, 5]
               && c.times.bestLapMs == 5 && !IsMin(c.times.bestLapMs, Story(r, 7).laps)
               && (c.body.lap - 1) * c.times.bestLapMs > TotalMs(c.times)
  {
    var r := HastyEnd(e);
    assert Story(r, 7).laps[0] == 0;
  }
}
