/** What a finished run says about checkpoints, distances and lap times. */
module Laps {
  import opened Base
  import opened Physics
  import opened RaceModel
  import opened CarHistory
  import opened RaceRuns

  /** The state after a run that begins with a new race. */
  ghost function End(cfg: Config, clock: int, ops: seq<Op>): RaceState
    requires ConfigOk(cfg) && After(cfg, NewRace(clock), ops).Some?
  {
    After(cfg, NewRace(clock), ops).value
  }

  ghost predicate Run(cfg: Config, clock: int, ops: seq<Op>) {
    ConfigOk(cfg) && After(cfg, NewRace(clock), ops).Some?
  }

  lemma Grow(cfg: Config, r0: RaceState, ops: seq<Op>, op: Op, r: RaceState)
    requires ConfigOk(cfg) && After(cfg, r0, ops) == Some(r) && OpOk(cfg, r, op)
    ensures After(cfg, r0, ops + [op]) == Some(Do(cfg, r, op))
  {
    assert (ops + [op])[..|ops|] == ops;
  }

  // ----- checkpoints -----

  /**
   * A player with k checkpoints in its stay: the counters are k's remainder and quotient, the
   * checkpoints were those numbered 1, 2, 3, ... modulo n with none skipped, each within 8 m, and
   * the player is finished exactly when k is max(2, MaxLaps) rounds.
   */
  lemma CheckpointArithmetic(cfg: Config, clock: int, ops: seq<Op>, id: Uuid)
    requires Run(cfg, clock, ops) && id in End(cfg, clock, ops).players && cfg.waypoints != []
    ensures var r := End(cfg, clock, ops); var b := r.players[id].body;
            var n := |cfg.waypoints|; var k := Passes(Story(r, id));
            && b.nextCheckpoint == (k + 1) % n && b.lastCheckpoint == k % n && b.lap == k / n
            && k <= n * Max(2, cfg.maxLaps)
            && (b.finished <==> k == n * Max(2, cfg.maxLaps))
            && forall j :: 1 <= j <= k ==>
                 var s := Story(r, id).trail[j];
                 s.index == j % n && Distance(cfg.env, s.at, cfg.waypoints[j % n]) < 8.0
  {
    TrailOfRun(cfg, clock, ops, id);
    var h := Story(End(cfg, clock, ops), id);
    forall j | 1 <= j <= Passes(h)
      ensures var s := h.trail[j];
              s.index == j % |cfg.waypoints| && Distance(cfg.env, s.at, cfg.waypoints[s.index]) < CHECKPOINT_RADIUS
    {
      assert StopOk(cfg, h, j);
    }
  }

  /** A trail with one more stop if the place is within 8 m of the i-th waypoint, and the same trail otherwise. */
  function StopIfNear(cfg: Config, trail: seq<Stop>, i: nat, tick: int, at: Vec3): seq<Stop>
    requires i < |cfg.waypoints|
  {
    var wp := cfg.waypoints[i];
    if cfg.env.hypot(at.x - wp.x, at.z - wp.z) < 8.0 then trail + [Stop(i, tick, at)] else trail
  }

  /** A car's turn puts a checkpoint on its trail exactly if the step leaves it near its next waypoint. */
  lemma TurnPasses(cfg: Config, r: RaceState, v: Visit, tick: int)
    requires ConfigOk(cfg) && v.id in r.players && !r.players[v.id].body.finished
    requires r.players[v.id].body.nextCheckpoint < |cfg.waypoints|
    ensures var r' := AdvanceOne(cfg, r, v, tick);
            Story(r', v.id).trail ==
            StopIfNear(cfg, Story(r, v.id).trail, r.players[v.id].body.nextCheckpoint, tick,
                       r'.players[v.id].body.motion.position)
  {
    hide Stepped;
    var c := r.players[v.id];
    var m := Moved(cfg, c.body, SpecOf(r, v.id));
    SmallMod(m.nextCheckpoint, |cfg.waypoints|);
    HistOfTick(r.log, cfg, v.id, m, c.times, tick, v.now, v.id);
  }

  lemma TickPasses(cfg: Config, r: RaceState, visits: seq<Visit>, tick: int, id: Uuid)
    requires ConfigOk(cfg) && forall v :: v in visits ==> v.id in r.players
    requires id in Ids(visits) && Distinct(visits) && id in r.players && !r.players[id].body.finished
    requires r.players[id].body.nextCheckpoint < |cfg.waypoints|
    ensures var r' := Advance(cfg, r, visits, tick);
            Story(r', id).trail ==
            StopIfNear(cfg, Story(r, id).trail, r.players[id].body.nextCheckpoint, tick,
                       r'.players[id].body.motion.position)
  {
    hide AdvanceOne, StopIfNear, Story;
    var k := OwnTurn(cfg, r, visits, tick, id);
    TurnPasses(cfg, Advance(cfg, r, visits[..k], tick), visits[k], tick);
  }

  lemma SectionPasses(cfg: Config, r: RaceState, op: Op, id: Uuid)
    requires ConfigOk(cfg) && op.Section? && OpOk(cfg, r, op)
    requires id in r.players && !r.players[id].body.finished
    requires r.players[id].body.nextCheckpoint < |cfg.waypoints|
    ensures var r' := Do(cfg, r, op);
            && id in r'.players
            && Story(r', id).trail ==
               if r'.status == InProgress
               then StopIfNear(cfg, Story(r, id).trail, r.players[id].body.nextCheckpoint, op.tick,
                               r'.players[id].body.motion.position)
               else Story(r, id).trail
  {
    hide Advance, Fed, StopIfNear;
    var s := Ready(r, op);
    ReadyFrame(r, op);
    SectionFrame(cfg, r, op);
    DrainFeeds(Started(r, op.startStamp, op.sinceStamp, op.tick), op.msgs, id);
    FedFrame(r.players[id].body, id, op.msgs);
    if s.status == InProgress {
      TickPasses(cfg, s, op.visits, op.tick, id);
    }
  }

  /**
   * In every run: a locked section lets an unfinished car pass its next waypoint exactly if the race is then
   * InProgress and the car within 8 m of that waypoint, and it passes no other.
   */
  lemma PassedExactly(cfg: Config, clock: int, ops: seq<Op>, op: Op, id: Uuid)
    requires Run(cfg, clock, ops) && Run(cfg, clock, ops + [op]) && op.Section? && cfg.waypoints != []
    requires id in End(cfg, clock, ops).players && !End(cfg, clock, ops).players[id].body.finished
    ensures var r, r' := End(cfg, clock, ops), End(cfg, clock, ops + [op]);
            && id in r'.players && r.players[id].body.nextCheckpoint < |cfg.waypoints|
            && Story(r', id).trail ==
               if r'.status == InProgress
               then StopIfNear(cfg, Story(r, id).trail, r.players[id].body.nextCheckpoint, op.tick,
                               r'.players[id].body.motion.position)
               else Story(r, id).trail
  {
    hide StopIfNear, Do, Story;
    assert (ops + [op])[..|ops|] == ops;
    CheckpointArithmetic(cfg, clock, ops, id);
    SectionPasses(cfg, End(cfg, clock, ops), op, id);
  }

  // ----- distances -----

  /** The length of the polyline from a starting place through the first k checkpoints. */
  function CourseLength(cfg: Config, from: Vec3, k: nat): real
    requires cfg.waypoints != []
  {
    if k == 0 then 0.0
    else
      var n := |cfg.waypoints|;
      CourseLength(cfg, from, k - 1) +
      Distance(cfg.env, if k == 1 then from else cfg.waypoints[(k - 1) % n], cfg.waypoints[k % n])
  }

  /** How far outside the polyline a car may cut the corners of the first k checkpoints. */
  function Slack(k: nat): real
    requires k > 0
  {
    CHECKPOINT_RADIUS + (k - 1) as real * (2.0 * CHECKPOINT_RADIUS)
  }

  /** One leg takes more ticks than its length, less 8 m at each checkpoint, needs at full speed. */
  lemma LegTakesTime(cfg: Config, spec: CarSpec, h: Hist, j: nat)
    requires ConfigOk(cfg) && cfg.waypoints != [] && 0 < j < |h.trail| && StopOk(cfg, h, j) && LegOk(cfg, spec, h, j)
    requires j > 1 ==> StopOk(cfg, h, j - 1)
    ensures var n := |cfg.waypoints|;
            var from := if j == 1 then h.trail[0].at else cfg.waypoints[(j - 1) % n];
            LegTime(h.trail[j - 1], h.trail[j]) as real * Reach(spec, Dt(cfg))
            > Distance(cfg.env, from, cfg.waypoints[j % n]) - (if j == 1 then 1.0 else 2.0) * CHECKPOINT_RADIUS
  {
    var e, n := cfg.env, |cfg.waypoints|;
    var a, b := h.trail[j - 1].at, h.trail[j].at;
    var w := cfg.waypoints[j % n];
    var from := if j == 1 then a else cfg.waypoints[(j - 1) % n];
    Triangle(e, from, a, w);
    Triangle(e, a, b, w);
    DistanceFacts(e, a, from);
    DistanceFacts(e, a, a);
  }

  lemma {:induction false} TrailTakesTime(cfg: Config, spec: CarSpec, h: Hist, k: nat)
    requires ConfigOk(cfg) && cfg.waypoints != [] && 0 < k < |h.trail|
    requires forall j :: 0 < j < |h.trail| ==> StopOk(cfg, h, j)
    requires forall j :: 0 < j < |h.trail| ==> LegOk(cfg, spec, h, j)
    ensures LegTime(h.trail[0], h.trail[k]) as real * Reach(spec, Dt(cfg))
            > CourseLength(cfg, h.trail[0].at, k) - Slack(k)
    ensures LegTime(h.trail[0], h.trail[k]) >= k
  {
    assert StopOk(cfg, h, k) && LegOk(cfg, spec, h, k);
    if k == 1 {
      LegTakesTime(cfg, spec, h, k);
      assert CourseLength(cfg, h.trail[0].at, 0) == 0.0;
    } else {
      TrailTakesTime(cfg, spec, h, k - 1);
      LegTakesTime(cfg, spec, h, k);
      SplitTime(LegTime(h.trail[0], h.trail[k - 1]), LegTime(h.trail[k - 1], h.trail[k]), Reach(spec, Dt(cfg)));
      assert (k - 1) as real == (k - 2) as real + 1.0;
    }
  }

  lemma SplitTime(a: int, b: int, r: real)
    ensures (a + b) as real * r == a as real * r + b as real * r
  {
    assert (a + b) as real == a as real + b as real;
  }

  /** The first k legs of a trail, together and the last one alone, took the ticks that they need at full speed. */
  ghost predicate NotTooFast(cfg: Config, spec: CarSpec, t: seq<Stop>, k: nat)
    requires cfg.tickHz > 0 && cfg.waypoints != [] && 0 < k < |t|
  {
    var n, reach := |cfg.waypoints|, Reach(spec, Dt(cfg));
    && (t[k].tick - t[0].tick) as real * reach > CourseLength(cfg, t[0].at, k) - Slack(k)
    && t[k].tick - t[0].tick >= k
    && (k > 1 ==> (t[k].tick - t[k - 1].tick) as real * reach
                  > Distance(cfg.env, cfg.waypoints[(k - 1) % n], cfg.waypoints[k % n]) - 16.0)
  }

  /**
   * The kinematic lower bound: between any two consecutive checkpoints, and over the whole stay from
   * where it was added, a car needs at least the ticks that the distance takes at |MaxSpeed|.
   */
  lemma NoCarBeatsTheTrack(cfg: Config, clock: int, ops: seq<Op>, id: Uuid, k: nat)
    requires Run(cfg, clock, ops) && id in End(cfg, clock, ops).players
    requires cfg.waypoints != [] && 1 <= k <= Passes(Story(End(cfg, clock, ops), id))
    ensures var r := End(cfg, clock, ops); NotTooFast(cfg, SpecOf(r, id), Story(r, id).trail, k)
  {
    TrailOfRun(cfg, clock, ops, id);
    TrailBound(cfg, SpecOf(End(cfg, clock, ops), id), Story(End(cfg, clock, ops), id), k);
  }

  lemma TrailBound(cfg: Config, spec: CarSpec, h: Hist, k: nat)
    requires ConfigOk(cfg) && cfg.waypoints != [] && 0 < k < |h.trail|
    requires forall j :: 0 < j < |h.trail| ==> StopOk(cfg, h, j)
    requires forall j :: 0 < j < |h.trail| ==> LegOk(cfg, spec, h, j)
    ensures NotTooFast(cfg, spec, h.trail, k)
  {
    TrailTakesTime(cfg, spec, h, k);
    LastLeg(cfg, spec, h, k);
  }

  lemma TrailOfRun(cfg: Config, clock: int, ops: seq<Op>, id: Uuid)
    requires Run(cfg, clock, ops) && id in End(cfg, clock, ops).players
    ensures var r := End(cfg, clock, ops); var h := Story(r, id);
            && id in r.specs && h.trail != [] && Counts(cfg, r.players[id].body, Passes(h))
            && (forall j :: 0 < j < |h.trail| ==> StopOk(cfg, h, j))
            && (forall j :: 0 < j < |h.trail| ==> LegOk(cfg, r.specs[id], h, j))
  {
    RunKeeps(cfg, clock, ops);
    var r := End(cfg, clock, ops);
    assert CarOk(cfg, r, id, r.lastTick);
  }

  lemma LastLeg(cfg: Config, spec: CarSpec, h: Hist, k: nat)
    requires ConfigOk(cfg) && cfg.waypoints != [] && 0 < k < |h.trail|
    requires forall j :: 0 < j < |h.trail| ==> StopOk(cfg, h, j)
    requires forall j :: 0 < j < |h.trail| ==> LegOk(cfg, spec, h, j)
    ensures var n := |cfg.waypoints|;
            k > 1 ==> (h.trail[k].tick - h.trail[k - 1].tick) as real * Reach(spec, Dt(cfg))
                      > Distance(cfg.env, cfg.waypoints[(k - 1) % n], cfg.waypoints[k % n]) - 16.0
  {
    if k > 1 {
      assert StopOk(cfg, h, k) && LegOk(cfg, spec, h, k) && StopOk(cfg, h, k - 1);
      LegTakesTime(cfg, spec, h, k);
    }
  }

  // ----- lap times -----

  ghost predicate IsMin(x: int, xs: seq<int>) {
    x in xs && forall i :: 0 <= i < |xs| ==> x <= xs[i]
  }

  /** The one reason BestLapMs is not the best lap: a lap of zero milliseconds reads as "no lap yet". */
  predicate ZeroOnlyLast(xs: seq<int>)
    requires xs != []
  {
    0 in xs ==> xs[|xs| - 1] == 0
  }

  lemma {:induction false} BestOfPositive(xs: seq<int>)
    requires xs != [] && forall i :: 0 <= i < |xs| ==> xs[i] > 0
    ensures IsMin(BestOf(xs), xs)
  {
    var n := |xs| - 1;
    if n > 0 {
      BestOfPositive(xs[..n]);
      assert xs == xs[..n] + [xs[n]];
    } else {
      assert BestOf(xs[..0]) == 0 && xs[0] in xs;
    }
  }

  lemma {:induction false} BestOfSigns(xs: seq<int>)
    requires xs != [] && forall i :: 0 <= i < |xs| ==> xs[i] >= 0
    ensures BestOf(xs) >= 0
    ensures BestOf(xs) == 0 <==> xs[|xs| - 1] == 0
  {
    var n := |xs| - 1;
    if n > 0 {
      BestOfSigns(xs[..n]);
    }
  }

  /** BestLapMs is the minimum lap if and only if no lap of zero milliseconds is followed by a longer last one. */
  lemma BestLapExact(xs: seq<int>)
    requires xs != [] && forall i :: 0 <= i < |xs| ==> xs[i] >= 0
    ensures IsMin(BestOf(xs), xs) <==> ZeroOnlyLast(xs)
  {
    BestOfSigns(xs);
    if 0 !in xs {
      BestOfPositive(xs);
    } else {
      var i :| 0 <= i < |xs| && xs[i] == 0;
      if xs[|xs| - 1] == 0 {
        assert IsMin(0, xs);
      } else {
        assert BestOf(xs) > xs[i];
      }
    }
  }

  lemma {:induction false} MinTimesCount(x: int, xs: seq<int>)
    requires forall i :: 0 <= i < |xs| ==> x <= xs[i]
    ensures |xs| * x <= Sum(xs)
  {
    if xs != [] {
      MinTimesCount(x, xs[..|xs| - 1]);
      assert |xs| * x == (|xs| - 1) * x + x;
    }
  }

  /**
   * A finisher's times. Its timed laps add up to at most its total; when its two join stamps are
   * equal the total is less than one millisecond per timed lap above them; BestLapMs is the minimum
   * lap under the exact condition, and then Lap - 1 times BestLapMs is at most the total.
   */
  lemma LapTimesAddUp(cfg: Config, clock: int, ops: seq<Op>, id: Uuid)
    requires Run(cfg, clock, ops) && id in End(cfg, clock, ops).players
    requires End(cfg, clock, ops).players[id].body.finished
    ensures var r := End(cfg, clock, ops); var c := r.players[id]; var h := Story(r, id);
            && |h.laps| == c.body.lap - 1 >= 1
            && TotalMs(c.times) * 1_000_000 <= c.times.finishTime - c.times.startedAt
            && c.times.finishTime - c.times.startedAt < (TotalMs(c.times) + 1) * 1_000_000
            && Sum(h.laps) <= TotalMs(c.times)
            && (h.stampA == h.stampB ==> TotalMs(c.times) < Sum(h.laps) + |h.laps|)
            && (IsMin(c.times.bestLapMs, h.laps) <==> ZeroOnlyLast(h.laps))
            && (ZeroOnlyLast(h.laps) ==> (c.body.lap - 1) * c.times.bestLapMs <= TotalMs(c.times))
  {
    RunKeeps(cfg, clock, ops);
    var r := End(cfg, clock, ops);
    var c, h := r.players[id], Story(r, id);
    FinisherOfRun(cfg, r, id);
    AddUp(c.times, c.body.lap, h, r.clock);
  }

  lemma FinisherOfRun(cfg: Config, r: RaceState, id: Uuid)
    requires ConfigOk(cfg) && Inv(cfg, r) && id in r.players && r.players[id].body.finished
    ensures var c := r.players[id];
            c.body.lap >= 2 && TimesOk(c.times, c.body.lap, true, Story(r, id), r.clock)
  {
    assert CarOk(cfg, r, id, r.lastTick);
    FinishedLap(cfg, r.players[id].body, Passes(Story(r, id)));
  }

  lemma {:induction false} SumOfLaps(xs: seq<int>)
    requires forall i :: 0 <= i < |xs| ==> xs[i] >= 0
    ensures Sum(xs) >= 0
  {
    if xs != [] {
      SumOfLaps(xs[..|xs| - 1]);
    }
  }

  lemma AddUp(t: Times, lap: nat, h: Hist, clock: int)
    requires lap >= 2 && TimesOk(t, lap, true, h, clock)
    ensures |h.laps| == lap - 1
    ensures TotalMs(t) * 1_000_000 <= t.finishTime - t.startedAt < (TotalMs(t) + 1) * 1_000_000
    ensures Sum(h.laps) <= TotalMs(t)
    ensures h.stampA == h.stampB ==> TotalMs(t) < Sum(h.laps) + |h.laps|
    ensures IsMin(t.bestLapMs, h.laps) <==> ZeroOnlyLast(h.laps)
    ensures ZeroOnlyLast(h.laps) ==> (lap - 1) * t.bestLapMs <= TotalMs(t)
  {
    BestLapExact(h.laps);
    SumOfLaps(h.laps);
    TotalBounds(Sum(h.laps), |h.laps|, t.finishTime - t.startedAt, h.stampB - h.stampA);
    if ZeroOnlyLast(h.laps) {
      MinTimesCount(t.bestLapMs, h.laps);
    }
  }

  lemma FinishedLap(cfg: Config, b: Body, k: nat)
    requires ConfigOk(cfg) && Counts(cfg, b, k) && b.finished
    ensures b.lap == Max(2, cfg.maxLaps)
  {
    Quotient(Goal(cfg), |cfg.waypoints|, Max(2, cfg.maxLaps), 0);
  }

  lemma TotalBounds(sum: int, count: nat, span: int, gap: int)
    requires sum >= 0 && gap >= 0 && sum * MILLI + gap <= span < (sum + count) * MILLI + gap
    ensures sum <= TruncDiv(span, MILLI)
    ensures gap == 0 ==> TruncDiv(span, MILLI) < sum + count
  {
  }
}
