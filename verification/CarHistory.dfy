/** What the trace says about one car, and what each tick keeps true of that car and its history. */
module CarHistory {
  import opened Base
  import opened Physics
  import opened RaceModel

  /** A place where a car was at the end of a tick; index is the waypoint passed there. */
  datatype Stop = Stop(index: nat, tick: int, at: Vec3)

  /**
   * The stay of one player since it was last added: trail[0] is where it was added,
   * trail[j] its j-th checkpoint, laps its LapTimeMs values.
   */
  datatype Hist = Hist(trail: seq<Stop>, stampA: int, stampB: int, laps: seq<int>)

  const UNKNOWN := Hist([], 0, 0, [])

  function Extend(h: Hist, m: Mark, id: Uuid): Hist {
    match m
    case Added(i, at, since, a, b) => if i == id then Hist([Stop(0, since, at)], a, b, []) else h
    case Passed(i, index, tick, at) => if i == id then h.(trail := h.trail + [Stop(index, tick, at)]) else h
    case Lapped(i, _, ms, _) => if i == id then h.(laps := h.laps + [ms]) else h
    case Closed(_) => h
  }

  function HistOf(log: seq<Mark>, id: Uuid): Hist {
    if log == [] then UNKNOWN
    else Extend(HistOf(log[..|log| - 1], id), log[|log| - 1], id)
  }

  lemma HistOfOne(log: seq<Mark>, m: Mark, id: Uuid)
    ensures HistOf(log + [m], id) == Extend(HistOf(log, id), m, id)
  {
    assert (log + [m])[..|log|] == log;
  }

  /** The marks of one car's tick: its own history grows, every other history stays. */
  lemma HistOfTick(log: seq<Mark>, cfg: Config, who: Uuid, m: Body, t: Times, tick: int, now: int, id: Uuid)
    ensures var ms := MarksOf(cfg, who, m, t, tick, now);
            HistOf(log + ms, id) ==
            if id == who then TickHist(cfg, HistOf(log, id), m, t, tick, now) else HistOf(log, id)
  {
    var ms := MarksOf(cfg, who, m, t, tick, now);
    if ms == [] {
      assert log + ms == log;
    } else {
      HistOfOne(log, ms[0], id);
      if |ms| == 2 {
        assert log + ms == (log + [ms[0]]) + [ms[1]];
        HistOfOne(log + [ms[0]], ms[1], id);
      } else {
        assert log + ms == log + [ms[0]];
      }
    }
  }

  function TickHist(cfg: Config, h: Hist, m: Body, t: Times, tick: int, now: int): Hist {
    if !Near(cfg, m) then h
    else
      h.(trail := h.trail + [Stop(NextIndex(cfg, m), tick, m.motion.position)],
         laps := if ClosesLap(cfg, m) then h.laps + [LapMs(t, now)] else h.laps)
  }

  // ----- checkpoints and laps -----

  function Max(a: nat, b: nat): nat {
    if a < b then b else a
  }

  /** How many checkpoints finish a race: max(2, MaxLaps) rounds of the track. */
  function Goal(cfg: Config): nat {
    |cfg.waypoints| * Max(2, cfg.maxLaps)
  }

  function Passes(h: Hist): nat {
    if h.trail == [] then 0 else |h.trail| - 1
  }

  /** Progress counters of a car with k checkpoints behind it on a track of n waypoints. */
  ghost predicate Counts(cfg: Config, b: Body, k: nat) {
    var n := |cfg.waypoints|;
    if n == 0 then k == 0 && b.nextCheckpoint == b.lastCheckpoint == b.lap == 0 && !b.finished
    else
      && k <= Goal(cfg)
      && b.nextCheckpoint == (k + 1) % n
      && b.lastCheckpoint == k % n
      && b.lap == k / n
      && (b.finished <==> k == Goal(cfg))
  }

  lemma NextQuotient(k: nat, n: nat)
    requires n > 0
    ensures (k + 1) % n == (if k % n + 1 == n then 0 else k % n + 1)
    ensures (k + 1) / n == (if k % n + 1 == n then k / n + 1 else k / n)
  {
    var q, m := k / n, k % n;
    assert k == q * n + m;
    if m + 1 == n {
      assert k + 1 == (q + 1) * n;
      Quotient(k + 1, n, q + 1, 0);
    } else {
      assert k + 1 == q * n + (m + 1);
      Quotient(k + 1, n, q, m + 1);
    }
  }

  lemma RoundsOrder(a: nat, b: nat, n: nat)
    requires n > 0
    ensures a * n <= b * n <==> a <= b
    ensures a * n == b * n <==> a == b
  {
    if a < b {
      Factor(b, a, n);
      AtLeastOnce(b - a, n);
    } else if b < a {
      Factor(a, b, n);
      AtLeastOnce(a - b, n);
    }
  }

  lemma NewCounts(cfg: Config, at: Vec3)
    requires ConfigOk(cfg)
    ensures Counts(cfg, NewBody(cfg, at), 0)
  {
  }

  /** k + 1 passes end a round exactly when they are a whole number of rounds, and end the race on the last. */
  lemma RoundsAt(cfg: Config, k: nat)
    requires ConfigOk(cfg) && cfg.waypoints != [] && k < Goal(cfg)
    ensures var n := |cfg.waypoints|;
            var q := (k + 1) / n;
            && k + 1 <= Goal(cfg)
            && (k + 1 == Goal(cfg) <==> (k + 1) % n == 0 && q >= Max(2, cfg.maxLaps))
  {
    var n, rounds := |cfg.waypoints|, Max(2, cfg.maxLaps);
    var q, m := (k + 1) / n, (k + 1) % n;
    assert k + 1 == q * n + m;
    assert Goal(cfg) == rounds * n;
    if m == 0 {
      RoundsOrder(q, rounds, n);
    }
    if k + 1 == Goal(cfg) {
      Quotient(k + 1, n, rounds, 0);
    }
  }

  /** Passing the next checkpoint takes the counters from k to k + 1. */
  lemma PassingCounts(cfg: Config, b: Body, k: nat)
    requires ConfigOk(cfg) && cfg.waypoints != [] && Counts(cfg, b, k) && !b.finished
    ensures NextIndex(cfg, b) == (k + 1) % |cfg.waypoints|
    ensures Counts(cfg, Passing(cfg, b), k + 1)
  {
    var n := |cfg.waypoints|;
    NextQuotient(k, n);
    NextQuotient(k + 1, n);
    SmallMod(b.nextCheckpoint, n);
    RoundsAt(cfg, k);
    var i := NextIndex(cfg, b);
    NextQuotient(i, n);
    SmallMod(i, n);
  }

  lemma SmallMod(a: nat, n: nat)
    requires a < n
    ensures a % n == a
  {
  }

  /** The checkpoint code on any body m with the counters of k passes. */
  lemma CheckedCounts(cfg: Config, m: Body, k: nat)
    requires ConfigOk(cfg) && Counts(cfg, m, k) && !m.finished
    ensures Counts(cfg, Checked(cfg, m), if Near(cfg, m) then k + 1 else k)
  {
    if Near(cfg, m) {
      PassingCounts(cfg, m, k);
    }
  }

  // ----- where the car was -----

  function LegTime(a: Stop, b: Stop): int {
    b.tick - a.tick
  }

  /** b is no farther from a than a car of this spec gets in that many ticks. */
  ghost predicate Reachable(cfg: Config, spec: CarSpec, a: Vec3, b: Vec3, ticks: int)
    requires cfg.tickHz > 0
  {
    0 <= ticks && Distance(cfg.env, a, b) <= ticks as real * Reach(spec, Dt(cfg))
  }

  ghost predicate StopOk(cfg: Config, h: Hist, j: nat)
    requires 0 < j < |h.trail|
  {
    && cfg.waypoints != []
    && h.trail[j].index == j % |cfg.waypoints|
    && Distance(cfg.env, h.trail[j].at, cfg.waypoints[h.trail[j].index]) < CHECKPOINT_RADIUS
  }

  ghost predicate LegOk(cfg: Config, spec: CarSpec, h: Hist, j: nat)
    requires cfg.tickHz > 0 && 0 < j < |h.trail|
  {
    && h.trail[j - 1].tick < h.trail[j].tick
    && Reachable(cfg, spec, h.trail[j - 1].at, h.trail[j].at, LegTime(h.trail[j - 1], h.trail[j]))
  }

  /** Every checkpoint was approached in order, and every leg took the time it needs at least. */
  ghost predicate TrailOk(cfg: Config, at: Vec3, spec: CarSpec, h: Hist, lastTick: int)
    requires cfg.tickHz > 0
  {
    && h.trail != []
    && (forall j :: 0 < j < |h.trail| ==> StopOk(cfg, h, j))
    && (forall j :: 0 < j < |h.trail| ==> LegOk(cfg, spec, h, j))
    && var last := h.trail[|h.trail| - 1];
       Reachable(cfg, spec, last.at, at, lastTick - last.tick)
  }

  lemma ReachGrowsWithTime(cfg: Config, spec: CarSpec, a: Vec3, b: Vec3, ticks: int, later: int)
    requires ConfigOk(cfg) && Reachable(cfg, spec, a, b, ticks) && ticks <= later
    ensures Reachable(cfg, spec, a, b, later)
  {
    var r := Reach(spec, Dt(cfg));
    assert r >= 0.0;
    assert (later as real - ticks as real) * r >= 0.0;
  }

  lemma OneMoreTick(cfg: Config, spec: CarSpec, a: Vec3, b: Vec3, c: Vec3, ticks: int)
    requires ConfigOk(cfg) && Reachable(cfg, spec, a, b, ticks)
    requires Distance(cfg.env, b, c) <= Reach(spec, Dt(cfg))
    ensures Reachable(cfg, spec, a, c, ticks + 1)
  {
    OneMoreStep(cfg.env, a, b, c, ticks, Reach(spec, Dt(cfg)));
  }

  /** Time passes and the car does not move. */
  lemma TrailWaits(cfg: Config, at: Vec3, spec: CarSpec, h: Hist, lastTick: int, tick: int)
    requires ConfigOk(cfg) && TrailOk(cfg, at, spec, h, lastTick) && lastTick <= tick
    ensures TrailOk(cfg, at, spec, h, tick)
  {
    var last := h.trail[|h.trail| - 1];
    ReachGrowsWithTime(cfg, spec, last.at, at, lastTick - last.tick, tick - last.tick);
  }

  /** The car moves to m and the checkpoint code runs. */
  lemma TrailTick(cfg: Config, at: Vec3, spec: CarSpec, h: Hist, m: Body, t: Times,
                  lastTick: int, tick: int, now: int)
    requires ConfigOk(cfg) && TrailOk(cfg, at, spec, h, lastTick) && lastTick < tick
    requires Distance(cfg.env, at, m.motion.position) <= Reach(spec, Dt(cfg))
    requires Near(cfg, m) ==> NextIndex(cfg, m) == |h.trail| % |cfg.waypoints|
    ensures TrailOk(cfg, m.motion.position, spec, TickHist(cfg, h, m, t, tick, now), tick)
  {
    var p := m.motion.position;
    var last := h.trail[|h.trail| - 1];
    OneMoreTick(cfg, spec, last.at, at, p, lastTick - last.tick);
    ReachGrowsWithTime(cfg, spec, last.at, p, lastTick - last.tick + 1, tick - last.tick);
    if Near(cfg, m) {
      var h' := TickHist(cfg, h, m, t, tick, now);
      var k := |h.trail|;
      forall j | 0 < j < |h'.trail|
        ensures StopOk(cfg, h', j) && LegOk(cfg, spec, h', j)
      {
        if j < k {
          assert StopOk(cfg, h, j) && LegOk(cfg, spec, h, j);
        }
      }
      DistanceFacts(cfg.env, p, p);
    }
  }

  // ----- lap times -----

  function Sum(xs: seq<int>): int {
    if xs == [] then 0 else Sum(xs[..|xs| - 1]) + xs[|xs| - 1]
  }

  /** BestLapMs after the given laps. */
  function BestOf(xs: seq<int>): int {
    if xs == [] then 0 else Better(BestOf(xs[..|xs| - 1]), xs[|xs| - 1])
  }

  /** The clock-derived fields agree with the stamps and the laps of the stay. */
  ghost predicate TimesOk(t: Times, lap: nat, finished: bool, h: Hist, clock: int) {
    && t.startedAt == h.stampA <= h.stampB <= t.lapStartedAt <= clock
    && |h.laps| == (if lap == 0 then 0 else lap - 1)
    && (forall i :: 0 <= i < |h.laps| ==> h.laps[i] >= 0)
    && Sum(h.laps) * MILLI <= t.lapStartedAt - h.stampB <= (Sum(h.laps) + |h.laps|) * MILLI
    && (h.laps != [] ==> t.lapStartedAt - h.stampB < (Sum(h.laps) + |h.laps|) * MILLI)
    && t.bestLapMs == BestOf(h.laps)
    && (finished ==> t.finishTime == t.lapStartedAt)
  }

  lemma TimesAfterTick(cfg: Config, m: Body, t: Times, h: Hist, clock: int, tick: int, now: int, rank: nat)
    requires TimesOk(t, m.lap, false, h, clock) && clock <= now && !m.finished
    ensures TimesOk(TimesTick(cfg, m, t, now, rank), Checked(cfg, m).lap, Checked(cfg, m).finished,
                    TickHist(cfg, h, m, t, tick, now), now)
  {
  }
}
