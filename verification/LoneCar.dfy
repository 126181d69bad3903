/**
 * The race as a product of single-car simulators: what happens to one car does not depend on the
 * other cars, nor on the order in which a tick visits them.
 */
module LoneCar {
  import opened Base
  import opened Physics
  import opened RaceModel
  import opened CarHistory
  import opened RaceRuns
  import opened Laps

  // ----- a simulator of one car -----

  datatype Lone = Absent | Driving(body: Body, spec: CarSpec)

  datatype LoneOp =
    | Enter(at: Vec3, spec: CarSpec)
    | Exit
    | Turn(inputs: seq<InputMsg>, moving: bool)

  function Feed(b: Body, inputs: seq<InputMsg>): Body {
    if inputs == [] then b
    else
      var b' := Feed(b, inputs[..|inputs| - 1]);
      var m := inputs[|inputs| - 1];
      if b'.finished then b' else b'.(lastInput := m.input, lastInputTick := m.sequence)
  }

  function LoneStep(cfg: Config, s: Lone, op: LoneOp): Lone
    requires cfg.env.pi > 0.0 && cfg.tickHz > 0
  {
    match op
    case Enter(at, spec) => Driving(NewBody(cfg, at), spec)
    case Exit => Absent
    case Turn(inputs, moving) =>
      if s.Absent? then s
      else
        var fed := Feed(s.body, inputs);
        s.(body := if moving then BodyTick(cfg, fed, s.spec) else fed)
  }

  function LoneRun(cfg: Config, s: Lone, ops: seq<LoneOp>): Lone
    requires cfg.env.pi > 0.0 && cfg.tickHz > 0
  {
    if ops == [] then s
    else LoneStep(cfg, LoneRun(cfg, s, ops[..|ops| - 1]), ops[|ops| - 1])
  }

  // ----- what one car sees of a race -----

  /** The messages of one player. */
  function Own(msgs: seq<InputMsg>, id: Uuid): seq<InputMsg> {
    if msgs == [] then []
    else
      Own(msgs[..|msgs| - 1], id) + if msgs[|msgs| - 1].id == id then [msgs[|msgs| - 1]] else []
  }

  lemma {:induction false} FeedOwn(b: Body, id: Uuid, msgs: seq<InputMsg>)
    ensures Feed(b, Own(msgs, id)) == Fed(b, id, msgs)
  {
    if msgs != [] {
      var n := |msgs| - 1;
      FeedOwn(b, id, msgs[..n]);
      var before := Own(msgs[..n], id);
      if msgs[n].id == id {
        assert (before + [msgs[n]])[..|before|] == before;
      } else {
        assert Own(msgs, id) == before;
      }
    }
  }

  function LoneOf(r: RaceState, id: Uuid): Lone {
    if id in r.players then Driving(r.players[id].body, SpecOf(r, id)) else Absent
  }

  /** One operation of the race, as it concerns one player. */
  function Project(cfg: Config, r: RaceState, op: Op, id: Uuid): seq<LoneOp> {
    match op
    case Add(i, spec, _, _) =>
      if i == id && id !in r.players && Accepts(cfg, r) then [Enter(Spawn(cfg, |r.players|), spec)] else []
    case Remove(i) => if i == id then [Exit] else []
    case Section(tick, a, b, msgs, _) => [Turn(Own(msgs, id), Started(r, a, b, tick).status == InProgress)]
    case _ => []
  }

  ghost function ProjectRun(cfg: Config, clock: int, ops: seq<Op>, id: Uuid): seq<LoneOp>
    requires Run(cfg, clock, ops)
  {
    if ops == [] then []
    else
      var n := |ops| - 1;
      ProjectRun(cfg, clock, ops[..n], id) + Project(cfg, End(cfg, clock, ops[..n]), ops[n], id)
  }

  // ----- the tick -----

  /** Whatever the order and the clock, a tick does to each visited car what it does to it alone. */
  lemma TickIsProduct(cfg: Config, r: RaceState, visits: seq<Visit>, tick: int, id: Uuid)
    requires ConfigOk(cfg) && Ids(visits) == r.players.Keys && Distinct(visits) && id in r.players
    requires forall v :: v in visits ==> v.id in r.players
    ensures Advance(cfg, r, visits, tick).players[id].body == BodyTick(cfg, r.players[id].body, SpecOf(r, id))
  {
    var i := OwnTurn(cfg, r, visits, tick, id);
    var before := Advance(cfg, r, visits[..i], tick);
    assert SpecOf(before, id) == SpecOf(r, id);
    TurnBody(cfg, before, visits[i], tick);
  }

  lemma TurnBody(cfg: Config, r: RaceState, v: Visit, tick: int)
    requires ConfigOk(cfg) && v.id in r.players
    ensures AdvanceOne(cfg, r, v, tick).players[v.id].body == BodyTick(cfg, r.players[v.id].body, SpecOf(r, v.id))
  {
  }

  /** A tick appends to the finishing order exactly the cars that it finishes. */
  lemma {:induction false} TickLists(cfg: Config, r: RaceState, visits: seq<Visit>, tick: int, id: Uuid)
    requires ConfigOk(cfg) && Distinct(visits) && id in r.players
    requires forall v :: v in visits ==> v.id in r.players
    ensures r.finishedOrder <= Advance(cfg, r, visits, tick).finishedOrder
    ensures id in Advance(cfg, r, visits, tick).finishedOrder[|r.finishedOrder|..] <==>
            !r.players[id].body.finished && Advance(cfg, r, visits, tick).players[id].body.finished
  {
    if visits != [] {
      var n := |visits| - 1;
      var v, before, past := visits[n], Advance(cfg, r, visits[..n], tick), |r.finishedOrder|;
      TickLists(cfg, r, visits[..n], tick, id);
      IdsOf(visits);
      if v.id == id {
        TurnsOfOthers(cfg, r, visits[..n], tick, id);
      } else {
        TurnOfOther(cfg, before, v, tick, id);
      }
      if !before.players[v.id].body.finished {
        ListTurn(cfg, before, v, tick, past, id);
      }
    }
  }

  lemma ListTurn(cfg: Config, r: RaceState, v: Visit, tick: int, past: nat, id: Uuid)
    requires ConfigOk(cfg) && v.id in r.players && !r.players[v.id].body.finished && past <= |r.finishedOrder|
    ensures var r' := AdvanceOne(cfg, r, v, tick);
            r'.finishedOrder[past..] == r.finishedOrder[past..] + if r'.players[v.id].body.finished then [v.id] else []
  {
  }

  /** A car that closes no lap in a tick keeps its times and its rank. */
  lemma TickTimes(cfg: Config, r: RaceState, visits: seq<Visit>, tick: int, id: Uuid)
    requires ConfigOk(cfg) && Ids(visits) == r.players.Keys && Distinct(visits) && id in r.players
    requires forall v :: v in visits ==> v.id in r.players
    ensures !LapEnds(cfg, r, id) ==> Advance(cfg, r, visits, tick).players[id].times == r.players[id].times
  {
    var i := OwnTurn(cfg, r, visits, tick, id);
  }

  /** The car is under way, and its next step takes it over the start line again. */
  predicate LapEnds(cfg: Config, r: RaceState, id: Uuid)
    requires cfg.env.pi > 0.0 && cfg.tickHz > 0 && id in r.players
  {
    var b := r.players[id].body;
    !b.finished && ClosesLap(cfg, Moved(cfg, b, SpecOf(r, id)))
  }

  /**
   * Two orders of the same tick, at any clock readings: every car ends with the same body, the same cars
   * are appended to the finishing order, and a car that closes no lap has the same times and rank too.
   */
  lemma OrderDoesNotMatter(cfg: Config, r: RaceState, visits: seq<Visit>, others: seq<Visit>, tick: int, id: Uuid)
    requires ConfigOk(cfg) && id in r.players
    requires Ids(visits) == r.players.Keys && Distinct(visits) && forall v :: v in visits ==> v.id in r.players
    requires Ids(others) == r.players.Keys && Distinct(others) && forall v :: v in others ==> v.id in r.players
    ensures var a, b := Advance(cfg, r, visits, tick), Advance(cfg, r, others, tick);
            && a.players[id].body == b.players[id].body
            && (!LapEnds(cfg, r, id) ==> a.players[id] == b.players[id])
            && r.finishedOrder <= a.finishedOrder && r.finishedOrder <= b.finishedOrder
            && (id in a.finishedOrder[|r.finishedOrder|..] <==> id in b.finishedOrder[|r.finishedOrder|..])
  {
    TickIsProduct(cfg, r, visits, tick, id);
    TickIsProduct(cfg, r, others, tick, id);
    TickLists(cfg, r, visits, tick, id);
    TickLists(cfg, r, others, tick, id);
    TickTimes(cfg, r, visits, tick, id);
    TickTimes(cfg, r, others, tick, id);
  }

  /** The cars that a tick appends are among those visited, none twice. */
  lemma {:induction false} AppendedOnce(cfg: Config, r: RaceState, visits: seq<Visit>, tick: int)
    requires ConfigOk(cfg) && Distinct(visits) && forall v :: v in visits ==> v.id in r.players
    ensures r.finishedOrder <= Advance(cfg, r, visits, tick).finishedOrder
    ensures var more := Advance(cfg, r, visits, tick).finishedOrder[|r.finishedOrder|..];
            NoDup(more) && Elements(more) <= Ids(visits)
  {
    if visits != [] {
      var n := |visits| - 1;
      var v, before, past := visits[n], Advance(cfg, r, visits[..n], tick), |r.finishedOrder|;
      AppendedOnce(cfg, r, visits[..n], tick);
      IdsOf(visits);
      assert v.id !in Ids(visits[..n]);
      assert v.id !in Elements(before.finishedOrder[past..]);
      if !before.players[v.id].body.finished {
        ListTurn(cfg, before, v, tick, past, v.id);
      }
    }
  }

  /** Two orders of the same tick finish equally many cars, each once. */
  lemma SameFinishers(cfg: Config, r: RaceState, visits: seq<Visit>, others: seq<Visit>, tick: int)
    requires ConfigOk(cfg)
    requires Ids(visits) == r.players.Keys && Distinct(visits) && forall v :: v in visits ==> v.id in r.players
    requires Ids(others) == r.players.Keys && Distinct(others) && forall v :: v in others ==> v.id in r.players
    ensures var a, b := Advance(cfg, r, visits, tick).finishedOrder, Advance(cfg, r, others, tick).finishedOrder;
            && r.finishedOrder <= a && r.finishedOrder <= b && |a| == |b|
            && var (more, most) := (a[|r.finishedOrder|..], b[|r.finishedOrder|..]);
               NoDup(more) && NoDup(most) && Elements(more) == Elements(most)
  {
    var past := |r.finishedOrder|;
    AppendedOnce(cfg, r, visits, tick);
    AppendedOnce(cfg, r, others, tick);
    var more := Advance(cfg, r, visits, tick).finishedOrder[past..];
    var most := Advance(cfg, r, others, tick).finishedOrder[past..];
    forall id | id in r.players
      ensures id in more <==> id in most
    {
      OrderDoesNotMatter(cfg, r, visits, others, tick, id);
    }
    assert Elements(more) == Elements(most);
    NoDupSize(more);
    NoDupSize(most);
  }

  // ----- runs -----

  lemma SectionIsTurn(cfg: Config, r: RaceState, op: Op, id: Uuid)
    requires ConfigOk(cfg) && op.Section? && OpOk(cfg, r, op) && id in r.players
    ensures LoneOf(Do(cfg, r, op), id) == LoneStep(cfg, LoneOf(r, id), Project(cfg, r, op, id)[0])
  {
    var started, s := Started(r, op.startStamp, op.sinceStamp, op.tick), Ready(r, op);
    ReadyFrame(r, op);
    SectionFrame(cfg, r, op);
    DrainFeeds(started, op.msgs, id);
    FeedOwn(r.players[id].body, id, op.msgs);
    if s.status == InProgress {
      TickIsProduct(cfg, s, op.visits, op.tick, id);
    }
  }

  lemma DoIsProduct(cfg: Config, r: RaceState, op: Op, id: Uuid)
    requires ConfigOk(cfg) && OpOk(cfg, r, op)
    ensures LoneOf(Do(cfg, r, op), id) == LoneRun(cfg, LoneOf(r, id), Project(cfg, r, op, id))
  {
    var ps := Project(cfg, r, op, id);
    if |ps| == 1 {
      assert ps[..0] == [];
      assert LoneRun(cfg, LoneOf(r, id), ps) == LoneStep(cfg, LoneOf(r, id), ps[0]);
    }
    match op
    case Section(_, _, _, _, _) =>
      SectionFrame(cfg, r, op);
      if id in r.players {
        SectionIsTurn(cfg, r, op, id);
      }
    case _ =>
  }

  lemma {:induction false} LoneRunAppend(cfg: Config, s: Lone, a: seq<LoneOp>, b: seq<LoneOp>)
    requires cfg.env.pi > 0.0 && cfg.tickHz > 0
    ensures LoneRun(cfg, s, a + b) == LoneRun(cfg, LoneRun(cfg, s, a), b)
  {
    if b == [] {
      assert a + b == a;
    } else {
      var n := |b| - 1;
      assert (a + b)[..|a| + n] == a + b[..n];
      LoneRunAppend(cfg, s, a, b[..n]);
    }
  }

  /**
   * After any run, with any number of other players, in any visiting order and at any clock readings,
   * each car is where a lone car is that was entered when it was added, left when it was removed, and
   * was fed its own inputs only.
   */
  lemma {:induction false} RaceIsProduct(cfg: Config, clock: int, ops: seq<Op>, id: Uuid)
    requires Run(cfg, clock, ops)
    ensures LoneOf(End(cfg, clock, ops), id) == LoneRun(cfg, Absent, ProjectRun(cfg, clock, ops, id))
  {
    if ops != [] {
      var n := |ops| - 1;
      var r := End(cfg, clock, ops[..n]);
      RaceIsProduct(cfg, clock, ops[..n], id);
      DoIsProduct(cfg, r, ops[n], id);
      LoneRunAppend(cfg, Absent, ProjectRun(cfg, clock, ops[..n], id), Project(cfg, r, ops[n], id));
    }
  }

  // ----- how long finishing takes -----

  ghost predicate AllTurns(ops: seq<LoneOp>) {
    forall i :: 0 <= i < |ops| ==> ops[i].Turn?
  }

  function MovingTurns(ops: seq<LoneOp>): nat
    requires AllTurns(ops)
  {
    if ops == [] then 0
    else MovingTurns(ops[..|ops| - 1]) + if ops[|ops| - 1].moving then 1 else 0
  }

  /** Within 8 m of every waypoint. */
  ghost predicate Inside(cfg: Config, at: Vec3) {
    forall i :: 0 <= i < |cfg.waypoints| ==> Distance(cfg.env, at, cfg.waypoints[i]) < 8.0
  }

  ghost predicate AlwaysInside(cfg: Config, s: Lone, ops: seq<LoneOp>)
    requires cfg.env.pi > 0.0 && cfg.tickHz > 0
  {
    forall i :: 0 <= i <= |ops| ==>
      LoneRun(cfg, s, ops[..i]).Driving? ==> Inside(cfg, LoneRun(cfg, s, ops[..i]).body.motion.position)
  }

  lemma FeedFrame(b: Body, inputs: seq<InputMsg>)
    ensures Feed(b, inputs).(lastInput := b.lastInput, lastInputTick := b.lastInputTick) == b
  {
  }

  lemma TickCounts(cfg: Config, b: Body, spec: CarSpec, k: nat) returns (k': nat)
    requires ConfigOk(cfg) && cfg.waypoints != [] && Counts(cfg, b, k)
    ensures Counts(cfg, BodyTick(cfg, b, spec), k') && k <= k' <= k + 1
    ensures Inside(cfg, BodyTick(cfg, b, spec).motion.position) ==> k' == if k == Goal(cfg) then k else k + 1
  {
    k' := k;
    if !b.finished {
      var m := Moved(cfg, b, spec);
      CheckedCounts(cfg, m, k);
      k' := if Near(cfg, m) then k + 1 else k;
    }
  }

  /**
   * A car entered on a track of n waypoints is finished only after n * max(2, MaxLaps) moving turns,
   * and a car that stays inside every waypoint disc is finished after exactly that many.
   */
  lemma {:induction false} FinishTakesGoal(cfg: Config, at: Vec3, spec: CarSpec, ops: seq<LoneOp>) returns (k: nat)
    requires ConfigOk(cfg) && cfg.waypoints != [] && AllTurns(ops)
    ensures var s := LoneRun(cfg, Driving(NewBody(cfg, at), spec), ops);
            && s.Driving? && s.spec == spec && Counts(cfg, s.body, k) && k <= MovingTurns(ops)
            && (s.body.finished ==> MovingTurns(ops) >= |cfg.waypoints| * Max(2, cfg.maxLaps))
    ensures AlwaysInside(cfg, Driving(NewBody(cfg, at), spec), ops) ==>
            && k == (if MovingTurns(ops) < Goal(cfg) then MovingTurns(ops) else Goal(cfg))
            && (LoneRun(cfg, Driving(NewBody(cfg, at), spec), ops).body.finished <==>
                MovingTurns(ops) >= |cfg.waypoints| * Max(2, cfg.maxLaps))
  {
    var s0 := Driving(NewBody(cfg, at), spec);
    if ops == [] {
      k := 0;
      NewCounts(cfg, at);
    } else {
      var n := |ops| - 1;
      k := FinishTakesGoal(cfg, at, spec, ops[..n]);
      var s := LoneRun(cfg, s0, ops[..n]);
      FeedFrame(s.body, ops[n].inputs);
      if AlwaysInside(cfg, s0, ops) {
        forall i | 0 <= i <= n
          ensures LoneRun(cfg, s0, ops[..n][..i]).Driving? ==>
                    Inside(cfg, LoneRun(cfg, s0, ops[..n][..i]).body.motion.position)
        {
          assert ops[..n][..i] == ops[..i];
        }
        assert ops[..n + 1] == ops;
      }
      if ops[n].moving {
        k := TickCounts(cfg, Feed(s.body, ops[n].inputs), spec, k);
      }
    }
  }

  // ----- how long finishing takes in a race -----

  /** The operation adds the player. */
  predicate Enters(cfg: Config, r: RaceState, op: Op, id: Uuid) {
    op.Add? && op.id == id && id !in r.players && Accepts(cfg, r)
  }

  /** The operation is a tick of a race that is on. */
  predicate Moves(r: RaceState, op: Op) {
    op.Section? && Started(r, op.startStamp, op.sinceStamp, op.tick).status == InProgress
  }

  /** The InProgress ticks since the player was last added. */
  ghost function MovingTicks(cfg: Config, clock: int, ops: seq<Op>, id: Uuid): nat
    requires Run(cfg, clock, ops)
  {
    if ops == [] then 0
    else
      var n := |ops| - 1;
      var r := End(cfg, clock, ops[..n]);
      if Enters(cfg, r, ops[n], id) then 0
      else MovingTicks(cfg, clock, ops[..n], id) + if Moves(r, ops[n]) then 1 else 0
  }

  /** Since the player was last added its car was within 8 m of every waypoint. */
  ghost predicate InsideSince(cfg: Config, clock: int, ops: seq<Op>, id: Uuid)
    requires Run(cfg, clock, ops)
  {
    var r := End(cfg, clock, ops);
    && (id in r.players ==> Inside(cfg, r.players[id].body.motion.position))
    && (ops != [] ==>
          var n := |ops| - 1;
          Enters(cfg, End(cfg, clock, ops[..n]), ops[n], id) || InsideSince(cfg, clock, ops[..n], id))
  }

  lemma OneMoreTurn(cfg: Config, s0: Lone, turns: seq<LoneOp>, turn: LoneOp)
    requires ConfigOk(cfg) && AllTurns(turns) && turn.Turn?
    ensures AllTurns(turns + [turn])
    ensures MovingTurns(turns + [turn]) == MovingTurns(turns) + if turn.moving then 1 else 0
    ensures LoneRun(cfg, s0, turns + [turn]) == LoneStep(cfg, LoneRun(cfg, s0, turns), turn)
    ensures AlwaysInside(cfg, s0, turns) &&
            (LoneRun(cfg, s0, turns + [turn]).Driving? ==>
               Inside(cfg, LoneRun(cfg, s0, turns + [turn]).body.motion.position)) ==>
              AlwaysInside(cfg, s0, turns + [turn])
  {
    var more := turns + [turn];
    assert more[..|turns|] == turns && more[..|more|] == more;
    forall i | 0 <= i <= |turns|
      ensures more[..i] == turns[..i]
    {
    }
  }

  /** A present player's stay, as a lone car sees it. */
  lemma {:induction false} StayIsTurns(cfg: Config, clock: int, ops: seq<Op>, id: Uuid)
    returns (at: Vec3, spec: CarSpec, turns: seq<LoneOp>)
    requires Run(cfg, clock, ops) && id in End(cfg, clock, ops).players
    ensures AllTurns(turns) && MovingTurns(turns) == MovingTicks(cfg, clock, ops, id)
    ensures LoneOf(End(cfg, clock, ops), id) == LoneRun(cfg, Driving(NewBody(cfg, at), spec), turns)
    ensures InsideSince(cfg, clock, ops, id) ==> AlwaysInside(cfg, Driving(NewBody(cfg, at), spec), turns)
  {
    var n := |ops| - 1;
    var r, op := End(cfg, clock, ops[..n]), ops[n];
    DoIsProduct(cfg, r, op, id);
    var ps := Project(cfg, r, op, id);
    assert |ps| == 1 ==> ps[..0] == [] && LoneRun(cfg, LoneOf(r, id), ps) == LoneStep(cfg, LoneOf(r, id), ps[0]);
    if Enters(cfg, r, op, id) {
      at, spec, turns := Spawn(cfg, |r.players|), op.spec, [];
    } else {
      StillThere(cfg, r, op, id);
      at, spec, turns := StayIsTurns(cfg, clock, ops[..n], id);
      if op.Section? {
        OneMoreTurn(cfg, Driving(NewBody(cfg, at), spec), turns, ps[0]);
        turns := turns + ps;
      }
    }
  }

  lemma StillThere(cfg: Config, r: RaceState, op: Op, id: Uuid)
    requires ConfigOk(cfg) && OpOk(cfg, r, op) && id in Do(cfg, r, op).players && !Enters(cfg, r, op, id)
    ensures id in r.players && (op.Remove? ==> op.id != id)
  {
    if op.Section? {
      SectionFrame(cfg, r, op);
    }
  }

  /**
   * In any run of a race on n waypoints, whoever is present and finished was there for at least
   * n * max(2, MaxLaps) InProgress ticks; a car always inside every waypoint disc is finished once it was
   * there for exactly that many.
   */
  lemma FinishTakesGoalTicks(cfg: Config, clock: int, ops: seq<Op>, id: Uuid)
    requires Run(cfg, clock, ops) && id in End(cfg, clock, ops).players && cfg.waypoints != []
    ensures var finished := End(cfg, clock, ops).players[id].body.finished;
            var goal, ticks := |cfg.waypoints| * Max(2, cfg.maxLaps), MovingTicks(cfg, clock, ops, id);
            && (finished ==> ticks >= goal)
            && (InsideSince(cfg, clock, ops, id) ==> (finished <==> ticks >= goal))
  {
    var at, spec, turns := StayIsTurns(cfg, clock, ops, id);
    var _ := FinishTakesGoal(cfg, at, spec, turns);
  }

  // ----- how a car moves in a race -----

  /** The inputs that moved the player's car since it was last added. */
  ghost function InputsApplied(cfg: Config, clock: int, ops: seq<Op>, id: Uuid): seq<Input>
    requires Run(cfg, clock, ops)
  {
    if ops == [] then []
    else
      var n := |ops| - 1;
      var r := End(cfg, clock, ops[..n]);
      if Enters(cfg, r, ops[n], id) then []
      else InputsApplied(cfg, clock, ops[..n], id) + Applied(r, ops[n], id)
  }

  /** The input that a tick moves the car with, if it moves it. */
  function Applied(r: RaceState, op: Op, id: Uuid): seq<Input> {
    if Moves(r, op) && id in Ready(r, op).players && !Ready(r, op).players[id].body.finished
    then [Ready(r, op).players[id].body.lastInput] else []
  }

  lemma SectionMotion(cfg: Config, r: RaceState, op: Op, id: Uuid)
    requires ConfigOk(cfg) && op.Section? && OpOk(cfg, r, op) && id in r.players
    ensures id in Do(cfg, r, op).players && SpecOf(Do(cfg, r, op), id) == SpecOf(r, id)
    ensures var m, m' := r.players[id].body.motion, Do(cfg, r, op).players[id].body.motion;
            m' == if Applied(r, op, id) == [] then m
                  else Stepped(cfg.env, m, Applied(r, op, id)[0], SpecOf(r, id), Dt(cfg))
  {
    var s := Ready(r, op);
    ReadyFrame(r, op);
    SectionFrame(cfg, r, op);
    DrainFeeds(Started(r, op.startStamp, op.sinceStamp, op.tick), op.msgs, id);
    FedFrame(r.players[id].body, id, op.msgs);
    if s.status == InProgress {
      TickIsProduct(cfg, s, op.visits, op.tick, id);
    }
  }

  lemma OtherMotion(cfg: Config, r: RaceState, op: Op, id: Uuid)
    requires ConfigOk(cfg) && OpOk(cfg, r, op) && !op.Section? && !Enters(cfg, r, op, id)
    requires id in Do(cfg, r, op).players
    ensures id in r.players && Do(cfg, r, op).players[id] == r.players[id]
    ensures SpecOf(Do(cfg, r, op), id) == SpecOf(r, id) && Applied(r, op, id) == []
  {
  }

  /** In every run a present car is where its applied inputs drove it from the place at which it was added. */
  lemma {:induction false} MotionInRuns(cfg: Config, clock: int, ops: seq<Op>, id: Uuid) returns (at: Vec3)
    requires Run(cfg, clock, ops) && id in End(cfg, clock, ops).players
    ensures var r := End(cfg, clock, ops);
            r.players[id].body.motion ==
            Drive(cfg.env, Motion(at, 0.0, 0.0), InputsApplied(cfg, clock, ops, id), SpecOf(r, id), Dt(cfg))
  {
    var n := |ops| - 1;
    var r, op := End(cfg, clock, ops[..n]), ops[n];
    if Enters(cfg, r, op, id) {
      at := Spawn(cfg, |r.players|);
    } else {
      StillThere(cfg, r, op, id);
      at := MotionInRuns(cfg, clock, ops[..n], id);
      var before, last := InputsApplied(cfg, clock, ops[..n], id), Applied(r, op, id);
      if op.Section? {
        SectionMotion(cfg, r, op, id);
      } else {
        OtherMotion(cfg, r, op, id);
      }
      if last == [] {
        assert before + last == before;
      } else {
        assert (before + last)[..|before|] == before;
      }
    }
  }

  /**
   * So in every run of a race each present car keeps to its speed limit, and its heading is the sum of all
   * steering applied since it was added, up to whole turns, within [-pi, pi].
   */
  lemma SpeedAndHeadingInRuns(cfg: Config, clock: int, ops: seq<Op>, id: Uuid)
    requires Run(cfg, clock, ops) && id in End(cfg, clock, ops).players
    ensures var r := End(cfg, clock, ops); var m := r.players[id].body.motion;
            var steering := SteeringSum(InputsApplied(cfg, clock, ops, id), SpecOf(r, id), Dt(cfg));
            && Abs(m.velocity) <= Abs(SpecOf(r, id).maxSpeed)
            && Congruent(cfg.env.pi, steering, m.heading) && -cfg.env.pi <= m.heading <= cfg.env.pi
  {
    var at := MotionInRuns(cfg, clock, ops, id);
    var spec, dt := SpecOf(End(cfg, clock, ops), id), Dt(cfg);
    var inputs := InputsApplied(cfg, clock, ops, id);
    HeadingIsSumOfSteering(cfg.env, Motion(at, 0.0, 0.0), inputs, spec, dt);
    assert 0.0 + SteeringSum(inputs, spec, dt) == SteeringSum(inputs, spec, dt);
    if inputs != [] {
      var n := |inputs| - 1;
      SpeedBound(Drive(cfg.env, Motion(at, 0.0, 0.0), inputs[..n], spec, dt).velocity, inputs[n], spec, dt);
    }
  }
}
