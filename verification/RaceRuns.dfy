/** What every operation keeps, and what therefore holds after any run of a race. */
module RaceRuns {
  import opened Base
  import opened Physics
  import opened RaceModel
  import opened CarHistory

  // ----- inputs -----

  /** The inputs of one player, fed to its body in order of arrival. */
  function Fed(b: Body, id: Uuid, msgs: seq<InputMsg>): Body {
    if msgs == [] then b
    else
      var b' := Fed(b, id, msgs[..|msgs| - 1]);
      var m := msgs[|msgs| - 1];
      if m.id == id && !b'.finished then b'.(lastInput := m.input, lastInputTick := m.sequence) else b'
  }

  /** The last queued message of a player. */
  function LastFor(msgs: seq<InputMsg>, id: Uuid): Option<InputMsg> {
    if msgs == [] then None
    else if msgs[|msgs| - 1].id == id then Some(msgs[|msgs| - 1])
    else LastFor(msgs[..|msgs| - 1], id)
  }

  lemma {:induction false} DrainFeeds(r: RaceState, msgs: seq<InputMsg>, id: Uuid)
    requires id in r.players
    ensures id in DrainInputs(r, msgs).players
    ensures DrainInputs(r, msgs).players[id] == r.players[id].(body := Fed(r.players[id].body, id, msgs))
  {
    if msgs != [] {
      DrainFeeds(r, msgs[..|msgs| - 1], id);
    }
  }

  lemma {:induction false} FedIsLast(b: Body, id: Uuid, msgs: seq<InputMsg>)
    ensures Fed(b, id, msgs) ==
            match LastFor(msgs, id)
            case Some(m) => if b.finished then b else b.(lastInput := m.input, lastInputTick := m.sequence)
            case None => b
  {
    if msgs != [] {
      FedIsLast(b, id, msgs[..|msgs| - 1]);
    }
  }

  /** Only the last message of each player, in any order. */
  ghost predicate LastOnly(msgs: seq<InputMsg>, kept: seq<InputMsg>) {
    forall id: Uuid :: LastFor(kept, id) == LastFor(msgs, id)
  }

  /**
   * Draining a queue does what draining only the last message of each player does: earlier messages,
   * and the order between players, leave no trace in the race.
   */
  lemma OnlyLastInputsCount(r: RaceState, msgs: seq<InputMsg>, kept: seq<InputMsg>)
    requires LastOnly(msgs, kept)
    ensures DrainInputs(r, kept) == DrainInputs(r, msgs)
  {
    DrainKeeps(r, msgs);
    DrainKeeps(r, kept);
    forall id | id in r.players
      ensures DrainInputs(r, kept).players[id] == DrainInputs(r, msgs).players[id]
    {
      DrainFeeds(r, msgs, id);
      DrainFeeds(r, kept, id);
      FedIsLast(r.players[id].body, id, msgs);
      FedIsLast(r.players[id].body, id, kept);
    }
    assert DrainInputs(r, kept).players == DrainInputs(r, msgs).players;
  }

  /** Inputs of different players commute. */
  lemma InputsCommute(r: RaceState, a: InputMsg, b: InputMsg)
    requires a.id != b.id
    ensures ApplyInput(ApplyInput(r, a), b) == ApplyInput(ApplyInput(r, b), a)
  {
    assert ApplyInput(ApplyInput(r, a), b).players == ApplyInput(ApplyInput(r, b), a).players;
  }

  /** Messages that name no present, unfinished player change nothing. */
  lemma {:induction false} StrayInputsAreIgnored(r: RaceState, msgs: seq<InputMsg>)
    requires forall m :: m in msgs ==> m.id !in r.players || r.players[m.id].body.finished
    ensures DrainInputs(r, msgs) == r
  {
    if msgs != [] {
      assert forall m :: m in msgs[..|msgs| - 1] ==> m in msgs;
      StrayInputsAreIgnored(r, msgs[..|msgs| - 1]);
    }
  }

  // ----- the turns of one tick -----

  lemma IdsOf(visits: seq<Visit>)
    requires visits != []
    ensures Ids(visits) == Ids(visits[..|visits| - 1]) + {visits[|visits| - 1].id}
  {
  }

  /** The history of one player's stay in a state. */
  function Story(r: RaceState, id: Uuid): Hist {
    HistOf(r.log, id)
  }

  ghost predicate CarOk(cfg: Config, r: RaceState, id: Uuid, tick: int)
    requires ConfigOk(cfg) && id in r.players
  {
    var c := r.players[id];
    && id in r.specs
    && Counts(cfg, c.body, Passes(Story(r, id)))
    && TrailOk(cfg, c.body.motion.position, r.specs[id], Story(r, id), tick)
    && TimesOk(c.times, c.body.lap, c.body.finished, Story(r, id), r.clock)
  }

  /** A car whose record and history are untouched stays as it should while the clock moves on. */
  lemma MovedOn(cfg: Config, r: RaceState, r': RaceState, id: Uuid, tick: int)
    requires ConfigOk(cfg) && id in r.players && CarOk(cfg, r, id, tick)
    requires id in r'.players && r'.players[id] == r.players[id] && id in r'.specs && r'.specs[id] == r.specs[id]
    requires Story(r', id) == Story(r, id) && r.clock <= r'.clock
    ensures CarOk(cfg, r', id, tick)
  {
  }

  lemma SameCar(cfg: Config, r: RaceState, r': RaceState, id: Uuid)
    requires ConfigOk(cfg) && id in r.players && CarOk(cfg, r, id, r.lastTick)
    requires id in r'.players && r'.players[id] == r.players[id] && id in r'.specs && r'.specs[id] == r.specs[id]
    requires Story(r', id) == Story(r, id) && r.clock <= r'.clock && r'.lastTick == r.lastTick
    ensures CarOk(cfg, r', id, r'.lastTick)
  {
    MovedOn(cfg, r, r', id, r.lastTick);
  }

  /** A turn, seen from the car whose turn it is. */
  lemma TurnOfCar(cfg: Config, r: RaceState, v: Visit, lastTick: int, tick: int)
    requires ConfigOk(cfg) && v.id in r.players && CarOk(cfg, r, v.id, lastTick)
    requires r.clock <= v.now && lastTick < tick
    ensures CarOk(cfg, AdvanceOne(cfg, r, v, tick), v.id, tick)
  {
    var c, h, spec := r.players[v.id], Story(r, v.id), r.specs[v.id];
    var at := c.body.motion.position;
    if c.body.finished {
      TrailWaits(cfg, at, spec, h, lastTick, tick);
    } else {
      var m := Moved(cfg, c.body, spec);
      StepReach(cfg.env, c.body.motion, c.body.lastInput, spec, Dt(cfg));
      TurnSettles(cfg, r, v, lastTick, tick, m);
    }
  }

  lemma TurnSettles(cfg: Config, r: RaceState, v: Visit, lastTick: int, tick: int, m: Body)
    requires ConfigOk(cfg) && v.id in r.players && CarOk(cfg, r, v.id, lastTick)
    requires r.clock <= v.now && lastTick < tick
    requires var b := r.players[v.id].body; !b.finished && m == b.(motion := m.motion)
    requires Distance(cfg.env, r.players[v.id].body.motion.position, m.motion.position) <= Reach(r.specs[v.id], Dt(cfg))
    ensures CarOk(cfg, Settle(cfg, r, v, tick, m), v.id, tick)
  {
    var c, h, spec := r.players[v.id], Story(r, v.id), r.specs[v.id];
    HistOfTick(r.log, cfg, v.id, m, c.times, tick, v.now, v.id);
    CheckedCounts(cfg, m, Passes(h));
    if Near(cfg, m) {
      PassingCounts(cfg, m, Passes(h));
    }
    TrailTick(cfg, c.body.motion.position, spec, h, m, c.times, lastTick, tick, v.now);
    TimesAfterTick(cfg, m, c.times, h, r.clock, tick, v.now, |r.finishedOrder| + 1);
  }

  /** A turn, seen from any other car: nothing but the clock changes. */
  lemma TurnOfOther(cfg: Config, r: RaceState, v: Visit, tick: int, id: Uuid)
    requires ConfigOk(cfg) && v.id in r.players && id in r.players && id != v.id
    ensures var r' := AdvanceOne(cfg, r, v, tick);
            r'.players[id] == r.players[id] && Story(r', id) == Story(r, id)
  {
    var c := r.players[v.id];
    if !c.body.finished {
      HistOfTick(r.log, cfg, v.id, Moved(cfg, c.body, SpecOf(r, v.id)), c.times, tick, v.now, id);
    }
  }

  /** What a whole tick leaves as it was. */
  lemma {:induction false} AdvanceFrame(cfg: Config, r: RaceState, visits: seq<Visit>, tick: int)
    requires ConfigOk(cfg) && forall v :: v in visits ==> v.id in r.players
    ensures var r' := Advance(cfg, r, visits, tick);
            r' == r.(players := r'.players, finishedOrder := r'.finishedOrder, events := r'.events,
                     log := r'.log, clock := r'.clock)
    ensures Advance(cfg, r, visits, tick).clock == LastReading(r.clock, visits)
  {
    if visits != [] {
      AdvanceFrame(cfg, r, visits[..|visits| - 1], tick);
    }
  }

  /** The turns of others leave a car and its history alone. */
  lemma {:induction false} TurnsOfOthers(cfg: Config, r: RaceState, visits: seq<Visit>, tick: int, id: Uuid)
    requires ConfigOk(cfg) && id in r.players && id !in Ids(visits)
    requires forall v :: v in visits ==> v.id in r.players
    ensures var r' := Advance(cfg, r, visits, tick);
            r'.players[id] == r.players[id] && Story(r', id) == Story(r, id)
  {
    if visits != [] {
      var n := |visits| - 1;
      IdsOf(visits);
      TurnsOfOthers(cfg, r, visits[..n], tick, id);
      TurnOfOther(cfg, Advance(cfg, r, visits[..n], tick), visits[n], tick, id);
    }
  }

  /** A car's own turn: it finds its record as the tick began, and the tick ends with what it left. */
  lemma {:induction false} OwnTurn(cfg: Config, r: RaceState, visits: seq<Visit>, tick: int, id: Uuid) returns (i: nat)
    requires ConfigOk(cfg) && id in Ids(visits) && Distinct(visits)
    requires forall v :: v in visits ==> v.id in r.players
    ensures i < |visits| && visits[i].id == id
    ensures var before := Advance(cfg, r, visits[..i], tick);
            && before.players[id] == r.players[id] && Story(before, id) == Story(r, id)
            && before.specs == r.specs
            && var after := AdvanceOne(cfg, before, visits[i], tick);
               var r' := Advance(cfg, r, visits, tick);
               r'.players[id] == after.players[id] && Story(r', id) == Story(after, id)
  {
    var n := |visits| - 1;
    IdsOf(visits);
    var before := Advance(cfg, r, visits[..n], tick);
    if visits[n].id == id {
      i := n;
      assert id !in Ids(visits[..n]);
      TurnsOfOthers(cfg, r, visits[..n], tick, id);
      AdvanceFrame(cfg, r, visits[..n], tick);
    } else {
      i := OwnTurn(cfg, r, visits[..n], tick, id);
      assert visits[..n][..i] == visits[..i];
      TurnOfOther(cfg, before, visits[n], tick, id);
    }
  }

  /** A whole tick, seen from one car. */
  lemma TurnsOfCar(cfg: Config, r: RaceState, visits: seq<Visit>, tick: int, id: Uuid)
    requires ConfigOk(cfg) && id in r.players && CarOk(cfg, r, id, r.lastTick) && r.lastTick < tick
    requires forall v :: v in visits ==> v.id in r.players
    requires id in Ids(visits) && Distinct(visits) && Rising(r.clock, visits)
    ensures CarOk(cfg, Advance(cfg, r, visits, tick), id, tick)
  {
    var i := OwnTurn(cfg, r, visits, tick, id);
    var before := Advance(cfg, r, visits[..i], tick);
    AdvanceFrame(cfg, r, visits[..i], tick);
    AdvanceFrame(cfg, r, visits, tick);
    SameCar(cfg, r, before, id);
    TurnOfCar(cfg, before, visits[i], r.lastTick, tick);
    MovedOn(cfg, AdvanceOne(cfg, before, visits[i], tick), Advance(cfg, r, visits, tick), id, tick);
  }

  // ----- what every operation keeps -----

  /** The players and their specs agree, the race is not over-full, and every car fits its history. */
  ghost predicate Inv(cfg: Config, r: RaceState)
    requires ConfigOk(cfg)
  {
    && r.players.Keys == r.specs.Keys
    && |r.players| <= cfg.maxPlayers
    && forall id :: id in r.players ==> CarOk(cfg, r, id, r.lastTick)
  }

  lemma FreshCar(cfg: Config, r: RaceState, id: Uuid, spec: CarSpec, a: int, b: int)
    requires ConfigOk(cfg) && r.clock <= a <= b && Accepts(cfg, r) && id !in r.players
    ensures var r' := AddPlayer(cfg, r, id, spec, a, b); CarOk(cfg, r', id, r'.lastTick)
  {
    var at := Spawn(cfg, |r.players|);
    HistOfOne(r.log, Added(id, at, r.lastTick, a, b), id);
    NewCounts(cfg, at);
    DistanceFacts(cfg.env, at, at);
    var h := Hist([Stop(0, r.lastTick, at)], a, b, []);
    assert 0 as real * Reach(spec, Dt(cfg)) == 0.0;
    assert TrailOk(cfg, at, spec, h, r.lastTick);
  }

  lemma AddKeepsCar(cfg: Config, r: RaceState, id: Uuid, spec: CarSpec, a: int, b: int, i: Uuid)
    requires ConfigOk(cfg) && r.clock <= a <= b
    requires i in AddPlayer(cfg, r, id, spec, a, b).players
    requires i in r.players ==> CarOk(cfg, r, i, r.lastTick)
    ensures var r' := AddPlayer(cfg, r, id, spec, a, b); CarOk(cfg, r', i, r'.lastTick)
  {
    var r' := AddPlayer(cfg, r, id, spec, a, b);
    if r' != r {
      if i == id {
        FreshCar(cfg, r, id, spec, a, b);
      } else {
        HistOfOne(r.log, Added(id, Spawn(cfg, |r.players|), r.lastTick, a, b), i);
        SameCar(cfg, r, r', i);
      }
    }
  }

  lemma AddFrame(cfg: Config, r: RaceState, id: Uuid, spec: CarSpec, a: int, b: int)
    requires r.players.Keys == r.specs.Keys && |r.players| <= cfg.maxPlayers
    ensures var r' := AddPlayer(cfg, r, id, spec, a, b);
            r'.players.Keys == r'.specs.Keys && |r'.players| <= cfg.maxPlayers
  {
  }

  lemma AddKeeps(cfg: Config, r: RaceState, id: Uuid, spec: CarSpec, a: int, b: int)
    requires ConfigOk(cfg) && Inv(cfg, r) && r.clock <= a <= b
    ensures Inv(cfg, AddPlayer(cfg, r, id, spec, a, b))
  {
    AddFrame(cfg, r, id, spec, a, b);
    forall i | i in AddPlayer(cfg, r, id, spec, a, b).players
      ensures var r' := AddPlayer(cfg, r, id, spec, a, b); CarOk(cfg, r', i, r'.lastTick)
    {
      AddKeepsCar(cfg, r, id, spec, a, b, i);
    }
  }

  lemma RemoveKeeps(cfg: Config, r: RaceState, id: Uuid)
    requires ConfigOk(cfg) && Inv(cfg, r)
    ensures Inv(cfg, RemovePlayer(r, id))
  {
  }

  lemma FedFrame(b: Body, id: Uuid, msgs: seq<InputMsg>)
    ensures Fed(b, id, msgs).(lastInput := b.lastInput, lastInputTick := b.lastInputTick) == b
  {
    FedIsLast(b, id, msgs);
  }

  /** After the start checks and the drain: the state the tick moves from. */
  function Ready(r: RaceState, op: Op): RaceState
    requires op.Section?
  {
    DrainInputs(Started(r, op.startStamp, op.sinceStamp, op.tick), op.msgs)
  }

  lemma ReadyFrame(r: RaceState, op: Op)
    requires op.Section?
    ensures var s := Started(r, op.startStamp, op.sinceStamp, op.tick);
            Ready(r, op) == s.(players := Ready(r, op).players)
    ensures Ready(r, op).players.Keys == r.players.Keys
  {
    DrainKeeps(Started(r, op.startStamp, op.sinceStamp, op.tick), op.msgs);
  }

  lemma ReadyCar(cfg: Config, r: RaceState, op: Op, id: Uuid)
    requires ConfigOk(cfg) && op.Section? && OpOk(cfg, r, op) && id in r.players && CarOk(cfg, r, id, r.lastTick)
    ensures id in Ready(r, op).players && CarOk(cfg, Ready(r, op), id, r.lastTick)
  {
    ReadyFrame(r, op);
    DrainFeeds(Started(r, op.startStamp, op.sinceStamp, op.tick), op.msgs, id);
    FedFrame(r.players[id].body, id, op.msgs);
    FedCar(cfg, r, Ready(r, op), id);
  }

  /** New inputs alone do not touch what a car's history is about. */
  lemma FedCar(cfg: Config, r: RaceState, s: RaceState, id: Uuid)
    requires ConfigOk(cfg) && id in r.players && CarOk(cfg, r, id, r.lastTick)
    requires id in s.players && s.specs == r.specs && s.log == r.log && r.clock <= s.clock
    requires var b := r.players[id].body;
             s.players[id] == r.players[id].(body := b.(lastInput := s.players[id].body.lastInput,
                                                        lastInputTick := s.players[id].body.lastInputTick))
    ensures CarOk(cfg, s, id, r.lastTick)
  {
  }

  lemma SectionCar(cfg: Config, r: RaceState, op: Op, id: Uuid)
    requires ConfigOk(cfg) && op.Section? && OpOk(cfg, r, op) && id in r.players && CarOk(cfg, r, id, r.lastTick)
    ensures id in Do(cfg, r, op).players && CarOk(cfg, Do(cfg, r, op), id, op.tick)
  {
    var s := Ready(r, op);
    ReadyFrame(r, op);
    ReadyCar(cfg, r, op, id);
    if s.status == InProgress {
      TurnsOfCar(cfg, s, op.visits, op.tick, id);
    } else {
      TrailWaits(cfg, s.players[id].body.motion.position, s.specs[id], Story(s, id), r.lastTick, op.tick);
    }
  }

  lemma SectionFrame(cfg: Config, r: RaceState, op: Op)
    requires ConfigOk(cfg) && op.Section? && OpOk(cfg, r, op)
    ensures var r' := Do(cfg, r, op); var s := Ready(r, op);
            r'.players.Keys == r.players.Keys && r'.specs == r.specs && r'.status == s.status &&
            r'.startRealTime == s.startRealTime && r'.lastTick == op.tick
  {
    ReadyFrame(r, op);
    var s := Ready(r, op);
    if s.status == InProgress {
      AdvanceFrame(cfg, s, op.visits, op.tick);
    }
  }

  lemma FinishKeepsCar(cfg: Config, r: RaceState, stamp: int, id: Uuid)
    requires ConfigOk(cfg) && r.clock <= stamp && id in r.players && CarOk(cfg, r, id, r.lastTick)
    ensures CarOk(cfg, Close(r, stamp), id, r.lastTick)
  {
  }

  lemma FinishKeeps(cfg: Config, r: RaceState, stamp: int)
    requires ConfigOk(cfg) && Inv(cfg, r) && r.clock <= stamp
    ensures Inv(cfg, Close(r, stamp))
  {
    forall id | id in r.players
      ensures CarOk(cfg, Close(r, stamp), id, r.lastTick)
    {
      FinishKeepsCar(cfg, r, stamp, id);
    }
  }

  lemma DoKeeps(cfg: Config, r: RaceState, op: Op)
    requires ConfigOk(cfg) && Inv(cfg, r) && OpOk(cfg, r, op)
    ensures Inv(cfg, Do(cfg, r, op))
  {
    match op
    case Add(id, spec, a, b) => AddKeeps(cfg, r, id, spec, a, b);
    case Remove(id) => RemoveKeeps(cfg, r, id);
    case Note(ev) =>
      forall id | id in r.players
        ensures CarOk(cfg, Do(cfg, r, op), id, r.lastTick)
      {
        assert CarOk(cfg, r, id, r.lastTick);
      }
    case Section(_, _, _, _, _) =>
      SectionFrame(cfg, r, op);
      assert |r.players.Keys| == |Do(cfg, r, op).players.Keys|;
      forall id | id in r.players
        ensures id in Do(cfg, r, op).players && CarOk(cfg, Do(cfg, r, op), id, op.tick)
      {
        SectionCar(cfg, r, op, id);
      }
    case Finish(stamp) => FinishKeeps(cfg, r, stamp);
  }

  lemma {:induction false} RunKeeps(cfg: Config, clock: int, ops: seq<Op>)
    requires ConfigOk(cfg) && After(cfg, NewRace(clock), ops).Some?
    ensures Inv(cfg, After(cfg, NewRace(clock), ops).value)
  {
    if ops != [] {
      var n := |ops| - 1;
      RunKeeps(cfg, clock, ops[..n]);
      DoKeeps(cfg, After(cfg, NewRace(clock), ops[..n]).value, ops[n]);
    }
  }
}
