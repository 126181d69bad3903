/** The status of a race, its countdown, and the cars that wait for it. */
module Lifecycle {
  import opened Base
  import opened RaceModel
  import opened CarHistory
  import opened RaceRuns
  import opened Laps

  function Phase(s: Status): nat {
    match s
    case Pending => 0
    case Starting => 1
    case InProgress => 2
    case Finished => 3
  }

  /** The countdown is over: the clock has been read 3000 ms or more after StartRealTime. */
  predicate CountdownOver(r: RaceState) {
    r.startRealTime.Some? && r.clock - r.startRealTime.value >= COUNTDOWN
  }

  ghost predicate AtSpawn(r: RaceState, id: Uuid)
    requires id in r.players
  {
    Story(r, id).trail != [] && r.players[id].body.motion.position == Story(r, id).trail[0].at
  }

  ghost predicate Timely(r: RaceState) {
    && (r.status == Pending ==> r.startRealTime.None?)
    && (r.status == Starting || r.status == InProgress ==> r.startRealTime.Some?)
    && (r.status == InProgress ==> CountdownOver(r))
    && (forall id :: id in r.players ==> AtSpawn(r, id) || CountdownOver(r))
  }

  /** Every operation moves the status forward or leaves it, and StartRealTime is written once. */
  lemma OnlyForward(cfg: Config, r: RaceState, op: Op)
    requires ConfigOk(cfg) && OpOk(cfg, r, op)
    ensures var r' := Do(cfg, r, op);
            && Phase(r.status) <= Phase(r'.status)
            && r.clock <= r'.clock
            && (r.startRealTime.Some? && r.status != Pending ==> r'.startRealTime == r.startRealTime)
  {
    if op.Section? {
      SectionFrame(cfg, r, op);
      ReadyFrame(r, op);
      AdvanceClock(cfg, r, op);
    }
  }

  lemma AdvanceClock(cfg: Config, r: RaceState, op: Op)
    requires ConfigOk(cfg) && op.Section? && OpOk(cfg, r, op)
    ensures r.clock <= Ready(r, op).clock <= Do(cfg, r, op).clock
  {
    ReadyFrame(r, op);
    if Ready(r, op).status == InProgress {
      AdvanceFrame(cfg, Ready(r, op), op.visits, op.tick);
    }
  }

  lemma SectionTimely(cfg: Config, r: RaceState, op: Op)
    requires ConfigOk(cfg) && op.Section? && OpOk(cfg, r, op) && Timely(r)
    ensures Timely(Do(cfg, r, op))
  {
    var s, r' := Ready(r, op), Do(cfg, r, op);
    SectionFrame(cfg, r, op);
    ReadyFrame(r, op);
    AdvanceClock(cfg, r, op);
    if !CountdownOver(r') {
      forall id | id in r'.players
        ensures AtSpawn(r', id)
      {
        assert AtSpawn(r, id);
        DrainFeeds(Started(r, op.startStamp, op.sinceStamp, op.tick), op.msgs, id);
        FedFrame(r.players[id].body, id, op.msgs);
      }
    }
  }

  lemma DoTimely(cfg: Config, r: RaceState, op: Op)
    requires ConfigOk(cfg) && OpOk(cfg, r, op) && Timely(r)
    ensures Timely(Do(cfg, r, op))
  {
    var r' := Do(cfg, r, op);
    match op
    case Add(id, spec, a, b) =>
      if r' != r {
        forall i | i in r'.players
          ensures AtSpawn(r', i) || CountdownOver(r')
        {
          HistOfOne(r.log, Added(id, Spawn(cfg, |r.players|), r.lastTick, a, b), i);
          assert i != id ==> AtSpawn(r, i) || CountdownOver(r);
        }
      }
    case Section(_, _, _, _, _) => SectionTimely(cfg, r, op);
    case Finish(_) =>
      forall i | i in r'.players
        ensures AtSpawn(r', i) || CountdownOver(r')
      {
        HistOfOne(r.log, Closed(FinalResults(r)), i);
        assert AtSpawn(r, i) || CountdownOver(r);
      }
    case _ =>
      forall i | i in r'.players
        ensures AtSpawn(r', i) || CountdownOver(r')
      {
        assert AtSpawn(r, i) || CountdownOver(r);
      }
  }

  /** late can come after early: no status is taken back, and no StartRealTime is rewritten. */
  ghost predicate Follows(early: RaceState, late: RaceState) {
    && Phase(early.status) <= Phase(late.status) && early.clock <= late.clock
    && (early.startRealTime.Some? ==> late.startRealTime == early.startRealTime)
  }

  lemma FollowsStep(cfg: Config, early: RaceState, r: RaceState, op: Op)
    requires ConfigOk(cfg) && OpOk(cfg, r, op) && Timely(r) && Follows(early, r)
    ensures Follows(early, Do(cfg, r, op))
  {
    OnlyForward(cfg, r, op);
  }

  lemma {:induction false} TimelyAfter(cfg: Config, early: RaceState, more: seq<Op>)
    requires ConfigOk(cfg) && Timely(early) && After(cfg, early, more).Some?
    ensures var late := After(cfg, early, more).value; Timely(late) && Follows(early, late)
  {
    if more != [] {
      var n := |more| - 1;
      TimelyAfter(cfg, early, more[..n]);
      var r := After(cfg, early, more[..n]).value;
      DoTimely(cfg, r, more[n]);
      FollowsStep(cfg, early, r, more[n]);
    }
  }

  /**
   * From any moment of a run to any later one: the status has not gone back, a StartRealTime that was
   * written is the same, and a car that is off its spawn is so at least 3000 ms after StartRealTime.
   */
  lemma LifeOfARace(cfg: Config, clock: int, ops: seq<Op>, more: seq<Op>)
    requires Run(cfg, clock, ops) && After(cfg, End(cfg, clock, ops), more).Some?
    ensures var early := End(cfg, clock, ops); var late := After(cfg, early, more).value;
            && Phase(early.status) <= Phase(late.status)
            && (early.startRealTime.Some? ==> late.startRealTime == early.startRealTime)
            && (forall id :: id in late.players && !AtSpawn(late, id) ==>
                  late.startRealTime.Some? && late.clock >= late.startRealTime.value + 3_000 * MILLI)
  {
    TimelyAfter(cfg, NewRace(clock), ops);
    TimelyAfter(cfg, End(cfg, clock, ops), more);
  }

  // ----- when a race starts -----

  /**
   * What one locked section does to the lifecycle, written out: a pending race starts exactly when somebody
   * is there, at the first clock reading; the countdown is over exactly when the second reading is 3000 ms or
   * more after StartRealTime, and StartTick is then this tick; Events is left empty.
   */
  lemma SectionStarts(cfg: Config, r: RaceState, op: Op)
    requires ConfigOk(cfg) && OpOk(cfg, r, op) && op.Section?
    ensures var r' := Do(cfg, r, op);
            && r'.events == [] && r'.lastTick == op.tick && r'.finishTime == r.finishTime
            && (r.status == Pending && r.players.Keys == {} ==>
                  r'.status == Pending && r'.startRealTime == r.startRealTime)
            && (r.status == Pending && r.players.Keys != {} ==>
                  && r'.startRealTime == Some(op.startStamp)
                  && r'.status == if op.sinceStamp - op.startStamp >= 3_000_000_000 then InProgress else Starting)
            && (r.status == Starting && r.startRealTime.Some? ==>
                  && r'.startRealTime == r.startRealTime
                  && r'.status ==
                     if op.sinceStamp - r.startRealTime.value >= 3_000_000_000 then InProgress else Starting)
            && (r.status == InProgress || r.status == Finished ==>
                  r'.status == r.status && r'.startRealTime == r.startRealTime)
            && r'.startTick == if r.status != InProgress && r'.status == InProgress then op.tick else r.startTick
  {
    ReadyFrame(r, op);
    if Ready(r, op).status == InProgress {
      AdvanceFrame(cfg, Ready(r, op), op.visits, op.tick);
    }
  }

  /** Some locked section of the run found somebody in a race that was not finished. */
  ghost predicate FoundSomebody(cfg: Config, clock: int, ops: seq<Op>)
    requires Run(cfg, clock, ops)
  {
    ops != [] &&
    var n := |ops| - 1;
    var r := End(cfg, clock, ops[..n]);
    FoundSomebody(cfg, clock, ops[..n]) || (ops[n].Section? && r.players.Keys != {} && r.status != Finished)
  }

  /** The other operations, as far as the start and the end of a race go. */
  lemma OthersDoNotStart(cfg: Config, r: RaceState, op: Op)
    requires ConfigOk(cfg) && OpOk(cfg, r, op) && !op.Section?
    ensures var r' := Do(cfg, r, op);
            && r'.startRealTime == r.startRealTime && r'.startTick == r.startTick
            && r'.status == (if op.Finish? then Finished else r.status)
            && r'.finishTime == if op.Finish? && r.status != Finished then Some(op.stamp) else r.finishTime
  {
  }

  /**
   * Over every run: StartRealTime is set if and only if some locked section found somebody in a race not yet
   * finished, and until then the race is pending, or finished without having started; FinishTime is set if
   * and only if the race is finished.
   */
  lemma {:induction false} StartsExactly(cfg: Config, clock: int, ops: seq<Op>)
    requires Run(cfg, clock, ops)
    ensures var r := End(cfg, clock, ops);
            && (r.startRealTime.Some? <==> FoundSomebody(cfg, clock, ops))
            && (r.startRealTime.None? ==> r.status == Pending || r.status == Finished)
            && (r.startRealTime.Some? ==> r.status != Pending)
            && (r.finishTime.Some? <==> r.status == Finished)
  {
    if ops != [] {
      var n := |ops| - 1;
      var r := End(cfg, clock, ops[..n]);
      StartsExactly(cfg, clock, ops[..n]);
      if ops[n].Section? {
        SectionStarts(cfg, r, ops[n]);
      } else {
        OthersDoNotStart(cfg, r, ops[n]);
      }
    }
  }
}
