/** Finishing order and final results under any interleaving of the race's operations. */
module Ranking {
  import opened Base
  import opened Physics
  import opened RaceModel
  import opened RaceRuns
  import opened Laps

  /** The finishing order and the finished cars agree, each at its rank and in order of time. */
  ghost predicate Ranked(r: RaceState) {
    var order, players := r.finishedOrder, r.players;
    && NoDup(order)
    && (forall id :: id in players ==> (players[id].body.finished <==> id in order))
    && (forall i :: 0 <= i < |order| && order[i] in players ==>
          players[order[i]].times.finishPos == i + 1 && players[order[i]].times.finishTime <= r.clock)
    && (forall i, j :: 0 <= i < j < |order| && order[i] in players && order[j] in players ==>
          players[order[i]].times.finishTime <= players[order[j]].times.finishTime)
  }

  /** A player that is listed as a finisher and has left is added again. */
  predicate Comeback(cfg: Config, r: RaceState, id: Uuid) {
    Accepts(cfg, r) && id !in r.players && id in r.finishedOrder
  }

  /** Adding a player keeps the ranking exactly when it is not a comeback. */
  lemma AddRanksExactly(cfg: Config, r: RaceState, id: Uuid, spec: CarSpec, a: int, b: int)
    requires Ranked(r) && r.clock <= a <= b
    ensures Ranked(AddPlayer(cfg, r, id, spec, a, b)) <==> !Comeback(cfg, r, id)
  {
  }

  lemma TurnRanks(cfg: Config, r: RaceState, v: Visit, tick: int)
    requires ConfigOk(cfg) && Ranked(r) && v.id in r.players && r.clock <= v.now
    ensures Ranked(AdvanceOne(cfg, r, v, tick))
  {
    var c := r.players[v.id];
    if !c.body.finished {
      SettleRanks(cfg, r, v, tick, Moved(cfg, c.body, SpecOf(r, v.id)));
    }
  }

  lemma SettleRanks(cfg: Config, r: RaceState, v: Visit, tick: int, m: Body)
    requires Ranked(r) && v.id in r.players && r.clock <= v.now
    requires !r.players[v.id].body.finished && !m.finished
    ensures Ranked(Settle(cfg, r, v, tick, m))
  {
  }

  lemma {:induction false} TickRanks(cfg: Config, r: RaceState, visits: seq<Visit>, tick: int)
    requires ConfigOk(cfg) && Ranked(r) && Rising(r.clock, visits)
    requires forall v :: v in visits ==> v.id in r.players
    ensures Ranked(Advance(cfg, r, visits, tick))
  {
    if visits != [] {
      var n := |visits| - 1;
      TickRanks(cfg, r, visits[..n], tick);
      AdvanceFrame(cfg, r, visits[..n], tick);
      TurnRanks(cfg, Advance(cfg, r, visits[..n], tick), visits[n], tick);
    }
  }

  lemma {:induction false} DrainRanks(r: RaceState, msgs: seq<InputMsg>)
    requires Ranked(r)
    ensures Ranked(DrainInputs(r, msgs))
  {
    if msgs != [] {
      DrainRanks(r, msgs[..|msgs| - 1]);
    }
  }

  lemma SectionRanks(cfg: Config, r: RaceState, op: Op)
    requires ConfigOk(cfg) && op.Section? && OpOk(cfg, r, op) && Ranked(r)
    ensures Ranked(Do(cfg, r, op))
  {
    var s := Started(r, op.startStamp, op.sinceStamp, op.tick);
    DrainRanks(s, op.msgs);
    ReadyFrame(r, op);
    if s.status == InProgress {
      TickRanks(cfg, Ready(r, op), op.visits, op.tick);
    }
  }

  lemma DoRanks(cfg: Config, r: RaceState, op: Op)
    requires ConfigOk(cfg) && OpOk(cfg, r, op) && Ranked(r)
    requires op.Add? ==> !Comeback(cfg, r, op.id)
    ensures Ranked(Do(cfg, r, op))
  {
    match op
    case Add(id, spec, a, b) => AddRanksExactly(cfg, r, id, spec, a, b);
    case Remove(_) =>
    case Note(_) =>
    case Section(_, _, _, _, _) => SectionRanks(cfg, r, op);
    case Finish(_) =>
  }

  /** A run in which no listed player that left comes back. */
  ghost predicate Orderly(cfg: Config, clock: int, ops: seq<Op>) {
    && Run(cfg, clock, ops)
    && (ops != [] ==>
          var n := |ops| - 1;
          Orderly(cfg, clock, ops[..n]) &&
          (ops[n].Add? ==> !Comeback(cfg, End(cfg, clock, ops[..n]), ops[n].id)))
  }

  lemma {:induction false} RunRanks(cfg: Config, clock: int, ops: seq<Op>)
    requires Orderly(cfg, clock, ops)
    ensures Ranked(End(cfg, clock, ops))
  {
    if ops != [] {
      var n := |ops| - 1;
      RunRanks(cfg, clock, ops[..n]);
      DoRanks(cfg, End(cfg, clock, ops[..n]), ops[n]);
    }
  }

  /** Every moment of a run is ranked. */
  ghost predicate RankedThroughout(cfg: Config, clock: int, ops: seq<Op>) {
    Run(cfg, clock, ops) && Ranked(End(cfg, clock, ops)) &&
    (ops != [] ==> RankedThroughout(cfg, clock, ops[..|ops| - 1]))
  }

  /** The ranking holds at every moment of a run if and only if nobody who is listed and has left comes back. */
  lemma {:induction false} RankedExactly(cfg: Config, clock: int, ops: seq<Op>)
    requires Run(cfg, clock, ops)
    ensures RankedThroughout(cfg, clock, ops) <==> Orderly(cfg, clock, ops)
  {
    if ops != [] {
      var n := |ops| - 1;
      var r := End(cfg, clock, ops[..n]);
      RankedExactly(cfg, clock, ops[..n]);
      if Orderly(cfg, clock, ops[..n]) {
        RunRanks(cfg, clock, ops[..n]);
        if ops[n].Add? {
          AddRanksExactly(cfg, r, ops[n].id, ops[n].spec, ops[n].stampA, ops[n].stampB);
        } else {
          DoRanks(cfg, r, ops[n]);
        }
      }
    }
  }

  // ----- what comebacks leave intact -----

  /** Whoever is present and finished is in the finishing order. */
  ghost predicate Recorded(r: RaceState) {
    forall id :: id in r.players && r.players[id].body.finished ==> id in r.finishedOrder
  }

  lemma SettleRecords(cfg: Config, r: RaceState, v: Visit, tick: int, m: Body)
    requires Recorded(r) && v.id in r.players
    ensures Recorded(Settle(cfg, r, v, tick, m))
  {
  }

  lemma {:induction false} TickRecords(cfg: Config, r: RaceState, visits: seq<Visit>, tick: int)
    requires ConfigOk(cfg) && Recorded(r) && forall v :: v in visits ==> v.id in r.players
    ensures Recorded(Advance(cfg, r, visits, tick))
  {
    if visits != [] {
      var n := |visits| - 1;
      TickRecords(cfg, r, visits[..n], tick);
      var before, v := Advance(cfg, r, visits[..n], tick), visits[n];
      if !before.players[v.id].body.finished {
        SettleRecords(cfg, before, v, tick, Moved(cfg, before.players[v.id].body, SpecOf(before, v.id)));
      }
    }
  }

  lemma {:induction false} DrainRecords(r: RaceState, msgs: seq<InputMsg>)
    requires Recorded(r)
    ensures Recorded(DrainInputs(r, msgs))
  {
    if msgs != [] {
      DrainRecords(r, msgs[..|msgs| - 1]);
    }
  }

  /** Every operation keeps that, comebacks too. */
  lemma DoRecords(cfg: Config, r: RaceState, op: Op)
    requires ConfigOk(cfg) && OpOk(cfg, r, op) && Recorded(r)
    ensures Recorded(Do(cfg, r, op))
  {
    if op.Section? {
      ReadyFrame(r, op);
      DrainRecords(Started(r, op.startStamp, op.sinceStamp, op.tick), op.msgs);
      if Ready(r, op).status == InProgress {
        TickRecords(cfg, Ready(r, op), op.visits, op.tick);
      }
    }
  }

  // ----- results -----

  /** x is the result of a present player at its place among the first n of the order. */
  predicate Placed(players: map<Uuid, Car>, order: seq<Uuid>, n: nat, x: RaceResult)
    requires n <= |order|
  {
    && 1 <= x.position <= n && order[x.position - 1] == x.id && x.id in players
    && x == ResultOf(x.id, x.position, players[x.id].times)
  }

  /** The present finishers among the first n, each once, in order. */
  lemma {:induction false} ResultsMeaning(players: map<Uuid, Car>, order: seq<Uuid>, n: nat)
    requires n <= |order|
    ensures forall x :: x in ResultsUpTo(players, order, n) <==> Placed(players, order, n, x)
    ensures forall j, k :: 0 <= j < k < |ResultsUpTo(players, order, n)| ==>
              ResultsUpTo(players, order, n)[j].position < ResultsUpTo(players, order, n)[k].position
  {
    if n > 0 {
      ResultsMeaning(players, order, n - 1);
      var before, out := ResultsUpTo(players, order, n - 1), ResultsUpTo(players, order, n);
      forall x
        ensures x in out <==> Placed(players, order, n, x)
      {
        assert x in before <==> Placed(players, order, n - 1, x);
      }
      forall j, k | 0 <= j < k < |out|
        ensures out[j].position < out[k].position
      {
        assert out[j] in before && Placed(players, order, n - 1, out[j]);
      }
    }
  }

  predicate Listed(results: seq<RaceResult>, id: Uuid) {
    exists j :: 0 <= j < |results| && results[j].id == id
  }

  /** The results list exactly the present players of the order. */
  lemma ResultsList(r: RaceState, id: Uuid)
    ensures Listed(FinalResults(r), id) <==> id in r.players && id in r.finishedOrder
  {
    var order, out := r.finishedOrder, FinalResults(r);
    ResultsMeaning(r.players, order, |order|);
    if Listed(out, id) {
      var j :| 0 <= j < |out| && out[j].id == id;
      assert out[j] in out;
    }
    if id in r.players && id in order {
      var i :| 0 <= i < |order| && order[i] == id;
      var x := ResultOf(order[i], i + 1, r.players[order[i]].times);
      assert Placed(r.players, order, |order|, x);
      assert x in out && x.id == id;
    }
  }

  /**
   * FinalResults is exactly the present finished players, each once, ordered by rank and by finish
   * time, with Position the player's FinishPos.
   */
  lemma FinalResultsExact(r: RaceState)
    requires Ranked(r)
    ensures var out := FinalResults(r);
            && (forall id :: Listed(out, id) <==> id in r.players && r.players[id].body.finished)
            && (forall j :: 0 <= j < |out| ==>
                  var t := r.players[out[j].id].times;
                  out[j] == RaceResult(out[j].id, t.finishPos, TotalMs(t), t.bestLapMs))
            && (forall j, k :: 0 <= j < k < |out| ==>
                  && out[j].id != out[k].id && out[j].position < out[k].position
                  && r.players[out[j].id].times.finishTime <= r.players[out[k].id].times.finishTime)
  {
    var order, out := r.finishedOrder, FinalResults(r);
    ResultsMeaning(r.players, order, |order|);
    forall j | 0 <= j < |out|
      ensures Placed(r.players, order, |order|, out[j])
    {
      assert out[j] in out;
    }
    forall id
      ensures Listed(out, id) <==> id in r.players && r.players[id].body.finished
    {
      ResultsList(r, id);
    }
  }

  /** The results of any orderly run, finished or not. */
  lemma ResultsOfRun(cfg: Config, clock: int, ops: seq<Op>, id: Uuid)
    requires Orderly(cfg, clock, ops)
    ensures var r := End(cfg, clock, ops); var out := FinalResults(r);
            && NoDup(r.finishedOrder)
            && (Listed(out, id) <==> id in r.players && r.players[id].body.finished)
            && (id in r.players ==>
                  var p := r.players[id].times.finishPos;
                  r.players[id].body.finished <==> 1 <= p <= |r.finishedOrder| && r.finishedOrder[p - 1] == id)
  {
    var r := End(cfg, clock, ops);
    RunRanks(cfg, clock, ops);
    FinalResultsExact(r);
    if id in r.players && r.players[id].body.finished {
      var i :| 0 <= i < |r.finishedOrder| && r.finishedOrder[i] == id;
      assert r.players[id].times.finishPos == i + 1;
    }
  }
}
