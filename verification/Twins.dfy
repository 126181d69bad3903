/**
 * Two runs of a race that differ only in clock readings and in the orders in which ticks visit the
 * players: they stay alike throughout, up to times and to the places of cars that finish in one tick.
 */
module Twins {
  import opened Base
  import opened RaceModel
  import opened RaceRuns
  import opened Laps
  import opened LoneCar

  /** The same operation, up to stamps and visiting order. */
  predicate Paired(a: Op, b: Op) {
    match a
    case Add(id, spec, _, _) => b.Add? && b.id == id && b.spec == spec
    case Remove(id) => b.Remove? && b.id == id
    case Note(_) => b.Note?
    case Section(tick, _, _, msgs, _) => b.Section? && b.tick == tick && b.msgs == msgs
    case Finish(_) => b.Finish?
  }

  /** Their clocks agree on when the race starts and when its countdown is over. */
  predicate InPhase(r: RaceState, a: Op, s: RaceState, b: Op) {
    a.Section? && b.Section? ==>
      Started(r, a.startStamp, a.sinceStamp, a.tick).status == Started(s, b.startStamp, b.sinceStamp, b.tick).status
  }

  ghost predicate AreTwins(cfg: Config, clock: int, ops: seq<Op>, clock': int, ops': seq<Op>) {
    && Run(cfg, clock, ops) && Run(cfg, clock', ops') && |ops| == |ops'|
    && (ops != [] ==>
          var n := |ops| - 1;
          && AreTwins(cfg, clock, ops[..n], clock', ops'[..n]) && Paired(ops[n], ops'[n])
          && InPhase(End(cfg, clock, ops[..n]), ops[n], End(cfg, clock', ops'[..n]), ops'[n]))
  }

  /** The same players with the same specs and bodies, the same status, the same finishers. */
  ghost predicate Alike(r: RaceState, s: RaceState) {
    && r.players.Keys == s.players.Keys && r.specs == s.specs && r.status == s.status
    && (forall id :: id in r.players ==> r.players[id].body == s.players[id].body)
    && multiset(r.finishedOrder) == multiset(s.finishedOrder)
  }

  lemma StartedAlike(r: RaceState, a: Op, s: RaceState, b: Op)
    requires Alike(r, s) && a.Section? && b.Section? && InPhase(r, a, s, b)
    ensures Alike(Started(r, a.startStamp, a.sinceStamp, a.tick), Started(s, b.startStamp, b.sinceStamp, b.tick))
  {
  }

  lemma DrainedAlike(r: RaceState, s: RaceState, msgs: seq<InputMsg>)
    requires Alike(r, s)
    ensures Alike(DrainInputs(r, msgs), DrainInputs(s, msgs))
  {
    DrainKeeps(r, msgs);
    DrainKeeps(s, msgs);
    forall id | id in r.players
      ensures DrainInputs(r, msgs).players[id].body == DrainInputs(s, msgs).players[id].body
    {
      DrainFeeds(r, msgs, id);
      DrainFeeds(s, msgs, id);
    }
  }

  /** One tick from states that are alike, in any two orders. */
  lemma AdvancedAlike(cfg: Config, r: RaceState, visits: seq<Visit>, s: RaceState, others: seq<Visit>, tick: int)
    requires ConfigOk(cfg) && Alike(r, s)
    requires Ids(visits) == r.players.Keys && Distinct(visits) && forall v :: v in visits ==> v.id in r.players
    requires Ids(others) == s.players.Keys && Distinct(others) && forall v :: v in others ==> v.id in s.players
    ensures Alike(Advance(cfg, r, visits, tick), Advance(cfg, s, others, tick))
  {
    hide Alike, Advance, BodyTick, SpecOf;
    AlikeCars(r, s);
    forall id | id in r.players
      ensures Advance(cfg, r, visits, tick).players[id].body == Advance(cfg, s, others, tick).players[id].body
    {
      TickIsProduct(cfg, r, visits, tick, id);
      TickIsProduct(cfg, s, others, tick, id);
    }
    AdvanceFrame(cfg, r, visits, tick);
    AdvanceFrame(cfg, s, others, tick);
    FinishersAlike(cfg, r, visits, s, others, tick);
    AlikeAfter(r, Advance(cfg, r, visits, tick), s, Advance(cfg, s, others, tick));
  }

  lemma AlikeCars(r: RaceState, s: RaceState)
    requires Alike(r, s)
    ensures r.players.Keys == s.players.Keys
    ensures forall id :: id in r.players ==> r.players[id].body == s.players[id].body && SpecOf(r, id) == SpecOf(s, id)
  {
  }

  lemma AlikeAfter(r: RaceState, r': RaceState, s: RaceState, s': RaceState)
    requires Alike(r, s) && r'.players.Keys == r.players.Keys && s'.players.Keys == s.players.Keys
    requires r'.specs == r.specs && s'.specs == s.specs && r'.status == r.status && s'.status == s.status
    requires forall id :: id in r'.players ==> r'.players[id].body == s'.players[id].body
    requires multiset(r'.finishedOrder) == multiset(s'.finishedOrder)
    ensures Alike(r', s')
  {
  }

  /** The same cars finish in it, each once. */
  lemma FinishersAlike(cfg: Config, r: RaceState, visits: seq<Visit>, s: RaceState, others: seq<Visit>, tick: int)
    requires ConfigOk(cfg) && Alike(r, s)
    requires Ids(visits) == r.players.Keys && Distinct(visits) && forall v :: v in visits ==> v.id in r.players
    requires Ids(others) == s.players.Keys && Distinct(others) && forall v :: v in others ==> v.id in s.players
    requires forall id :: id in r.players ==>
               Advance(cfg, r, visits, tick).players[id].body == Advance(cfg, s, others, tick).players[id].body
    ensures multiset(Advance(cfg, r, visits, tick).finishedOrder) ==
            multiset(Advance(cfg, s, others, tick).finishedOrder)
  {
    hide Advance, Alike, Distinct;
    AlikeCars(r, s);
    AlikeOrders(r, s);
    AppendedOnce(cfg, r, visits, tick);
    AppendedOnce(cfg, s, others, tick);
    var a, b := Advance(cfg, r, visits, tick).finishedOrder, Advance(cfg, s, others, tick).finishedOrder;
    var more, most := a[|r.finishedOrder|..], b[|s.finishedOrder|..];
    forall id | id in r.players
      ensures id in more <==> id in most
    {
      TickLists(cfg, r, visits, tick, id);
      TickLists(cfg, s, others, tick, id);
    }
    SameAppended(r.finishedOrder, a, s.finishedOrder, b, r.players.Keys);
  }

  lemma AlikeOrders(r: RaceState, s: RaceState)
    requires Alike(r, s)
    ensures multiset(r.finishedOrder) == multiset(s.finishedOrder)
  {
  }

  /** Lists that agree up to order, and to which the same elements are appended, each once. */
  lemma SameAppended(past: seq<Uuid>, a: seq<Uuid>, past': seq<Uuid>, b: seq<Uuid>, ids: set<Uuid>)
    requires past <= a && past' <= b && multiset(past) == multiset(past')
    requires NoDup(a[|past|..]) && NoDup(b[|past'|..])
    requires Elements(a[|past|..]) <= ids && Elements(b[|past'|..]) <= ids
    requires forall id :: id in ids ==> (id in a[|past|..] <==> id in b[|past'|..])
    ensures multiset(a) == multiset(b)
  {
    var more, most := a[|past|..], b[|past'|..];
    forall id
      ensures id in Elements(more) <==> id in Elements(most)
    {
      assert id in Elements(more) ==> id in ids;
      assert id in Elements(most) ==> id in ids;
    }
    assert Elements(more) == Elements(most);
    SameElements(more, most);
    assert a == past + more && b == past' + most;
  }

  lemma SectionAlike(cfg: Config, r: RaceState, a: Op, s: RaceState, b: Op)
    requires ConfigOk(cfg) && Alike(r, s) && a.Section? && Paired(a, b) && InPhase(r, a, s, b)
    requires OpOk(cfg, r, a) && OpOk(cfg, s, b)
    ensures Alike(Do(cfg, r, a), Do(cfg, s, b))
  {
    StartedAlike(r, a, s, b);
    DrainedAlike(Started(r, a.startStamp, a.sinceStamp, a.tick), Started(s, b.startStamp, b.sinceStamp, b.tick),
                 a.msgs);
    ReadyFrame(r, a);
    ReadyFrame(s, b);
    if Ready(r, a).status == InProgress {
      AdvancedAlike(cfg, Ready(r, a), a.visits, Ready(s, b), b.visits, a.tick);
    }
  }

  lemma AddAlike(cfg: Config, r: RaceState, a: Op, s: RaceState, b: Op)
    requires Alike(r, s) && a.Add? && Paired(a, b)
    ensures Alike(AddPlayer(cfg, r, a.id, a.spec, a.stampA, a.stampB),
                  AddPlayer(cfg, s, b.id, b.spec, b.stampA, b.stampB))
  {
    assert |r.players.Keys| == |s.players.Keys|;
  }

  /** Paired operations keep states alike. */
  lemma DoAlike(cfg: Config, r: RaceState, a: Op, s: RaceState, b: Op)
    requires ConfigOk(cfg) && Alike(r, s) && Paired(a, b) && InPhase(r, a, s, b)
    requires OpOk(cfg, r, a) && OpOk(cfg, s, b)
    ensures Alike(Do(cfg, r, a), Do(cfg, s, b))
  {
    match a
    case Add(_, _, _, _) => AddAlike(cfg, r, a, s, b);
    case Section(_, _, _, _, _) => SectionAlike(cfg, r, a, s, b);
    case Remove(_) =>
    case Note(_) =>
    case Finish(_) =>
  }

  lemma SameLength(r: RaceState, s: RaceState)
    requires Alike(r, s)
    ensures |r.finishedOrder| == |s.finishedOrder|
  {
    assert |multiset(r.finishedOrder)| == |multiset(s.finishedOrder)|;
  }

  lemma {:induction false} TwinsEndAlike(cfg: Config, clock: int, ops: seq<Op>, clock': int, ops': seq<Op>)
    requires AreTwins(cfg, clock, ops, clock', ops')
    ensures Alike(End(cfg, clock, ops), End(cfg, clock', ops'))
  {
    if ops != [] {
      var n := |ops| - 1;
      TwinsEndAlike(cfg, clock, ops[..n], clock', ops'[..n]);
      DoAlike(cfg, End(cfg, clock, ops[..n]), ops[n], End(cfg, clock', ops'[..n]), ops'[n]);
    }
  }

  /** The finishing order only grows at its end. */
  lemma OrderGrows(cfg: Config, r: RaceState, op: Op)
    requires ConfigOk(cfg) && OpOk(cfg, r, op)
    ensures r.finishedOrder <= Do(cfg, r, op).finishedOrder
  {
    if op.Section? {
      ReadyFrame(r, op);
      if Ready(r, op).status == InProgress {
        AppendedOnce(cfg, Ready(r, op), op.visits, op.tick);
      }
    }
  }

  /**
   * Order independence over whole runs: whatever the visiting orders and clock readings, twin runs have at
   * every moment the same players, specs, status and bodies, and the same finishers; and since both orders
   * only grow, the places of two cars can differ only if they finished in the same tick.
   */
  lemma {:induction false} OrderAffectsOnlyTimes(cfg: Config, clock: int, ops: seq<Op>, clock': int, ops': seq<Op>,
                                                 n: nat)
    requires AreTwins(cfg, clock, ops, clock', ops') && n <= |ops|
    ensures Run(cfg, clock, ops[..n]) && Run(cfg, clock', ops'[..n])
    ensures var early, late := End(cfg, clock, ops[..n]), End(cfg, clock, ops);
            var early', late' := End(cfg, clock', ops'[..n]), End(cfg, clock', ops');
            && Alike(early, early') && Alike(late, late')
            && early.finishedOrder <= late.finishedOrder && early'.finishedOrder <= late'.finishedOrder
            && |early.finishedOrder| == |early'.finishedOrder|
  {
    TwinsEndAlike(cfg, clock, ops, clock', ops');
    SameLength(End(cfg, clock, ops), End(cfg, clock', ops'));
    if n == |ops| {
      assert ops[..n] == ops && ops'[..n] == ops';
    } else {
      var m := |ops| - 1;
      assert ops[..m][..n] == ops[..n] && ops'[..m][..n] == ops'[..n];
      OrderAffectsOnlyTimes(cfg, clock, ops[..m], clock', ops'[..m], n);
      OrderGrows(cfg, End(cfg, clock, ops[..m]), ops[m]);
      OrderGrows(cfg, End(cfg, clock', ops'[..m]), ops'[m]);
    }
  }
}
