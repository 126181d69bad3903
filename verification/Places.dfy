/** Who gets a place in a race, and where the cars are put. */
module Places {
  import opened Base
  import opened Physics
  import opened RaceModel
  import opened Laps

  /**
   * In every run, adding a player that is not there takes a place exactly when the race is not finished and
   * has fewer than MaxPlayers players: then there is one player more, at rest on its grid place, with its spec
   * and the two clock readings; otherwise nothing changes.
   */
  lemma PlaceIsGiven(cfg: Config, clock: int, ops: seq<Op>, id: Uuid, spec: CarSpec, a: int, b: int)
    requires Run(cfg, clock, ops) && Run(cfg, clock, ops + [Add(id, spec, a, b)])
    ensures var r, r' := End(cfg, clock, ops), End(cfg, clock, ops + [Add(id, spec, a, b)]);
            if r.status != Finished && |r.players| < cfg.maxPlayers && id !in r.players then
              && |r'.players| == |r.players| + 1 && r'.players.Keys == r.players.Keys + {id}
              && (forall i :: i in r.players ==> r'.players[i] == r.players[i])
              && r'.specs == r.specs[id := spec] && r'.finishedOrder == r.finishedOrder
              && var c := r'.players[id];
                 && c.body.motion == Motion(GridPlace(cfg.spawns, |r.players|), 0.0, 0.0)
                 && c.times.startedAt == a && c.times.lapStartedAt == b && c.times.bestLapMs == 0
                 && c.body.lap == 0 && !c.body.finished && c.body.lastCheckpoint == 0
                 && c.body.nextCheckpoint == (if |cfg.waypoints| <= 1 then 0 else 1)
                 && c.body.lastInput == Input(0.0, 0.0, 0.0) && c.body.lastInputTick == 0
            else r'.players == r.players && r'.specs == r.specs && r'.finishedOrder == r.finishedOrder
  {
    assert (ops + [Add(id, spec, a, b)])[..|ops|] == ops;
    var r, r' := End(cfg, clock, ops), End(cfg, clock, ops + [Add(id, spec, a, b)]);
    if r.status != Finished && |r.players| < cfg.maxPlayers && id !in r.players {
      GridIsSpawn(cfg, |r.players|);
      assert r'.players.Keys == r.players.Keys + {id};
      assert |r'.players.Keys| == |r.players.Keys| + 1;
    }
  }

  /** Removing a player takes that player and its spec away, and nothing else. */
  lemma PlaceIsFreed(cfg: Config, clock: int, ops: seq<Op>, id: Uuid)
    requires Run(cfg, clock, ops) && Run(cfg, clock, ops + [Remove(id)])
    ensures var r, r' := End(cfg, clock, ops), End(cfg, clock, ops + [Remove(id)]);
            && |r'.players| == |r.players| - (if id in r.players then 1 else 0)
            && (forall i :: i in r'.players <==> i in r.players && i != id)
            && (forall i :: i in r'.players ==> r'.players[i] == r.players[i])
            && (forall i :: i in r'.specs <==> i in r.specs && i != id)
            && (forall i :: i in r'.specs ==> r'.specs[i] == r.specs[i])
            && r'.(players := r.players, specs := r.specs) == r
  {
    assert (ops + [Remove(id)])[..|ops|] == ops;
    var r, r' := End(cfg, clock, ops), End(cfg, clock, ops + [Remove(id)]);
    assert r'.players.Keys == r.players.Keys - {id};
    assert |r'.players.Keys| == |r.players.Keys| - if id in r.players then 1 else 0;
  }

  /** The k-th place of the grid: the spawns in turn, or a line along the x axis if there are none. */
  function GridPlace(spawns: seq<Vec3>, k: nat): Vec3 {
    if spawns == [] then Vec3(2.0 * k as real, 0.0, 0.0)
    else if k < |spawns| then spawns[k] else GridPlace(spawns, k - |spawns|)
  }

  lemma {:induction false} GridIsSpawn(cfg: Config, k: nat)
    ensures Spawn(cfg, k) == GridPlace(cfg.spawns, k)
  {
    var n := |cfg.spawns|;
    if n > 0 && k >= n {
      GridIsSpawn(cfg, k - n);
      var q, m := (k - n) / n, (k - n) % n;
      assert k - n == q * n + m;
      assert (q + 1) * n == q * n + n;
      Quotient(k, n, q + 1, m);
    } else if n > 0 {
      Quotient(k, n, 0, k);
    }
  }

  /** One addition seen from the grid. */
  lemma OneMoreOnTheGrid(cfg: Config, r: RaceState, id: Uuid, spec: CarSpec, a: int, b: int)
    requires r.status != Finished && |r.players| < cfg.maxPlayers && id !in r.players
    ensures var r' := AddPlayer(cfg, r, id, spec, a, b);
            && r'.status == r.status && |r'.players| == |r.players| + 1 && r'.players.Keys == r.players.Keys + {id}
            && r'.players[id].body.motion.position == GridPlace(cfg.spawns, |r.players|)
            && forall i :: i in r.players ==> r'.players[i] == r.players[i]
  {
    GridIsSpawn(cfg, |r.players|);
    var r' := AddPlayer(cfg, r, id, spec, a, b);
    assert r'.players.Keys == r.players.Keys + {id};
    assert |r'.players.Keys| == |r.players.Keys| + 1;
  }

  /** One player after the other is added, at any clock readings. */
  function AddAll(cfg: Config, r: RaceState, ids: seq<Uuid>, spec: CarSpec, stamps: seq<(int, int)>): RaceState
    requires |stamps| == |ids|
  {
    if ids == [] then r
    else
      var n := |ids| - 1;
      AddPlayer(cfg, AddAll(cfg, r, ids[..n], spec, stamps[..n]), ids[n], spec, stamps[n].0, stamps[n].1)
  }

  /** Exactly these players are there, each where the grid puts it. */
  ghost predicate OnGrid(cfg: Config, r: RaceState, ids: seq<Uuid>) {
    && |r.players| == |ids| && r.players.Keys == Elements(ids)
    && forall i :: 0 <= i < |ids| ==>
         ids[i] in r.players && r.players[ids[i]].body.motion.position == GridPlace(cfg.spawns, i)
  }

  lemma GridGrows(cfg: Config, r: RaceState, ids: seq<Uuid>, id: Uuid, spec: CarSpec, a: int, b: int)
    requires r.status != Finished && |ids| < cfg.maxPlayers && id !in ids && OnGrid(cfg, r, ids)
    ensures var r' := AddPlayer(cfg, r, id, spec, a, b); OnGrid(cfg, r', ids + [id]) && r'.status == r.status
  {
    hide AddPlayer, GridPlace;
    OneMoreOnTheGrid(cfg, r, id, spec, a, b);
  }

  /** From an empty race that is not finished, the first MaxPlayers players all get in, on the grid in order. */
  lemma {:induction false} FirstOnTheGrid(cfg: Config, r: RaceState, ids: seq<Uuid>, spec: CarSpec,
                                          stamps: seq<(int, int)>)
    requires r.players == map[] && r.status != Finished && NoDup(ids) && |ids| <= cfg.maxPlayers
    requires |stamps| == |ids|
    ensures var r' := AddAll(cfg, r, ids, spec, stamps); OnGrid(cfg, r', ids) && r'.status == r.status
  {
    hide AddPlayer, GridPlace;
    if ids != [] {
      hide OnGrid;
      var n := |ids| - 1;
      FirstOnTheGrid(cfg, r, ids[..n], spec, stamps[..n]);
      assert ids == ids[..n] + [ids[n]];
      GridGrows(cfg, AddAll(cfg, r, ids[..n], spec, stamps[..n]), ids[..n], ids[n], spec, stamps[n].0, stamps[n].1);
    }
  }
}
