/**
 * From a token to an input in a race: internal/networking/dispatcher.go and Manager.RegisterPlayer.
 * The read loop handles one datagram at a time; races run beside it.
 */
module Admission {
  import opened Base
  import opened Physics
  import opened RaceModel
  import opened Tokens
  import opened Assignments

  type RaceId = Uuid
  type Addr = string

  // ----- sessions -----

  datatype Entry = Entry(key: Addr, race: Option<RaceId>)

  datatype Registry = Registry(addr: map<Addr, Uuid>, player: map<Uuid, Entry>)

  function Bound(r: Registry, key: Addr, p: Uuid): Registry {
    if key in r.addr then r
    else
      var entry := if p in r.player then r.player[p].(key := key) else Entry(key, None);
      Registry(r.addr[key := p], r.player[p := entry])
  }

  function Placed(r: Registry, p: Uuid, race: RaceId): Registry {
    if p in r.player then r.(player := r.player[p := r.player[p].(race := Some(race))]) else r
  }

  /** Each player's current address leads back to that player, and every bound address to a known player. */
  ghost predicate RegistryOk(r: Registry) {
    && (forall p :: p in r.player ==> r.player[p].key in r.addr && r.addr[r.player[p].key] == p)
    && (forall k :: k in r.addr ==> r.addr[k] in r.player)
  }

  class SessionRegistry {
    var addr: map<Addr, Uuid>
    var player: map<Uuid, Entry>

    ghost function View(): Registry
      reads this
    {
      Registry(addr, player)
    }

    constructor ()
      ensures View() == Registry(map[], map[])
    {
      addr, player := map[], map[];
    }

    method BindAddr(key: Addr, playerId: Uuid) returns (ok: bool)
      modifies this
      ensures View() == Bound(old(View()), key, playerId)
      ensures ok <==> key !in old(addr)
      ensures !ok ==> addr == old(addr) && player == old(player)
      ensures ok ==> addr == old(addr)[key := playerId] && player - {playerId} == old(player) - {playerId}
      ensures ok ==> playerId in player && player[playerId].key == key
      ensures ok ==> player[playerId].race == if playerId in old(player) then old(player)[playerId].race else None
    {
      if key in addr {
        return false;
      }
      addr := addr[key := playerId];
      if playerId !in player {
        player := player[playerId := Entry(key, None)];
      } else {
        var e := player[playerId];
        player := player[playerId := e.(key := key)];
      }
      ok := true;
    }

    method SetRace(playerId: Uuid, race: RaceId)
      modifies this
      ensures View() == Placed(old(View()), playerId, race)
      ensures addr == old(addr) && player.Keys == old(player).Keys
      ensures player - {playerId} == old(player) - {playerId}
      ensures playerId in player ==> player[playerId] == Entry(old(player)[playerId].key, Some(race))
    {
      if playerId !in player {
        return;
      }
      var e := player[playerId];
      player := player[playerId := e.(race := Some(race))];
    }

    /** On a consistent registry a known player's current address finds that player. */
    method PlayerFromAddr(key: Addr) returns (p: Option<Uuid>)
      ensures p.Some? <==> key in addr
      ensures p.Some? ==> addr[key] == p.value
      ensures RegistryOk(View()) ==>
                && (p.Some? ==> p.value in player)
                && (forall q :: q in player && player[q].key == key ==> p == Some(q))
    {
      p := if key in addr then Some(addr[key]) else None;
    }

    method RaceFromPlayer(playerId: Uuid) returns (race: Option<RaceId>)
      ensures race == if playerId in player then player[playerId].race else None
    {
      if playerId !in player {
        return None;
      }
      race := player[playerId].race;
    }

    /** The players registered in a race, in whatever order the map gives them, with their addresses. */
    method RacePlayers(race: RaceId) returns (views: seq<(Uuid, Addr)>)
      ensures forall p, k :: (p, k) in views <==> p in player && player[p] == Entry(k, Some(race))
      ensures forall i, j :: 0 <= i < j < |views| ==> views[i].0 != views[j].0
    {
      views := [];
      var todo := player.Keys;
      while todo != {}
        invariant todo <= player.Keys
        invariant forall p, k :: (p, k) in views <==> p in player.Keys - todo && player[p] == Entry(k, Some(race))
        invariant forall i, j :: 0 <= i < j < |views| ==> views[i].0 != views[j].0
        decreases todo
      {
        var p :| p in todo;
        if player[p].race == Some(race) {
          forall i | 0 <= i < |views|
            ensures views[i].0 != p
          {
            assert (views[i].0, views[i].1) in views;
          }
          views := views + [(p, player[p].key)];
        }
        todo := todo - {p};
      }
    }
  }

  // ----- races by match -----

  /** A race object, the match it was made for, and its settings. */
  datatype Made = Made(matchId: Uuid, cfg: Config, state: RaceState)

  /** heap: every race object there is; races and byMatch: the manager's two maps, objects named by id. */
  datatype Fleet = Fleet(heap: map<RaceId, Made>, races: set<RaceId>, byMatch: map<Uuid, RaceId>)

  datatype Registration = Registered(race: RaceId) | LookupFailed | NotAdded | NilRace

  /** The race of a match: the one on file, or a new one; a race on file that was cleaned up is nil. */
  function RaceFor(f: Fleet, matchId: Uuid, newId: RaceId, track: Option<Config>, now: int): (Fleet, Registration) {
    if matchId in f.byMatch then
      (f, if f.byMatch[matchId] in f.races then Registered(f.byMatch[matchId]) else NilRace)
    else if track.None? then (f, LookupFailed)
    else
      (Fleet(f.heap[newId := Made(matchId, track.value, NewRace(now))], f.races + {newId}, f.byMatch[matchId := newId]),
       Registered(newId))
  }

  function RegisterPlayer(f: Fleet, matchId: Uuid, p: Uuid, newId: RaceId, track: Option<Config>,
                          now: int, a: int, b: int): (Fleet, Registration)
  {
    var (g, found) := RaceFor(f, matchId, newId, track, now);
    if !found.Registered? || found.race !in g.heap then (g, found)
    else
      var made := g.heap[found.race];
      (g.(heap := g.heap[found.race := made.(state := AddPlayer(made.cfg, made.state, p, DEFAULT_SPEC, a, b))]),
       if Accepts(made.cfg, made.state) then found else NotAdded)
  }

  function CleanedUp(f: Fleet): Fleet {
    f.(races := set id | id in f.races && !(id in f.heap && f.heap[id].state.status == Finished))
  }

  ghost predicate FleetOk(f: Fleet) {
    && f.races <= f.heap.Keys
    && (forall m :: m in f.byMatch ==> f.byMatch[m] in f.heap && f.heap[f.byMatch[m]].matchId == m)
  }

  class Manager {
    var heap: map<RaceId, Made>
    var races: set<RaceId>
    var byMatch: map<Uuid, RaceId>

    ghost function View(): Fleet
      reads this
    {
      Fleet(heap, races, byMatch)
    }

    constructor ()
      ensures View() == Fleet(map[], {}, map[])
    {
      heap, races, byMatch := map[], {}, map[];
    }

    /** ByMatch, and NewRace when there is no race yet. */
    method FindOrCreate(matchId: Uuid, newId: RaceId, track: Option<Config>, now: int) returns (found: Registration)
      modifies this
      ensures (View(), found) == RaceFor(old(View()), matchId, newId, track, now)
    {
      if matchId in byMatch {
        var id := byMatch[matchId];
        return if id in races then Registered(id) else NilRace;
      }
      if track.None? {
        return LookupFailed;
      }
      heap := heap[newId := Made(matchId, track.value, NewRace(now))];
      races := races + {newId};
      byMatch := byMatch[matchId := newId];
      found := Registered(newId);
    }

    method Register(matchId: Uuid, p: Uuid, newId: RaceId, track: Option<Config>, now: int, a: int, b: int)
      returns (reply: Registration)
      modifies this
      ensures (View(), reply) == RegisterPlayer(old(View()), matchId, p, newId, track, now, a, b)
    {
      var found := FindOrCreate(matchId, newId, track, now);
      if !found.Registered? || found.race !in heap {
        return found;
      }
      var made := heap[found.race];
      var added := Accepts(made.cfg, made.state);
      heap := heap[found.race := made.(state := AddPlayer(made.cfg, made.state, p, DEFAULT_SPEC, a, b))];
      reply := if added then found else NotAdded;
    }

    /** Every finished race goes, every other race stays, and so do all matches. */
    method CleanupFinished()
      modifies this`races
      ensures forall id :: id in races <==> id in old(races) && !(id in heap && heap[id].state.status == Finished)
      ensures View() == CleanedUp(old(View()))
    {
      var todo := races;
      while todo != {}
        invariant todo <= old(races)
        invariant forall id :: id in races <==>
                    id in old(races) && (id in todo || !(id in heap && heap[id].state.status == Finished))
        decreases todo
      {
        var id :| id in todo;
        if id in heap && heap[id].state.status == Finished {
          races := races - {id};
        }
        todo := todo - {id};
      }
      assert races == CleanedUp(old(View())).races;
    }
  }

  /**
   * RegisterPlayer meets a nil race exactly when the match is on file and its race is not: that is, on a
   * consistent fleet, exactly when the race of the match was cleaned up.
   */
  lemma NilRaceExact(f: Fleet, matchId: Uuid, p: Uuid, newId: RaceId, track: Option<Config>, now: int, a: int, b: int)
    requires FleetOk(f)
    ensures RegisterPlayer(f, matchId, p, newId, track, now, a, b).1 == NilRace <==>
            matchId in f.byMatch && f.byMatch[matchId] !in f.races
  {
  }

  /** After a cleanup every match whose race was finished is in that case. */
  lemma CleanupLeavesNil(f: Fleet, matchId: Uuid, p: Uuid, newId: RaceId, track: Option<Config>,
                         now: int, a: int, b: int)
    requires FleetOk(f) && matchId in f.byMatch
    ensures FleetOk(CleanedUp(f))
    ensures RegisterPlayer(CleanedUp(f), matchId, p, newId, track, now, a, b).1 == NilRace <==>
            f.heap[f.byMatch[matchId]].state.status == Finished || f.byMatch[matchId] !in f.races
  {
  }

  // ----- the dispatcher -----

  /** None for a match_id or player_id that does not parse. */
  datatype JoinRequest = JoinRequest(matchId: Option<Uuid>, playerId: Option<Uuid>, token: string)

  datatype JoinReply = Joined(race: RaceId) | BadMatchId | BadPlayerId | MissingToken
                     | TokenRefused(error: TokenError) | NoPlace(why: Registration)

  /** What the surroundings contribute to one join: the scanned row, clock readings, a new id, the track. */
  datatype Surroundings = Surroundings(row: Option<Row>, now: int, glitch: Glitch, newId: RaceId,
                                       track: Option<Config>, a: int, b: int)

  /** The server as the read loop sees it; sent: the inputs passed to ApplyInput so far, with their race. */
  datatype World = World(ledger: Ledger, fleet: Fleet, sessions: Registry, sent: seq<(RaceId, InputMsg)>)

  function HandleJoin(c: Crypto, secret: string, w: World, req: JoinRequest, from: Addr, s: Surroundings)
    : (World, JoinReply)
  {
    if req.matchId.None? then (w, BadMatchId)
    else if req.playerId.None? then (w, BadPlayerId)
    else if req.token == "" then (w, MissingToken)
    else
      var k := Key(req.matchId.value, req.playerId.value, req.token);
      var ledger := Serve(c, secret, w.ledger, Use(k, s.row, s.now, s.glitch));
      var outcome := Consume(c, secret, w.ledger.rows, k, s.row, s.now, s.glitch).1;
      if outcome.Rejected? then (w.(ledger := ledger), TokenRefused(outcome.error))
      else
        var (fleet, reply) := RegisterPlayer(w.fleet, k.matchId, k.playerId, s.newId, s.track, s.now, s.a, s.b);
        if !reply.Registered? then (w.(ledger := ledger, fleet := fleet), NoPlace(reply))
        else
          (w.(ledger := ledger, fleet := fleet,
              sessions := Placed(Bound(w.sessions, from, k.playerId), k.playerId, reply.race)),
           Joined(reply.race))
  }

  function HandleInput(w: World, from: Addr, input: Input, sequence: nat): World {
    if from !in w.sessions.addr then w
    else
      var p := w.sessions.addr[from];
      if p !in w.sessions.player || w.sessions.player[p].race.None? then w
      else
        var race := w.sessions.player[p].race.value;
        if race in w.fleet.heap && w.fleet.heap[race].state.status == Finished then w
        else w.(sent := w.sent + [(race, InputMsg(p, input, sequence))])
  }

  class Dispatcher {
    const repo: Repo
    const races: Manager
    const sessions: SessionRegistry
    // for the proofs only
    ghost var accepted: seq<Key>
    ghost var sent: seq<(RaceId, InputMsg)>

    ghost function View(): World
      reads this, repo, races, sessions
    {
      World(Ledger(repo.rows, accepted), races.View(), sessions.View(), sent)
    }

    constructor (repo: Repo, races: Manager, sessions: SessionRegistry)
      ensures this.repo == repo && this.races == races && this.sessions == sessions
      ensures View() == World(Ledger(repo.rows, []), races.View(), sessions.View(), [])
    {
      this.repo, this.races, this.sessions := repo, races, sessions;
      accepted, sent := [], [];
    }

    method OnJoin(req: JoinRequest, from: Addr, now: int, glitch: Glitch, newId: RaceId,
                  track: Option<Config>, a: int, b: int) returns (reply: JoinReply, ghost row: Option<Row>)
      modifies this, repo, races, sessions
      ensures WellFormed(req) ==> Scans(old(repo.rows), KeyOf(req), row)
      ensures (View(), reply) == HandleJoin(repo.crypto, repo.tokenSecret, old(View()), req, from,
                                            Surroundings(row, now, glitch, newId, track, a, b))
    {
      row := None;
      if req.matchId.None? {
        return BadMatchId, row;
      }
      if req.playerId.None? {
        return BadPlayerId, row;
      }
      var k := Key(req.matchId.value, req.playerId.value, req.token);
      if req.token == "" {
        return MissingToken, row;
      }
      var outcome;
      outcome, row := repo.VerifyAndConsume(k, now, glitch);
      if outcome.Rejected? {
        return TokenRefused(outcome.error), row;
      }
      accepted := accepted + [k];
      var found := races.Register(k.matchId, k.playerId, newId, track, now, a, b);
      if !found.Registered? {
        return NoPlace(found), row;
      }
      var bound := sessions.BindAddr(from, k.playerId);
      sessions.SetRace(k.playerId, found.race);
      reply := Joined(found.race);
    }

    method OnInput(from: Addr, input: Input, sequence: nat)
      modifies this
      ensures View() == HandleInput(old(View()), from, input, sequence)
    {
      var p := sessions.PlayerFromAddr(from);
      if p.None? {
        return;
      }
      var race := sessions.RaceFromPlayer(p.value);
      if race.None? {
        return;
      }
      if race.value in races.heap && races.heap[race.value].state.status == Finished {
        return;
      }
      sent := sent + [(race.value, InputMsg(p.value, input, sequence))];
    }
  }

  // ----- whole runs of the server -----

  /** IssueStep: a token row created, or marked, by the HTTP side; RaceStep: a race does anything to itself. */
  datatype Step =
    | JoinStep(req: JoinRequest, from: Addr, s: Surroundings)
    | InputStep(from: Addr, input: Input, sequence: nat)
    | IssueStep(call: Call)
    | RaceStep(id: RaceId, state: RaceState)
    | CleanupStep

  predicate WellFormed(req: JoinRequest) {
    req.matchId.Some? && req.playerId.Some? && req.token != ""
  }

  function KeyOf(req: JoinRequest): Key
    requires WellFormed(req)
  {
    Key(req.matchId.value, req.playerId.value, req.token)
  }

  /** The database scans a row that is there, a new race gets an unused id, only existing races move. */
  predicate StepOk(w: World, step: Step) {
    match step
    case JoinStep(req, from, s) =>
      (WellFormed(req) ==> Scans(w.ledger.rows, KeyOf(req), s.row)) && s.newId !in w.fleet.heap
    case InputStep(from, input, sequence) => true
    case IssueStep(call) => !call.Use?
    case RaceStep(id, state) => id in w.fleet.heap
    case CleanupStep => true
  }

  function Next(c: Crypto, secret: string, w: World, step: Step): World {
    match step
    case JoinStep(req, from, s) => HandleJoin(c, secret, w, req, from, s).0
    case InputStep(from, input, sequence) => HandleInput(w, from, input, sequence)
    case IssueStep(call) => w.(ledger := Serve(c, secret, w.ledger, call))
    case RaceStep(id, state) =>
      if id in w.fleet.heap
      then w.(fleet := w.fleet.(heap := w.fleet.heap[id := w.fleet.heap[id].(state := state)]))
      else w
    case CleanupStep => w.(fleet := CleanedUp(w.fleet))
  }

  const BOOT: World := World(Ledger([], []), Fleet(map[], {}, map[]), Registry(map[], map[]), [])

  function Run(c: Crypto, secret: string, steps: seq<Step>): Option<World> {
    if steps == [] then Some(BOOT)
    else
      var before := Run(c, secret, steps[..|steps| - 1]);
      var step := steps[|steps| - 1];
      if before.Some? && StepOk(before.value, step) then Some(Next(c, secret, before.value, step)) else None
  }

  // ----- the registry -----

  /** Every address bound before is bound after, to the same player. */
  ghost predicate KeepsOwners(r: Registry, r': Registry) {
    forall key :: key in r.addr ==> key in r'.addr && r'.addr[key] == r.addr[key]
  }

  /** One join keeps the registry consistent; an address keeps its owner; only the joining player's race moves. */
  lemma BindingKeeps(r: Registry, key: Addr, p: Uuid, race: RaceId)
    requires RegistryOk(r)
    ensures var r' := Placed(Bound(r, key, p), p, race);
            && RegistryOk(r')
            && KeepsOwners(r, r')
            && (forall q :: q in r.player ==> q in r'.player)
            && (forall q :: q in r'.player && r'.player[q].race.Some? ==>
                  (q == p && r'.player[q].race == Some(race)) ||
                  (q != p && q in r.player && r.player[q] == r'.player[q]))
  {
  }

  /** On a consistent registry two players never share a current address. */
  lemma AddressesDiffer(r: Registry, p: Uuid, q: Uuid)
    requires RegistryOk(r) && p in r.player && q in r.player
    ensures r.player[p].key == r.player[q].key <==> p == q
  {
  }

  lemma StepKeepsOwners(c: Crypto, secret: string, w: World, step: Step)
    ensures KeepsOwners(w.sessions, Next(c, secret, w, step).sessions)
  {
  }

  /** An address never changes owner and is never forgotten. */
  lemma {:induction false} OwnersStay(c: Crypto, secret: string, steps: seq<Step>, n: nat)
    requires n <= |steps| && Run(c, secret, steps).Some?
    ensures Run(c, secret, steps[..n]).Some?
    ensures KeepsOwners(Run(c, secret, steps[..n]).value.sessions, Run(c, secret, steps).value.sessions)
    decreases |steps|
  {
    if n == |steps| {
      assert steps[..n] == steps;
    } else {
      var m := |steps| - 1;
      assert steps[..m][..n] == steps[..n];
      OwnersStay(c, secret, steps[..m], n);
      StepKeepsOwners(c, secret, Run(c, secret, steps[..m]).value, steps[m]);
    }
  }

  // ----- from a token to an input -----

  /** The i-th step of the run was a join of p that was answered with the race. */
  predicate JoinedAt(c: Crypto, secret: string, steps: seq<Step>, i: nat, race: RaceId, p: Uuid)
    requires i < |steps|
  {
    var w := Run(c, secret, steps[..i]);
    var step := steps[i];
    && w.Some? && step.JoinStep? && step.req.playerId == Some(p) && StepOk(w.value, step)
    && HandleJoin(c, secret, w.value, step.req, step.from, step.s).1 == Joined(race)
  }

  /** The request's token was accepted, for the match that the race is of. */
  predicate Backed(w: World, req: JoinRequest, race: RaceId) {
    && WellFormed(req) && KeyOf(req) in w.ledger.accepted
    && race in w.fleet.heap && w.fleet.heap[race].matchId == req.matchId.value
  }

  /** Some step of the run was a join of p, with an accepted token for the race's match, answered with the race. */
  ghost predicate Admitted(c: Crypto, secret: string, steps: seq<Step>, w: World, race: RaceId, p: Uuid) {
    exists i :: 0 <= i < |steps| && JoinedAt(c, secret, steps, i, race, p) && Backed(w, steps[i].req, race)
  }

  /**
   * What a join that succeeds amounts to: a row of exactly this match, player and token was there, not
   * consumed, not expired, its token signed by this server; no such row is left unconsumed; and the player
   * is now among the players of the race, which is the one race on file for that match.
   */
  lemma JoinMeans(c: Crypto, secret: string, w: World, req: JoinRequest, from: Addr, s: Surroundings)
    requires FleetOk(w.fleet) && StepOk(w, JoinStep(req, from, s))
    requires HandleJoin(c, secret, w, req, from, s).1.Joined?
    ensures WellFormed(req)
    ensures var (w', reply) := HandleJoin(c, secret, w, req, from, s);
            var k := KeyOf(req);
            && s.row.Some? && s.row.value in w.ledger.rows && Hits(s.row.value, k)
            && !s.row.value.consumed && s.now <= s.row.value.expiresAt && VerifyHMAC(c, secret, req.token)
            && AllConsumed(w'.ledger.rows, k) && w'.ledger.accepted == w.ledger.accepted + [k]
            && k.matchId in w'.fleet.byMatch && w'.fleet.byMatch[k.matchId] == reply.race
            && reply.race in w'.fleet.heap && w'.fleet.heap[reply.race].matchId == k.matchId
            && k.playerId in w'.fleet.heap[reply.race].state.players
  {
  }

  /** What holds at every moment of a run. */
  ghost predicate WorldOk(c: Crypto, secret: string, steps: seq<Step>, w: World) {
    && RegistryOk(w.sessions)
    && FleetOk(w.fleet)
    && (forall p :: p in w.sessions.player && w.sessions.player[p].race.Some? ==>
          Admitted(c, secret, steps, w, w.sessions.player[p].race.value, p))
    && (forall i :: 0 <= i < |w.sent| ==> Admitted(c, secret, steps, w, w.sent[i].0, w.sent[i].1.id))
  }

  /** Every race keeps its match, and every match its race. */
  ghost predicate FleetGrows(f: Fleet, f': Fleet) {
    && FleetOk(f')
    && (forall id :: id in f.heap ==> id in f'.heap && f'.heap[id].matchId == f.heap[id].matchId)
    && (forall m :: m in f.byMatch ==> m in f'.byMatch && f'.byMatch[m] == f.byMatch[m])
  }

  lemma RegisteringKeeps(f: Fleet, matchId: Uuid, p: Uuid, newId: RaceId, track: Option<Config>,
                         now: int, a: int, b: int)
    requires FleetOk(f) && newId !in f.heap
    ensures FleetGrows(f, RegisterPlayer(f, matchId, p, newId, track, now, a, b).0)
  {
    assert FleetGrows(f, RaceFor(f, matchId, newId, track, now).0);
  }

  lemma FleetKept(c: Crypto, secret: string, w: World, step: Step)
    requires FleetOk(w.fleet) && StepOk(w, step)
    ensures FleetGrows(w.fleet, Next(c, secret, w, step).fleet)
  {
    if step.JoinStep? && WellFormed(step.req) {
      var k, s := KeyOf(step.req), step.s;
      RegisteringKeeps(w.fleet, k.matchId, k.playerId, s.newId, s.track, s.now, s.a, s.b);
    }
  }

  /** Who was admitted stays so: races keep their match, and no acceptance is taken back. */
  lemma AdmittedLater(c: Crypto, secret: string, steps: seq<Step>, w: World, step: Step, race: RaceId, p: Uuid)
    requires FleetOk(w.fleet) && StepOk(w, step) && Admitted(c, secret, steps, w, race, p)
    ensures Admitted(c, secret, steps + [step], Next(c, secret, w, step), race, p)
  {
    var i :| 0 <= i < |steps| && JoinedAt(c, secret, steps, i, race, p) && Backed(w, steps[i].req, race);
    assert (steps + [step])[..i] == steps[..i];
    assert JoinedAt(c, secret, steps + [step], i, race, p);
    BackedLater(c, secret, w, step, steps[i].req, race);
    assert (steps + [step])[i] == steps[i];
  }

  lemma BackedLater(c: Crypto, secret: string, w: World, step: Step, req: JoinRequest, race: RaceId)
    requires FleetOk(w.fleet) && StepOk(w, step) && Backed(w, req, race)
    ensures Backed(Next(c, secret, w, step), req, race)
  {
    FleetKept(c, secret, w, step);
    assert w.ledger.accepted <= Next(c, secret, w, step).ledger.accepted;
  }

  /** A join touches the sessions only if it succeeds, and sends nothing on. */
  lemma JoinBinds(c: Crypto, secret: string, w: World, step: Step)
    requires step.JoinStep?
    ensures var (w', reply) := (Next(c, secret, w, step), HandleJoin(c, secret, w, step.req, step.from, step.s).1);
            && w'.sent == w.sent
            && (reply.Joined? ==>
                  && step.req.playerId.Some?
                  && var p := step.req.playerId.value;
                     w'.sessions == Placed(Bound(w.sessions, step.from, p), p, reply.race))
            && (!reply.Joined? ==> w'.sessions == w.sessions)
  {
  }

  /** A step, seen from those who had joined before. */
  lemma JoinedStay(c: Crypto, secret: string, steps: seq<Step>, w: World, step: Step)
    requires FleetOk(w.fleet) && StepOk(w, step)
    ensures forall race, p :: Admitted(c, secret, steps, w, race, p) ==>
              Admitted(c, secret, steps + [step], Next(c, secret, w, step), race, p)
  {
    forall race, p | Admitted(c, secret, steps, w, race, p)
      ensures Admitted(c, secret, steps + [step], Next(c, secret, w, step), race, p)
    {
      AdmittedLater(c, secret, steps, w, step, race, p);
    }
  }

  /** The step that joined is the join that the player is admitted by. */
  lemma JoinAdmits(c: Crypto, secret: string, steps: seq<Step>, w: World, step: Step)
    requires Run(c, secret, steps) == Some(w) && FleetOk(w.fleet) && StepOk(w, step) && step.JoinStep?
    requires HandleJoin(c, secret, w, step.req, step.from, step.s).1.Joined?
    ensures var race := HandleJoin(c, secret, w, step.req, step.from, step.s).1.race;
            step.req.playerId.Some? &&
            Admitted(c, secret, steps + [step], Next(c, secret, w, step), race, step.req.playerId.value)
  {
    var now, w' := steps + [step], Next(c, secret, w, step);
    var race := HandleJoin(c, secret, w, step.req, step.from, step.s).1.race;
    JoinMeans(c, secret, w, step.req, step.from, step.s);
    assert now[..|steps|] == steps && now[|steps|] == step;
    assert JoinedAt(c, secret, now, |steps|, race, step.req.playerId.value);
    assert w'.ledger.accepted[|w.ledger.accepted|] == KeyOf(step.req);
    assert Backed(w', now[|steps|].req, race);
  }

  lemma JoinKeeps(c: Crypto, secret: string, steps: seq<Step>, w: World, step: Step)
    requires Run(c, secret, steps) == Some(w) && WorldOk(c, secret, steps, w) && StepOk(w, step) && step.JoinStep?
    ensures WorldOk(c, secret, steps + [step], Next(c, secret, w, step))
  {
    hide Admitted, Run, FleetOk, HandleJoin, Next, Placed, Bound;
    FleetKept(c, secret, w, step);
    JoinedStay(c, secret, steps, w, step);
    JoinBinds(c, secret, w, step);
    var reply := HandleJoin(c, secret, w, step.req, step.from, step.s).1;
    if reply.Joined? {
      JoinAdmits(c, secret, steps, w, step);
      BindingKeeps(w.sessions, step.from, step.req.playerId.value, reply.race);
    }
  }

  /** Every step of a run keeps it. */
  lemma StepKeeps(c: Crypto, secret: string, steps: seq<Step>, w: World, step: Step)
    requires Run(c, secret, steps) == Some(w) && WorldOk(c, secret, steps, w) && StepOk(w, step)
    ensures WorldOk(c, secret, steps + [step], Next(c, secret, w, step))
  {
    hide Admitted, Run;
    if step.JoinStep? {
      JoinKeeps(c, secret, steps, w, step);
    } else {
      FleetKept(c, secret, w, step);
      JoinedStay(c, secret, steps, w, step);
    }
  }

  lemma {:induction false} RunKeeps(c: Crypto, secret: string, steps: seq<Step>)
    requires Run(c, secret, steps).Some?
    ensures WorldOk(c, secret, steps, Run(c, secret, steps).value)
    decreases |steps|
  {
    if steps != [] {
      var n := |steps| - 1;
      RunKeeps(c, secret, steps[..n]);
      assert steps == steps[..n] + [steps[n]];
      StepKeeps(c, secret, steps[..n], Run(c, secret, steps[..n]).value, steps[n]);
    }
  }

  /**
   * The admission chain, over every run: each input passed to a race names a player who had joined with a
   * token for that race's match, which was accepted, and whom the run had answered with that race.
   */
  lemma AdmissionChain(c: Crypto, secret: string, steps: seq<Step>, i: nat)
    requires Run(c, secret, steps).Some? && i < |Run(c, secret, steps).value.sent|
    ensures var w := Run(c, secret, steps).value;
            var (race, msg) := w.sent[i];
            exists j :: 0 <= j < |steps| && JoinedAt(c, secret, steps, j, race, msg.id) && Backed(w, steps[j].req, race)
  {
    RunKeeps(c, secret, steps);
    var w := Run(c, secret, steps).value;
    assert Admitted(c, secret, steps, w, w.sent[i].0, w.sent[i].1.id);
  }

  /** Seen from one datagram: it is passed on only for the owner of its address, who had joined that race before. */
  lemma InputFollowsItsJoin(c: Crypto, secret: string, steps: seq<Step>, from: Addr, input: Input, sequence: nat)
    requires Run(c, secret, steps).Some?
    ensures var w := Run(c, secret, steps).value;
            var w' := HandleInput(w, from, input, sequence);
            w'.sent != w.sent ==>
              exists race ::
                && from in w.sessions.addr
                && w'.sent == w.sent + [(race, InputMsg(w.sessions.addr[from], input, sequence))]
                && Admitted(c, secret, steps, w, race, w.sessions.addr[from])
                && race in w.fleet.heap && w.fleet.heap[race].state.status != Finished
  {
    RunKeeps(c, secret, steps);
    var w := Run(c, secret, steps).value;
    if HandleInput(w, from, input, sequence).sent != w.sent {
      var race := w.sessions.player[w.sessions.addr[from]].race.value;
      assert Admitted(c, secret, steps, w, race, w.sessions.addr[from]);
    }
  }

  // ----- joins and token rows -----

  function CallsOfStep(step: Step): seq<Call> {
    match step
    case JoinStep(req, from, s) => if WellFormed(req) then [Use(KeyOf(req), s.row, s.now, s.glitch)] else []
    case IssueStep(call) => [call]
    case _ => []
  }

  /** The calls that a run makes to the token table. */
  function CallsOf(steps: seq<Step>): seq<Call> {
    if steps == [] then [] else CallsOf(steps[..|steps| - 1]) + CallsOfStep(steps[|steps| - 1])
  }

  predicate Admits(c: Crypto, secret: string, w: World, step: Step, k: Key) {
    step.JoinStep? && WellFormed(step.req) && KeyOf(step.req) == k &&
    HandleJoin(c, secret, w, step.req, step.from, step.s).1.Joined?
  }

  /** How many joins with this key were answered with a race. */
  function Joins(c: Crypto, secret: string, steps: seq<Step>, k: Key): nat
    requires Run(c, secret, steps).Some?
  {
    if steps == [] then 0
    else
      var n := |steps| - 1;
      var w := Run(c, secret, steps[..n]).value;
      Joins(c, secret, steps[..n], k) + if Admits(c, secret, w, steps[n], k) then 1 else 0
  }

  /** A join is one use of the token table, if it names a key, and is answered with a race only if that was accepted. */
  lemma JoinUses(c: Crypto, secret: string, w: World, req: JoinRequest, from: Addr, s: Surroundings)
    ensures var (w', reply) := HandleJoin(c, secret, w, req, from, s);
            if WellFormed(req) then
              && w'.ledger == Serve(c, secret, w.ledger, Use(KeyOf(req), s.row, s.now, s.glitch))
              && (reply.Joined? ==> w'.ledger.accepted == w.ledger.accepted + [KeyOf(req)])
            else w' == w && !reply.Joined?
  {
    hide RegisterPlayer, Consume, Placed, Bound;
  }

  lemma StepServes(c: Crypto, secret: string, w: World, step: Step, calls: seq<Call>, k: Key)
    requires StepOk(w, step) && ServeAll(c, secret, calls) == Some(w.ledger)
    ensures var ledger := Next(c, secret, w, step).ledger;
            && ServeAll(c, secret, calls + CallsOfStep(step)) == Some(ledger)
            && (ledger.accepted == w.ledger.accepted || exists u :: ledger.accepted == w.ledger.accepted + [u])
            && (Admits(c, secret, w, step, k) ==> ledger.accepted == w.ledger.accepted + [k])
  {
    hide HandleJoin, HandleInput, CleanedUp, Consume;
    var more := calls + CallsOfStep(step);
    if step.JoinStep? {
      JoinUses(c, secret, w, step.req, step.from, step.s);
    }
    if |CallsOfStep(step)| == 1 {
      assert more[..|more| - 1] == calls;
    } else {
      assert more == calls;
      InputsServeNothing(w, step);
    }
  }

  lemma InputsServeNothing(w: World, step: Step)
    ensures step.InputStep? ==> HandleInput(w, step.from, step.input, step.sequence).ledger == w.ledger
  {
  }

  lemma {:induction false} JoinsAreAccepted(c: Crypto, secret: string, steps: seq<Step>, k: Key)
    requires Run(c, secret, steps).Some?
    ensures ServeAll(c, secret, CallsOf(steps)) == Some(Run(c, secret, steps).value.ledger)
    ensures Joins(c, secret, steps, k) <= Acceptances(Run(c, secret, steps).value.ledger.accepted, k)
    decreases |steps|
  {
    if steps != [] {
      var n := |steps| - 1;
      JoinsAreAccepted(c, secret, steps[..n], k);
      var w := Run(c, secret, steps[..n]).value;
      StepServes(c, secret, w, steps[n], CallsOf(steps[..n]), k);
      var accepted := Next(c, secret, w, steps[n]).ledger.accepted;
      assert accepted != w.ledger.accepted ==> accepted[..|w.ledger.accepted|] == w.ledger.accepted;
    }
  }

  /** A token lets its player into a race at most as often as rows were created for it, over every run of the server. */
  lemma TokensLimitJoins(c: Crypto, secret: string, steps: seq<Step>, k: Key)
    requires Run(c, secret, steps).Some?
    ensures Joins(c, secret, steps, k) <= RowsOf(Run(c, secret, steps).value.ledger.rows, k)
  {
    JoinsAreAccepted(c, secret, steps, k);
    SingleUse(c, secret, CallsOf(steps), k);
  }

  // ----- matches whose race is gone -----

  /** The i-th step of the run was a cleanup that found the match's race finished. */
  predicate DroppedAt(c: Crypto, secret: string, steps: seq<Step>, i: nat, matchId: Uuid)
    requires i < |steps|
  {
    var w := Run(c, secret, steps[..i]);
    && w.Some? && steps[i].CleanupStep?
    && var f := w.value.fleet;
       matchId in f.byMatch && f.byMatch[matchId] in f.heap && f.heap[f.byMatch[matchId]].state.status == Finished
  }

  ghost predicate Dropped(c: Crypto, secret: string, steps: seq<Step>, matchId: Uuid) {
    exists i :: 0 <= i < |steps| && DroppedAt(c, secret, steps, i, matchId)
  }

  lemma DroppedNext(c: Crypto, secret: string, steps: seq<Step>, step: Step, matchId: Uuid)
    ensures Dropped(c, secret, steps + [step], matchId) <==>
            Dropped(c, secret, steps, matchId) || DroppedAt(c, secret, steps + [step], |steps|, matchId)
  {
    var now := steps + [step];
    forall i: nat | i < |steps|
      ensures DroppedAt(c, secret, now, i, matchId) == DroppedAt(c, secret, steps, i, matchId)
    {
      assert now[..i] == steps[..i];
    }
    if Dropped(c, secret, steps, matchId) {
      var i :| 0 <= i < |steps| && DroppedAt(c, secret, steps, i, matchId);
      assert DroppedAt(c, secret, now, i, matchId);
    }
  }

  /** On file, but its race is not. */
  predicate Gone(f: Fleet, matchId: Uuid) {
    matchId in f.byMatch && f.byMatch[matchId] !in f.races
  }

  /** One step makes a match's race go exactly if it is a cleanup that finds it finished. */
  lemma GoesWithCleanup(c: Crypto, secret: string, w: World, step: Step, matchId: Uuid)
    requires FleetOk(w.fleet) && StepOk(w, step)
    ensures var f := w.fleet;
            Gone(Next(c, secret, w, step).fleet, matchId) <==>
            || Gone(f, matchId)
            || (step.CleanupStep? && matchId in f.byMatch && f.heap[f.byMatch[matchId]].state.status == Finished)
  {
    if step.JoinStep? && WellFormed(step.req) {
      var k, s := KeyOf(step.req), step.s;
      RegisteringGone(w.fleet, k.matchId, k.playerId, s.newId, s.track, s.now, s.a, s.b, matchId);
    }
  }

  lemma RegisteringGone(f: Fleet, matchId: Uuid, p: Uuid, newId: RaceId, track: Option<Config>,
                        now: int, a: int, b: int, other: Uuid)
    requires FleetOk(f) && newId !in f.heap
    ensures Gone(RegisterPlayer(f, matchId, p, newId, track, now, a, b).0, other) <==> Gone(f, other)
  {
  }

  lemma {:induction false} GoneIsDropped(c: Crypto, secret: string, steps: seq<Step>, matchId: Uuid)
    requires Run(c, secret, steps).Some?
    ensures Gone(Run(c, secret, steps).value.fleet, matchId) <==> Dropped(c, secret, steps, matchId)
    decreases |steps|
  {
    if steps != [] {
      var n := |steps| - 1;
      GoneIsDropped(c, secret, steps[..n], matchId);
      RunKeeps(c, secret, steps[..n]);
      assert steps == steps[..n] + [steps[n]];
      DroppedNext(c, secret, steps[..n], steps[n], matchId);
      GoesWithCleanup(c, secret, Run(c, secret, steps[..n]).value, steps[n], matchId);
    }
  }

  /**
   * Over every run: a join meets a nil race if and only if its token is accepted and some earlier cleanup
   * found the race of its match finished.
   */
  lemma NilRaceOverRuns(c: Crypto, secret: string, steps: seq<Step>, req: JoinRequest, from: Addr, s: Surroundings)
    requires Run(c, secret, steps).Some? && StepOk(Run(c, secret, steps).value, JoinStep(req, from, s))
    ensures var w := Run(c, secret, steps).value;
            HandleJoin(c, secret, w, req, from, s).1 == NoPlace(NilRace) <==>
            && WellFormed(req)
            && Consume(c, secret, w.ledger.rows, KeyOf(req), s.row, s.now, s.glitch).1 == Accepted
            && Dropped(c, secret, steps, req.matchId.value)
  {
    RunKeeps(c, secret, steps);
    if WellFormed(req) {
      var k := KeyOf(req);
      GoneIsDropped(c, secret, steps, k.matchId);
      NilRaceExact(Run(c, secret, steps).value.fleet, k.matchId, k.playerId, s.newId, s.track, s.now, s.a, s.b);
    }
  }

  /** A token that verifies: an empty payload and its signature. */
  function Bare(c: Crypto, secret: string): string {
    "." + Signature(c, secret, "")
  }

  function JoinOf(c: Crypto, secret: string, p: Uuid, newId: RaceId, cfg: Config): Step {
    var token := Bare(c, secret);
    JoinStep(JoinRequest(Some(1), Some(p), token), "here",
             Surroundings(Some(Row(1, p, token, 10, false)), 0, Smooth, newId, Some(cfg), 0, 0))
  }

  function IssueOf(c: Crypto, secret: string, p: Uuid): Step {
    IssueStep(Create(Key(1, p, Bare(c, secret)), 10))
  }

  /** Player 2 joins match 1 in race 5, the race finishes, and the manager cleans up. */
  function CleanedRun(c: Crypto, secret: string, cfg: Config): seq<Step> {
    var joined := AddPlayer(cfg, NewRace(0), 2, DEFAULT_SPEC, 0, 0);
    [IssueOf(c, secret, 2)] + [JoinOf(c, secret, 2, 5, cfg)] + [RaceStep(5, Close(joined, 0))] + [CleanupStep]
    + [IssueOf(c, secret, 3)]
  }

  lemma OneStep(c: Crypto, secret: string, steps: seq<Step>, w: World, step: Step)
    requires Run(c, secret, steps) == Some(w) && StepOk(w, step)
    ensures Run(c, secret, steps + [step]) == Some(Next(c, secret, w, step))
  {
    assert (steps + [step])[..|steps|] == steps;
  }

  lemma BareVerifies(c: Crypto, secret: string)
    ensures VerifyHMAC(c, secret, Bare(c, secret))
  {
    HmacExact(c, secret, Bare(c, secret));
    assert Bare(c, secret) == "" + "." + Signature(c, secret, "");
  }

  /** The first two steps, and what they leave. */
  lemma FirstJoin(c: Crypto, secret: string, cfg: Config) returns (w: World)
    requires cfg.maxPlayers > 0
    ensures Run(c, secret, [IssueOf(c, secret, 2)] + [JoinOf(c, secret, 2, 5, cfg)]) == Some(w)
    ensures var joined := AddPlayer(cfg, NewRace(0), 2, DEFAULT_SPEC, 0, 0);
            w.fleet == Fleet(map[5 := Made(1, cfg, joined)], {5}, map[1 := 5])
    ensures w.ledger.rows == [Row(1, 2, Bare(c, secret), 10, true)]
  {
    hide VerifyHMAC, Signature, AddPlayer;
    BareVerifies(c, secret);
    var issue, join := IssueOf(c, secret, 2), JoinOf(c, secret, 2, 5, cfg);
    var row := Row(1, 2, Bare(c, secret), 10, false);
    OneStep(c, secret, [], BOOT, issue);
    var issued := Next(c, secret, BOOT, issue);
    assert [] + [issue] == [issue];
    assert issued.ledger.rows == [row] && row in [row];
    OneStep(c, secret, [issue], issued, join);
    w := Next(c, secret, issued, join);
  }

  /** The race of that match finishes, and the cleanup drops it. */
  lemma ThenCleaned(c: Crypto, secret: string, steps: seq<Step>, w: World, state: RaceState) returns (w': World)
    requires Run(c, secret, steps) == Some(w) && 5 in w.fleet.heap && w.fleet.races == {5} && state.status == Finished
    ensures Run(c, secret, steps + [RaceStep(5, state)] + [CleanupStep]) == Some(w')
    ensures w'.fleet.races == {} && w'.fleet.byMatch == w.fleet.byMatch
    ensures w'.fleet.heap.Keys == w.fleet.heap.Keys && w'.ledger == w.ledger
  {
    hide Run;
    var over := Next(c, secret, w, RaceStep(5, state));
    OneStep(c, secret, steps, w, RaceStep(5, state));
    OneStep(c, secret, steps + [RaceStep(5, state)], over, CleanupStep);
    w' := Next(c, secret, over, CleanupStep);
  }

  /** It does happen: player 3's join for the same match, with a good token of its own, meets the nil race. */
  lemma NilRaceHappens(c: Crypto, secret: string, cfg: Config)
    requires cfg.maxPlayers > 0
    ensures var run := Run(c, secret, CleanedRun(c, secret, cfg)); var join := JoinOf(c, secret, 3, 6, cfg);
            && run.Some? && StepOk(run.value, join)
            && HandleJoin(c, secret, run.value, join.req, join.from, join.s).1 == NoPlace(NilRace)
  {
    hide Run, AddPlayer, IssueOf;
    BareVerifies(c, secret);
    var joined := AddPlayer(cfg, NewRace(0), 2, DEFAULT_SPEC, 0, 0);
    var steps := [IssueOf(c, secret, 2)] + [JoinOf(c, secret, 2, 5, cfg)];
    var w := FirstJoin(c, secret, cfg);
    w := ThenCleaned(c, secret, steps, w, Close(joined, 0));
    steps := steps + [RaceStep(5, Close(joined, 0))] + [CleanupStep];
    IssueAndMeet(c, secret, steps, w, cfg);
  }

  lemma IssueAndMeet(c: Crypto, secret: string, steps: seq<Step>, w: World, cfg: Config)
    requires Run(c, secret, steps) == Some(w) && w.fleet.races == {} && w.fleet.byMatch == map[1 := 5]
    requires 6 !in w.fleet.heap && VerifyHMAC(c, secret, Bare(c, secret))
    ensures var run := Run(c, secret, steps + [IssueOf(c, secret, 3)]); var join := JoinOf(c, secret, 3, 6, cfg);
            && run.Some? && StepOk(run.value, join)
            && HandleJoin(c, secret, run.value, join.req, join.from, join.s).1 == NoPlace(NilRace)
  {
    hide Run, VerifyHMAC, Signature;
    var issue := IssueOf(c, secret, 3);
    OneStep(c, secret, steps, w, issue);
    var rows := Next(c, secret, w, issue).ledger.rows;
    assert rows[|w.ledger.rows|] == Row(1, 3, Bare(c, secret), 10, false);
  }
}
