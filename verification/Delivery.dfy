/** Which sessions and which inputs a run of the server leaves: exactly those that its answered joins say. */
module Delivery {
  import opened Base
  import opened Physics
  import opened RaceModel
  import opened Tokens
  import opened Assignments
  import opened Admission

  // ----- one join -----

  /** The player of a request and the race that it was answered with. */
  function Answered(c: Crypto, secret: string, w: World, step: Step): Option<(Uuid, RaceId)> {
    if !step.JoinStep? || step.req.playerId.None? then None
    else
      match HandleJoin(c, secret, w, step.req, step.from, step.s).1
      case Joined(race) => Some((step.req.playerId.value, race))
      case _ => None
  }

  /** The race that a join of this match would be given. */
  function RaceOf(f: Fleet, matchId: Uuid, s: Surroundings): RaceId {
    if matchId in f.byMatch then f.byMatch[matchId] else s.newId
  }

  /** There is a place: a race of the match is on file or can be made, is not finished, and is not full. */
  predicate HasPlace(f: Fleet, matchId: Uuid, s: Surroundings) {
    if matchId in f.byMatch then
      var race := f.byMatch[matchId];
      race in f.races && race in f.heap && f.heap[race].state.status != Finished &&
      |f.heap[race].state.players| < f.heap[race].cfg.maxPlayers
    else s.track.Some? && s.track.value.maxPlayers > 0
  }

  /** The answer to a join, condition by condition. */
  lemma JoinAnswers(c: Crypto, secret: string, w: World, req: JoinRequest, from: Addr, s: Surroundings)
    requires FleetOk(w.fleet) && StepOk(w, JoinStep(req, from, s))
    ensures var reply := HandleJoin(c, secret, w, req, from, s).1;
            && (reply == BadMatchId <==> req.matchId.None?)
            && (reply == BadPlayerId <==> req.matchId.Some? && req.playerId.None?)
            && (reply == MissingToken <==> req.matchId.Some? && req.playerId.Some? && req.token == "")
            && (req.matchId.Some? && req.playerId.Some? && req.token != "" ==>
                  var k := Key(req.matchId.value, req.playerId.value, req.token);
                  match Consume(c, secret, w.ledger.rows, k, s.row, s.now, s.glitch).1
                  case Rejected(error) => reply == TokenRefused(error)
                  case Accepted =>
                    if HasPlace(w.fleet, k.matchId, s) then reply == Joined(RaceOf(w.fleet, k.matchId, s))
                    else if k.matchId !in w.fleet.byMatch && s.track.None? then reply == NoPlace(LookupFailed)
                    else if k.matchId in w.fleet.byMatch && w.fleet.byMatch[k.matchId] !in w.fleet.races
                    then reply == NoPlace(NilRace)
                    else reply == NoPlace(NotAdded))
  {
    hide Consume, AddPlayer;
  }

  /** What a join does to the races: nothing, unless it is answered with a race or makes one. */
  lemma JoinMoves(c: Crypto, secret: string, w: World, req: JoinRequest, from: Addr, s: Surroundings)
    requires FleetOk(w.fleet) && StepOk(w, JoinStep(req, from, s))
    ensures var (w', reply) := HandleJoin(c, secret, w, req, from, s);
            && w'.sent == w.sent
            && (reply.Joined? ==> WellFormed(req))
            && (reply.Joined? ==>
                  var race, f, f' := reply.race, w.fleet, w'.fleet;
                  var cfg := if race in f.heap then f.heap[race].cfg else s.track.value;
                  var before := if race in f.heap then f.heap[race].state else NewRace(s.now);
                  && f'.heap == f.heap[race := Made(req.matchId.value, cfg, f'.heap[race].state)]
                  && f'.races == f.races + {race} && f'.byMatch == f.byMatch[req.matchId.value := race]
                  && f'.heap[race].state ==
                     AddPlayer(cfg, before, req.playerId.value, CarSpec(12.0, 1.5, 30.0), s.a, s.b))
            && (!reply.Joined? && !reply.NoPlace? ==> w'.fleet == w.fleet && w'.sessions == w.sessions)
            && (reply.NoPlace? ==>
                  && w'.sessions == w.sessions
                  && (w'.fleet == w.fleet ||
                      (reply.why == NotAdded && WellFormed(req) && req.matchId.value !in w.fleet.byMatch)))
  {
    hide Consume;
  }

  // ----- the sessions of a run -----

  /** Who joined at the last step of these. */
  function JoinedNow(c: Crypto, secret: string, steps: seq<Step>): Option<(Uuid, RaceId)>
    requires steps != []
  {
    var n := |steps| - 1;
    match Run(c, secret, steps[..n])
    case Some(w) => Answered(c, secret, w, steps[n])
    case None => None
  }

  /** The player of the first answered join from an address. */
  function OwnerOf(c: Crypto, secret: string, steps: seq<Step>, from: Addr): Option<Uuid> {
    if steps == [] then None
    else
      var n := |steps| - 1;
      var joined := JoinedNow(c, secret, steps);
      if OwnerOf(c, secret, steps[..n], from).Some? then OwnerOf(c, secret, steps[..n], from)
      else if joined.Some? && steps[n].from == from then Some(joined.value.0) else None
  }

  /** The address of a player's latest answered join from an address that nobody had. */
  function AddressOf(c: Crypto, secret: string, steps: seq<Step>, p: Uuid): Option<Addr> {
    if steps == [] then None
    else
      var n := |steps| - 1;
      var joined := JoinedNow(c, secret, steps);
      if joined.Some? && joined.value.0 == p && OwnerOf(c, secret, steps[..n], steps[n].from).None?
      then Some(steps[n].from) else AddressOf(c, secret, steps[..n], p)
  }

  /** The race of a player's latest answered join. */
  function RaceJoined(c: Crypto, secret: string, steps: seq<Step>, p: Uuid): Option<RaceId> {
    if steps == [] then None
    else
      var joined := JoinedNow(c, secret, steps);
      if joined.Some? && joined.value.0 == p then Some(joined.value.1)
      else RaceJoined(c, secret, steps[..|steps| - 1], p)
  }

  /** The registry says of every address and every player what the joins say. */
  ghost predicate SessionsAre(c: Crypto, secret: string, steps: seq<Step>, r: Registry) {
    && (forall from :: from in r.addr <==> OwnerOf(c, secret, steps, from).Some?)
    && (forall from :: from in r.addr ==> OwnerOf(c, secret, steps, from) == Some(r.addr[from]))
    && (forall p :: p in r.player <==> AddressOf(c, secret, steps, p).Some?)
    && (forall p :: p in r.player ==>
          AddressOf(c, secret, steps, p) == Some(r.player[p].key) &&
          RaceJoined(c, secret, steps, p) == r.player[p].race && r.player[p].race.Some?)
  }

  /** The three, one step later. */
  lemma OneMoreStep(c: Crypto, secret: string, steps: seq<Step>, w: World, step: Step)
    requires Run(c, secret, steps) == Some(w)
    ensures var joined := Answered(c, secret, w, step);
            && (forall from :: OwnerOf(c, secret, steps + [step], from) ==
                  if OwnerOf(c, secret, steps, from).None? && joined.Some? && step.from == from
                  then Some(joined.value.0) else OwnerOf(c, secret, steps, from))
            && (forall p :: AddressOf(c, secret, steps + [step], p) ==
                  if joined.Some? && joined.value.0 == p && OwnerOf(c, secret, steps, step.from).None?
                  then Some(step.from) else AddressOf(c, secret, steps, p))
            && (forall p :: RaceJoined(c, secret, steps + [step], p) ==
                  if joined.Some? && joined.value.0 == p then Some(joined.value.1) else RaceJoined(c, secret, steps, p))
  {
    hide Answered, Run;
    assert (steps + [step])[..|steps|] == steps;
  }

  /** A step changes the sessions exactly by its answered join: a free address is bound, a known player is placed. */
  lemma SessionsMove(c: Crypto, secret: string, w: World, step: Step)
    ensures var joined := Answered(c, secret, w, step); var r := w.sessions;
            Next(c, secret, w, step).sessions ==
            if joined.Some? then Placed(Bound(r, step.from, joined.value.0), joined.value.0, joined.value.1) else r
  {
    hide Placed, Bound, Consume, RegisterPlayer, CleanedUp;
  }

  lemma SessionsStep(c: Crypto, secret: string, steps: seq<Step>, w: World, step: Step)
    requires Run(c, secret, steps) == Some(w) && SessionsAre(c, secret, steps, w.sessions)
    ensures SessionsAre(c, secret, steps + [step], Next(c, secret, w, step).sessions)
  {
    hide Answered, Run, Next, OwnerOf, AddressOf, RaceJoined;
    OneMoreStep(c, secret, steps, w, step);
    SessionsMove(c, secret, w, step);
  }

  /**
   * Over every run: an address is bound exactly to the player of its first answered join; a player is known
   * exactly if some answered join of it came from a free address, and then its entry holds the latest such
   * address and the race of its latest answered join.
   */
  lemma {:induction false} SessionsAreJoins(c: Crypto, secret: string, steps: seq<Step>)
    requires Run(c, secret, steps).Some?
    ensures SessionsAre(c, secret, steps, Run(c, secret, steps).value.sessions)
    decreases |steps|
  {
    hide SessionsAre;
    if steps == [] {
      NoSessions(c, secret);
    } else {
      var n := |steps| - 1;
      SessionsAreJoins(c, secret, steps[..n]);
      assert steps == steps[..n] + [steps[n]];
      SessionsStep(c, secret, steps[..n], Run(c, secret, steps[..n]).value, steps[n]);
    }
  }

  lemma NoSessions(c: Crypto, secret: string)
    ensures SessionsAre(c, secret, [], Registry(map[], map[]))
  {
  }

  // ----- the inputs of a run -----

  /** The race that an input from this address is meant for: the latest that the owner of the address joined. */
  function Destination(c: Crypto, secret: string, steps: seq<Step>, from: Addr): Option<(Uuid, RaceId)> {
    var p := OwnerOf(c, secret, steps, from);
    if p.None? || RaceJoined(c, secret, steps, p.value).None? then None
    else Some((p.value, RaceJoined(c, secret, steps, p.value).value))
  }

  ghost predicate Over(w: World, race: RaceId) {
    race in w.fleet.heap && w.fleet.heap[race].state.status == Finished
  }

  /** What a run should have passed on: each input from an owned address, unless the owner's race was finished then. */
  ghost function Due(c: Crypto, secret: string, steps: seq<Step>): seq<(RaceId, InputMsg)> {
    if steps == [] then []
    else
      var n := |steps| - 1;
      var before := Due(c, secret, steps[..n]);
      match steps[n]
      case InputStep(from, input, sequence) =>
        var w, to := Run(c, secret, steps[..n]), Destination(c, secret, steps[..n], from);
        if w.Some? && to.Some? && !Over(w.value, to.value.1)
        then before + [(to.value.1, InputMsg(to.value.0, input, sequence))] else before
      case _ => before
  }

  /** Whoever owns an address has a race. */
  lemma OwnersHaveRaces(c: Crypto, secret: string, steps: seq<Step>, from: Addr)
    requires Run(c, secret, steps).Some?
    ensures var w, p := Run(c, secret, steps).value, OwnerOf(c, secret, steps, from);
            && (p.Some? <==> from in w.sessions.addr)
            && (p.Some? ==>
                  && w.sessions.addr[from] == p.value && p.value in w.sessions.player
                  && w.sessions.player[p.value].race == RaceJoined(c, secret, steps, p.value)
                  && RaceJoined(c, secret, steps, p.value).Some?
                  && RaceJoined(c, secret, steps, p.value).value in w.fleet.heap)
  {
    hide OwnerOf, AddressOf, RaceJoined, Run;
    RunKeeps(c, secret, steps);
    SessionsAreJoins(c, secret, steps);
  }

  /**
   * Over every run, an input from an address whose owner's latest answered join was answered with a race that
   * is not finished is passed on to that race in the owner's name, just as it came, whether the race waits,
   * counts down or is on; any other input changes nothing.
   */
  lemma InputsArePassedOn(c: Crypto, secret: string, steps: seq<Step>, from: Addr, input: Input, sequence: nat)
    requires Run(c, secret, steps).Some?
    ensures var w, w' := Run(c, secret, steps).value, Run(c, secret, steps + [InputStep(from, input, sequence)]);
            var p := OwnerOf(c, secret, steps, from);
            var race := if p.Some? then RaceJoined(c, secret, steps, p.value) else None;
            && (p.Some? ==> race.Some? && race.value in w.fleet.heap)
            && (if p.Some? && w.fleet.heap[race.value].state.status != Finished
                then w' == Some(w.(sent := w.sent + [(race.value, InputMsg(p.value, input, sequence))]))
                else w' == Some(w))
  {
    hide OwnerOf, RaceJoined;
    OwnersHaveRaces(c, secret, steps, from);
    OneStep(c, secret, steps, Run(c, secret, steps).value, InputStep(from, input, sequence));
  }

  lemma OthersSendNothing(c: Crypto, secret: string, w: World, step: Step)
    requires !step.InputStep?
    ensures Next(c, secret, w, step).sent == w.sent
  {
    hide Placed, Bound, Consume, RegisterPlayer, CleanedUp;
  }

  /** Over every run, exactly the inputs that were due have been passed on, in the order in which they came. */
  lemma {:induction false} ExactlyTheDue(c: Crypto, secret: string, steps: seq<Step>)
    requires Run(c, secret, steps).Some?
    ensures Run(c, secret, steps).value.sent == Due(c, secret, steps)
    decreases |steps|
  {
    hide OwnerOf, RaceJoined, HandleJoin, HandleInput;
    if steps != [] {
      var n := |steps| - 1;
      ExactlyTheDue(c, secret, steps[..n]);
      assert steps == steps[..n] + [steps[n]];
      match steps[n]
      case InputStep(from, input, sequence) => InputsArePassedOn(c, secret, steps[..n], from, input, sequence);
      case _ => OthersSendNothing(c, secret, Run(c, secret, steps[..n]).value, steps[n]);
    }
  }
}
