/**
 * Race.Run as the loop it is, over the Race object, proved to be a schedule of the machine of RaceLoop.
 * Between any two of its actions other goroutines may act any number of times; a drain loop that they keep
 * busy for ever is not considered.
 */
module RaceRunner {
  import opened Base
  import opened Physics
  import opened RaceModel
  import opened RaceRuns
  import opened Lifecycle
  import opened RaceLoop
  import opened RaceEngine

  /** What another goroutine does to the race. */
  datatype Message =
    | Dispatched(id: Uuid, spec: CarSpec)
    | JoinSent(join: JoinMsg)
    | LeaveSent(leave: LeaveMsg)
    | InputSent(input: InputMsg)

  /** The race after an action, without asking whether its operation was possible. */
  ghost predicate Effected(cfg: Config, s: Sys, a: Act, r': RaceState)
    requires ConfigOk(cfg)
  {
    match OpOf(s, a)
    case None => r' == s.race
    case Some(Add(id, spec, x, y)) => r' == RaceModel.AddPlayer(cfg, s.race, id, spec, x, y)
    case Some(Remove(id)) => r' == RaceModel.RemovePlayer(s.race, id)
    case Some(Note(ev)) => r' == s.race.(events := s.race.events + [ev])
    case Some(Section(tick, x, y, msgs, visits)) =>
      && (forall v :: v in visits ==> v.id in s.race.players)
      && r' == RaceModel.TickSection(cfg, s.race, tick, x, y, msgs, visits)
    case Some(Finish(t)) => r' == Close(s.race, t)
  }

  /** The actions so far lead to s. */
  ghost predicate Led(cfg: Config, hook: bool, born: int, acts: seq<Act>, s: Sys)
    requires ConfigOk(cfg)
  {
    Play(cfg, hook, born, acts) == Some(s)
  }

  /** The action a was possible in s and leads to t. */
  ghost predicate Did(cfg: Config, hook: bool, s: Sys, a: Act, t: Sys)
    requires ConfigOk(cfg)
  {
    Enabled(s, a) && Effected(cfg, s, a, t.race) && t == Control(hook, s, a, t.race)
  }

  /** One more action of a schedule. */
  lemma OneMoreAct(cfg: Config, hook: bool, born: int, acts: seq<Act>, s: Sys, a: Act, t: Sys)
    requires ConfigOk(cfg) && Led(cfg, hook, born, acts, s) && Did(cfg, hook, s, a, t)
    ensures Led(cfg, hook, born, acts + [a], t)
  {
    assert (acts + [a])[..|acts|] == acts;
    ScheduleKeeps(cfg, hook, born, acts);
    if OpOf(s, a).Some? {
      OpPossible(cfg, s, a);
    }
  }

  /** finishRace always finds the race unfinished. */
  lemma NotYetFinished(cfg: Config, hook: bool, born: int, acts: seq<Act>, s: Sys)
    requires ConfigOk(cfg) && Led(cfg, hook, born, acts, s) && !Over(s.pc)
    ensures s.race.status != Finished && s.closes == 0
  {
    ScheduleKeeps(cfg, hook, born, acts);
  }

  lemma Reached(cfg: Config, hook: bool, born: int, acts: seq<Act>, s: Sys)
    requires ConfigOk(cfg) && Led(cfg, hook, born, acts, s)
    ensures s.race.clock <= s.now
    ensures s.race.status == Starting ==> s.race.startRealTime.Some?
  {
    ScheduleKeeps(cfg, hook, born, acts);
    MachineRunsRace(cfg, hook, born, acts);
    TimelyAfter(cfg, NewRace(born), OpsOf(cfg, hook, born, acts));
  }

  /** The locked section leaves the status that its start checks leave. */
  lemma SectionStatus(cfg: Config, r: RaceState, tick: int, a: int, b: int, msgs: seq<InputMsg>, visits: seq<Visit>)
    requires ConfigOk(cfg) && forall v :: v in visits ==> v.id in r.players
    ensures RaceModel.TickSection(cfg, r, tick, a, b, msgs, visits).status == Started(r, a, b, tick).status
  {
    var s := Started(r, a, b, tick);
    DrainKeeps(s, msgs);
    AdvanceFrame(cfg, RaceModel.DrainInputs(s, msgs), visits, tick);
  }

  // ----- whose actions -----

  predicate ByRun(a: Act) {
    !a.DispatchAdd? && !a.SendJoin? && !a.SendLeave? && !a.SendInput?
  }

  /** The actions of Run among all. */
  function OwnActs(acts: seq<Act>): seq<Act> {
    if acts == [] then []
    else
      var last := acts[|acts| - 1];
      OwnActs(acts[..|acts| - 1]) + if ByRun(last) then [last] else []
  }

  lemma OwnMore(acts: seq<Act>, a: Act)
    ensures OwnActs(acts + [a]) == OwnActs(acts) + if ByRun(a) then [a] else []
  {
    assert (acts + [a])[..|acts|] == acts;
  }

  /** The action that a message of another goroutine is. */
  predicate ActOf(m: Message, a: Act) {
    match m
    case Dispatched(id, spec) => a.DispatchAdd? && a.id == id && a.spec == spec
    case JoinSent(join) => a == SendJoin(join)
    case LeaveSent(leave) => a == SendLeave(leave)
    case InputSent(input) => a == SendInput(input)
  }

  /** Joins taken and noted, n of them. */
  predicate TakesJoins(acts: seq<Act>, n: nat) {
    if n == 0 then acts == []
    else
      var m := |acts| - 2;
      m >= 0 && acts[m].TakeJoin? && acts[m + 1].NoteJoin? && TakesJoins(acts[..m], n - 1)
  }

  /** Leaves taken and noted, n of them. */
  function LeaveActs(n: nat): seq<Act> {
    if n == 0 then [] else LeaveActs(n - 1) + [TakeLeave, NoteLeave]
  }

  lemma OneMoreJoin(acts: seq<Act>, n: nat, a: Act, b: Act)
    requires TakesJoins(acts, n) && a.TakeJoin? && b.NoteJoin?
    ensures TakesJoins(acts + [a, b], n + 1)
  {
    assert (acts + [a, b])[..|acts|] == acts;
  }

  /** finishRace: the race is closed, the hook called, Done closed. */
  predicate Finishes(acts: seq<Act>) {
    |acts| == 3 && acts[0].CloseRace? && acts[1] == Call && acts[2] == CloseDone
  }

  predicate Goes(s: Sys, a: Act, next: Pc) {
    || (a == SeeCancel && (s.pc == Top || s.pc == Wait) && next == Finishing(Cancelled))
    || (a == Begin && s.pc == Top && s.closes == 0 && next == Joins)
    || (a == JoinsEmpty && s.pc == Joins && s.joins == [] && next == Leaves)
    || (a == LeavesEmpty && s.pc == Leaves && s.leaves == [] && next == Pc.Locked)
    || (a == Tick && s.pc == Wait && next == Top)
  }

  /** A join that is received and added is the action TakeJoin, and a leave that is received and removed TakeLeave. */
  lemma JoinDid(cfg: Config, hook: bool, s: Sys, t: Sys, x: int, y: int)
    requires ConfigOk(cfg) && s.pc == Joins && s.joins != [] && s.now <= x <= y
    requires t.race == RaceModel.AddPlayer(cfg, s.race, s.joins[0].id, s.joins[0].spec, x, y)
    requires t == s.(race := t.race, joins := s.joins[1..], now := y, pc := JoinNote(s.joins[0].id))
    ensures Did(cfg, hook, s, TakeJoin(x, y), t)
  {
    hide RaceModel.AddPlayer;
  }

  lemma LeaveDid(cfg: Config, hook: bool, s: Sys, t: Sys)
    requires ConfigOk(cfg) && s.pc == Leaves && s.leaves != []
    requires t.race == RaceModel.RemovePlayer(s.race, s.leaves[0].id)
    requires t == s.(race := t.race, leaves := s.leaves[1..], pc := LeaveNote(s.leaves[0].id, s.leaves[0].reason))
    ensures Did(cfg, hook, s, TakeLeave, t)
  {
    hide RaceModel.RemovePlayer;
  }

  /** The locked section is the action Lock. */
  lemma LockDid(cfg: Config, hook: bool, s: Sys, t: Sys, x: int, y: int, late: seq<InputMsg>, visits: seq<Visit>)
    requires ConfigOk(cfg) && s.pc == Pc.Locked && s.now <= x <= y
    requires forall v :: v in visits ==> v.id in s.race.players
    requires t.race == RaceModel.TickSection(cfg, s.race, s.tickIdx, x, y, s.inputs + late, visits)
    requires t.started == (s.started || (s.race.status != InProgress && t.race.status == InProgress))
    requires t == s.(race := t.race, inputs := [], now := LastReading(y, visits), started := t.started,
                     pc := EmptyCheck)
    requires if t.race.status == InProgress
             then Ids(visits) == s.race.players.Keys && Distinct(visits) && Rising(y, visits)
             else visits == []
    ensures Did(cfg, hook, s, Lock(x, y, late, visits), t)
  {
    hide RaceModel.TickSection, Distinct, Ids;
    SectionStatus(cfg, s.race, s.tickIdx, x, y, s.inputs + late, visits);
  }

  /** The locked section of finishRace is the action CloseRace. */
  lemma CloseDid(cfg: Config, hook: bool, s: Sys, t: Sys, stamp: int, why: Why)
    requires ConfigOk(cfg) && s.pc == Finishing(why) && s.now <= stamp
    requires t == s.(race := Close(s.race, stamp), now := stamp,
                     pc := if s.race.status == Finished then Returned(why) else Calling(why))
    ensures Did(cfg, hook, s, CloseRace(stamp), t)
  {
    hide Close;
  }

  function SendOf(m: Message): Act
    requires !m.Dispatched?
  {
    match m
    case JoinSent(join) => SendJoin(join)
    case LeaveSent(leave) => SendLeave(leave)
    case InputSent(input) => SendInput(input)
  }

  /** One round of the loop: what its two selects see of the context, and inputs that arrive while it drains. */
  datatype Round = Round(stopAtTop: bool, late: seq<InputMsg>, stopAtWait: bool)

  predicate Stops(round: Round) {
    round.stopAtTop || round.stopAtWait
  }

  predicate NoneStops(rounds: seq<Round>, n: nat)
    requires n <= |rounds|
  {
    forall i :: 0 <= i < n ==> !Stops(rounds[i])
  }

  /** How Run may return in a round, having counted that many ticks in it. */
  predicate EndsRound(round: Round, ticks: int, why: Why) {
    if round.stopAtTop then why.Cancelled? && ticks == 0
    else ((why.Reaped? || why.AllDone?) && ticks == 0) || (why.Cancelled? && round.stopAtWait && ticks == 1)
  }

  /** Run returns in the i-th round, after rounds that saw no cancellation. */
  predicate EndsIn(rounds: seq<Round>, i: int, ticks: int, why: Why) {
    0 <= i < |rounds| && NoneStops(rounds, i) && EndsRound(rounds[i], ticks - i, why)
  }

  class Runner {
    const race: Race
    const clock: Clock
    const hook: bool  // OnFinish is set
    // the variables of Run
    var tickIdx: nat
    var started: bool
    var lastEmpty: Option<int>
    // how often OnFinish was called and Done was closed
    var calls: nat
    var closes: nat
    // for the proofs only: where Run stands, the schedule so far, and Run's own part of it
    ghost const born: int
    ghost var pc: Pc
    ghost var checks: seq<Check>
    ghost var acts: seq<Act>
    ghost var own: seq<Act>

    ghost function View(): Sys
      reads this, race, clock
    {
      Sys(race.View(), race.joinMsg, race.leaveMsg, race.inputCh, pc, tickIdx, started, lastEmpty,
          calls, closes, clock.last, checks)
    }

    /** The objects are where the schedule has led. */
    ghost predicate Valid()
      reads this, race, race.players.Values, clock
    {
      race.Valid() && Led(race.cfg, hook, born, acts, View()) && own == OwnActs(acts)
    }

    constructor (race: Race, clock: Clock, hook: bool)
      requires race.Valid() && race.View() == NewRace(clock.last)
      requires race.joinMsg == [] && race.leaveMsg == [] && race.inputCh == []
      ensures Valid() && pc == Top && acts == own == []
      ensures this.race == race && this.clock == clock && this.hook == hook
    {
      this.race, this.clock, this.hook := race, clock, hook;
      tickIdx, started, lastEmpty := 0, false, None;
      calls, closes := 0, 0;
      born, pc, checks, acts, own := clock.last, Top, [], [], [];
    }

    /** What the critical sections may rely on. */
    lemma MayLock()
      requires Valid()
      ensures race.seen <= clock.last && (race.status == Starting ==> race.startRealTime.Some?)
    {
      Reached(race.cfg, hook, born, acts, View());
    }

    /** Files an action that Run just carried out. */
    ghost method File(a: Act, s: Sys)
      requires race.Valid() && own == OwnActs(acts) && ByRun(a)
      requires Led(race.cfg, hook, born, acts, s) && Did(race.cfg, hook, s, a, View())
      modifies this`acts, this`own
      ensures Valid() && acts == old(acts) + [a] && own == old(own) + [a]
    {
      hide Led, Did;
      OneMoreAct(race.cfg, hook, born, acts, s, a, View());
      OwnMore(acts, a);
      acts, own := acts + [a], own + [a];
    }

    // ----- other goroutines -----

    method Deliver(m: Message) returns (ghost a: Act)
      requires Valid()
      modifies this`acts, race, clock
      ensures Valid() && acts == old(acts) + [a] && ActOf(m, a)
      ensures |race.joinMsg| >= |old(race.joinMsg)| && |race.leaveMsg| >= |old(race.leaveMsg)|
      ensures forall p :: p in race.players.Values ==> p in old(race.players.Values) || fresh(p)
    {
      hide Led, Did;
      ghost var s := View();
      if m.Dispatched? {
        MayLock();
        a := AddToRace(m.id, m.spec);
      } else {
        a := SendOf(m);
        SendToRace(m);
      }
      OneMoreAct(race.cfg, hook, born, acts, s, a, View());
      OwnMore(acts, a);
      acts := acts + [a];
    }

    method AddToRace(id: Uuid, spec: CarSpec) returns (ghost a: Act)
      requires race.Valid() && race.seen <= clock.last
      modifies race, clock
      ensures race.Valid() && Did(race.cfg, hook, old(View()), a, View()) && ActOf(Dispatched(id, spec), a)
      ensures race.joinMsg == old(race.joinMsg) && race.leaveMsg == old(race.leaveMsg)
      ensures forall p :: p in race.players.Values ==> p in old(race.players.Values) || fresh(p)
    {
      hide RaceModel.AddPlayer, Race.Valid;
      ghost var s := View();
      var ok;
      ghost var x, y;
      ok, x, y := race.AddPlayer(id, spec, clock);
      a := DispatchAdd(id, spec, x, y);
      assert View() == Control(hook, s, a, race.View());
    }

    method SendToRace(m: Message)
      requires race.Valid() && !m.Dispatched?
      modifies race`joinMsg, race`leaveMsg, race`inputCh
      ensures race.Valid() && Did(race.cfg, hook, old(View()), SendOf(m), View()) && ActOf(m, SendOf(m))
      ensures |race.joinMsg| >= |old(race.joinMsg)| && |race.leaveMsg| >= |old(race.leaveMsg)|
    {
      hide Race.Valid;
      match m
      case JoinSent(join) => race.EnqueueJoin(join);
      case LeaveSent(leave) => race.EnqueueLeave(leave);
      case InputSent(input) => race.ApplyInput(input);
    }

    /** Any number of them. */
    method Others()
      requires Valid()
      modifies this`acts, race, clock
      ensures Valid() && old(acts) <= acts
      ensures |race.joinMsg| >= |old(race.joinMsg)| && |race.leaveMsg| >= |old(race.leaveMsg)|
      ensures forall p :: p in race.players.Values ==> p in old(race.players.Values) || fresh(p)
    {
      hide *;
      var n: nat := *;
      var i := 0;
      while i < n
        invariant Valid() && old(acts) <= acts
        invariant |race.joinMsg| >= |old(race.joinMsg)| && |race.leaveMsg| >= |old(race.leaveMsg)|
        invariant forall p :: p in race.players.Values ==> p in old(race.players.Values) || fresh(p)
      {
        var m: Message := *;
        ghost var a := Deliver(m);
        i := i + 1;
      }
    }

    // ----- the parts of an iteration -----

    /** An action that only moves Run on. */
    ghost method Go(a: Act, next: Pc)
      requires Valid() && Goes(View(), a, next)
      modifies this`acts, this`own, this`pc
      ensures Valid() && pc == next && own == old(own) + [a]
    {
      hide Led, Race.Valid;
      ghost var s := View();
      pc := next;
      File(a, s);
    }

    /** The joins that are there, and those that arrive meanwhile; n of them in all. */
    method TakeJoins() returns (ghost more: seq<Act>, ghost n: nat)
      requires Valid() && pc == Joins
      modifies this`acts, this`own, this`pc, race, clock
      ensures Valid() && pc == Leaves && race.joinMsg == []
      ensures own == old(own) + more + [JoinsEmpty] && TakesJoins(more, n) && n >= |old(race.joinMsg)|
      ensures forall p :: p in race.players.Values ==> p in old(race.players.Values) || fresh(p)
    {
      hide Valid, TakesJoins;
      more, n := [], 0;
      NoJoinYet();
      var interruptions: nat := *;
      while race.joinMsg != []
        invariant Valid() && pc == Joins
        invariant own == old(own) + more && TakesJoins(more, n) && n + |race.joinMsg| >= |old(race.joinMsg)|
        invariant forall p :: p in race.players.Values ==> p in old(race.players.Values) || fresh(p)
        decreases interruptions, |race.joinMsg|
      {
        var busy: bool := *;
        busy := busy && interruptions > 0;
        ghost var a, b := TakeAndNoteJoin(busy);
        OneMoreJoin(more, n, a, b);
        more, n := more + [a, b], n + 1;
        interruptions := if busy then interruptions - 1 else interruptions;
      }
      EndJoins();
    }

    lemma NoJoinYet()
      ensures TakesJoins([], 0)
    {
    }

    ghost method EndJoins()
      requires Valid() && pc == Joins && race.joinMsg == []
      modifies this`acts, this`own, this`pc
      ensures Valid() && pc == Leaves && own == old(own) + [JoinsEmpty]
    {
      Go(JoinsEmpty, Leaves);
    }

    /** busy: others act in between and afterwards. */
    method TakeAndNoteJoin(busy: bool) returns (ghost a: Act, ghost b: Act)
      requires Valid() && pc == Joins && race.joinMsg != []
      modifies this`acts, this`own, this`pc, race, clock
      ensures Valid() && pc == Joins && a.TakeJoin? && b.NoteJoin? && own == old(own) + [a, b]
      ensures |race.joinMsg| >= |old(race.joinMsg)| - 1 && (!busy ==> |race.joinMsg| == |old(race.joinMsg)| - 1)
      ensures forall p :: p in race.players.Values ==> p in old(race.players.Values) || fresh(p)
    {
      hide *;
      var id;
      id, a := TakeOneJoin();
      if busy {
        Others();
      }
      b := NoteOneJoin(id);
      if busy {
        Others();
      }
    }

    method TakeOneJoin() returns (id: Uuid, ghost a: Act)
      requires Valid() && pc == Joins && race.joinMsg != []
      modifies this`acts, this`own, this`pc, race, clock
      ensures Valid() && pc == JoinNote(id) && id == old(race.joinMsg)[0].id && race.joinMsg == old(race.joinMsg)[1..]
      ensures a.TakeJoin? && own == old(own) + [a]
      ensures forall p :: p in race.players.Values ==> p in old(race.players.Values) || fresh(p)
    {
      hide Led, Did;
      ghost var s := View();
      MayLock();
      id, a := ReceiveAndAdd();
      File(a, s);
    }

    method ReceiveAndAdd() returns (id: Uuid, ghost a: Act)
      requires race.Valid() && ConfigOk(race.cfg) && race.seen <= clock.last && race.joinMsg != [] && pc == Joins
      modifies this`pc, race, clock
      ensures race.Valid() && race.joinMsg == old(race.joinMsg)[1..]
      ensures forall p :: p in race.players.Values ==> p in old(race.players.Values) || fresh(p)
      ensures id == old(race.joinMsg)[0].id && pc == JoinNote(id)
      ensures a.TakeJoin? && Did(race.cfg, hook, old(View()), a, View())
    {
      hide RaceModel.AddPlayer, Race.Valid, Did;
      ghost var s := View();
      var m := race.ReceiveJoin();
      id := m.id;
      var ok;
      ghost var x, y;
      ok, x, y := race.AddPlayer(m.id, m.spec, clock);
      pc := JoinNote(id);
      a := TakeJoin(x, y);
      JoinDid(race.cfg, hook, s, View(), x, y);
    }

    method NoteOneJoin(id: Uuid) returns (ghost a: Act)
      requires Valid() && pc == JoinNote(id)
      modifies this`acts, this`own, this`pc, race`events, clock
      ensures Valid() && pc == Joins && a.NoteJoin? && own == old(own) + [a]
    {
      hide Led, Race.Valid;
      ghost var s := View();
      var at := clock.Now();
      race.Emit(PlayerJoinedEvt(id, at));
      pc := Joins;
      a := NoteJoin(at);
      assert View() == Control(hook, s, a, race.View());
      File(a, s);
    }

    /** The leaves that are there, and those that arrive meanwhile; n of them in all. */
    method TakeLeaves() returns (ghost n: nat)
      requires Valid() && pc == Leaves
      modifies this`acts, this`own, this`pc, race, clock
      ensures Valid() && pc == Pc.Locked && race.leaveMsg == []
      ensures own == old(own) + LeaveActs(n) + [LeavesEmpty] && n >= |old(race.leaveMsg)|
      ensures forall p :: p in race.players.Values ==> p in old(race.players.Values) || fresh(p)
    {
      hide Valid;
      n := 0;
      var interruptions: nat := *;
      while race.leaveMsg != []
        invariant Valid() && pc == Leaves
        invariant own == old(own) + LeaveActs(n) && n + |race.leaveMsg| >= |old(race.leaveMsg)|
        invariant forall p :: p in race.players.Values ==> p in old(race.players.Values) || fresh(p)
        decreases interruptions, |race.leaveMsg|
      {
        var busy: bool := *;
        busy := busy && interruptions > 0;
        TakeAndNoteLeave(busy);
        n := n + 1;
        interruptions := if busy then interruptions - 1 else interruptions;
      }
      EndLeaves();
    }

    ghost method EndLeaves()
      requires Valid() && pc == Leaves && race.leaveMsg == []
      modifies this`acts, this`own, this`pc
      ensures Valid() && pc == Pc.Locked && own == old(own) + [LeavesEmpty]
    {
      Go(LeavesEmpty, Pc.Locked);
    }

    method TakeAndNoteLeave(busy: bool)
      requires Valid() && pc == Leaves && race.leaveMsg != []
      modifies this`acts, this`own, this`pc, race, clock
      ensures Valid() && pc == Leaves && own == old(own) + [TakeLeave, NoteLeave]
      ensures |race.leaveMsg| >= |old(race.leaveMsg)| - 1 && (!busy ==> |race.leaveMsg| == |old(race.leaveMsg)| - 1)
      ensures forall p :: p in race.players.Values ==> p in old(race.players.Values) || fresh(p)
    {
      hide *;
      var m := TakeOneLeave();
      if busy {
        Others();
      }
      NoteOneLeave(m.id, m.reason);
      if busy {
        Others();
      }
    }

    method TakeOneLeave() returns (m: LeaveMsg)
      requires Valid() && pc == Leaves && race.leaveMsg != []
      modifies this`acts, this`own, this`pc, race
      ensures Valid() && pc == LeaveNote(m.id, m.reason)
      ensures m == old(race.leaveMsg)[0] && race.leaveMsg == old(race.leaveMsg)[1..] && own == old(own) + [TakeLeave]
      ensures forall p :: p in race.players.Values ==> p in old(race.players.Values) || fresh(p)
    {
      hide Led, Did;
      ghost var s := View();
      m := ReceiveAndRemove();
      File(TakeLeave, s);
    }

    method ReceiveAndRemove() returns (m: LeaveMsg)
      requires race.Valid() && ConfigOk(race.cfg) && race.leaveMsg != [] && pc == Leaves
      modifies this`pc, race
      ensures race.Valid() && race.leaveMsg == old(race.leaveMsg)[1..] && pc == LeaveNote(m.id, m.reason)
      ensures forall p :: p in race.players.Values ==> p in old(race.players.Values) || fresh(p)
      ensures m == old(race.leaveMsg)[0] && Did(race.cfg, hook, old(View()), TakeLeave, View())
    {
      hide RaceModel.RemovePlayer, Race.Valid, Did;
      ghost var s := View();
      m := race.ReceiveLeave();
      race.RemovePlayer(m.id);
      pc := LeaveNote(m.id, m.reason);
      LeaveDid(race.cfg, hook, s, View());
    }

    method NoteOneLeave(id: Uuid, reason: string)
      requires Valid() && pc == LeaveNote(id, reason)
      modifies this`acts, this`own, this`pc, race`events
      ensures Valid() && pc == Leaves && own == old(own) + [NoteLeave]
    {
      hide Led, Race.Valid;
      ghost var s := View();
      race.Emit(PlayerLeftEvt(id, reason));
      pc := Leaves;
      assert View() == Control(hook, s, NoteLeave, race.View());
      File(NoteLeave, s);
    }

    method LockedSection(late: seq<InputMsg>) returns (ghost a: Act)
      requires Valid() && pc == Pc.Locked
      modifies this`acts, this`own, this`pc, this`started, race, race.players.Values, clock
      ensures Valid() && pc == EmptyCheck && race.players == old(race.players) && tickIdx == old(tickIdx)
      ensures a.Lock? && acts == old(acts) + [a] && own == old(own) + [a]
    {
      hide Led, Did;
      ghost var s := View();
      MayLock();
      a := RunSection(late);
      File(a, s);
    }

    method RunSection(late: seq<InputMsg>) returns (ghost a: Act)
      requires race.Valid() && race.seen <= clock.last && pc == Pc.Locked
      requires race.status == Starting ==> race.startRealTime.Some?
      modifies this`started, this`pc, race, race.players.Values, clock
      ensures race.Valid() && race.players == old(race.players) && pc == EmptyCheck
      ensures tickIdx == old(tickIdx) && acts == old(acts) && own == old(own)
      ensures a.Lock? && Did(race.cfg, hook, old(View()), a, View())
    {
      hide RaceModel.TickSection, Distinct, Rising, Ids, Did;
      ghost var s := View();
      ghost var x, y, visits := SectionOfRace(late);
      pc := EmptyCheck;
      a := Lock(x, y, late, visits);
      LockDid(race.cfg, hook, s, View(), x, y, late, visits);
    }

    /** The call itself, and what it leaves alone. */
    method SectionOfRace(late: seq<InputMsg>) returns (ghost a: int, ghost b: int, ghost visits: seq<Visit>)
      requires race.Valid() && race.seen <= clock.last
      requires race.status == Starting ==> race.startRealTime.Some?
      modifies this`started, race, race.players.Values, clock
      ensures race.Valid() && race.players == old(race.players)
      ensures pc == old(pc) && tickIdx == old(tickIdx) && lastEmpty == old(lastEmpty) && calls == old(calls)
      ensures closes == old(closes) && checks == old(checks) && acts == old(acts) && own == old(own)
      ensures race.joinMsg == old(race.joinMsg) && race.leaveMsg == old(race.leaveMsg) && race.inputCh == []
      ensures old(clock.last) <= a <= b && clock.last == LastReading(b, visits)
      ensures started == (old(started) || (old(race.status) != InProgress && race.status == InProgress))
      ensures if race.status == InProgress
              then Ids(visits) == race.players.Keys && Distinct(visits) && Rising(b, visits)
              else visits == []
      ensures forall v :: v in visits ==> v.id in old(race.View()).players
      ensures race.View() == RaceModel.TickSection(race.cfg, old(race.View()), tickIdx, a, b,
                                                   old(race.inputCh) + late, visits)
    {
      hide RaceModel.TickSection, Distinct, Rising, Ids, Race.Valid;
      assert forall p :: p in race.players.Values ==> (p as object) != this && (p as object) != race;
      started, a, b, visits := race.TickSection(clock, tickIdx, started, late);
    }

    /** The empty-race check; whether the loop ends. */
    method CheckEmpty() returns (over: bool, ghost a: Act)
      requires Valid() && pc == EmptyCheck
      modifies this`acts, this`own, this`pc, this`lastEmpty, this`checks, clock
      ensures Valid() && pc == (if over then Finishing(Reaped) else FinishCheck)
      ensures a.LookEmpty? && own == old(own) + [a]
    {
      hide Led, Did;
      ghost var s := View();
      over, a := LookAtCount();
      File(a, s);
    }

    method LookAtCount() returns (over: bool, ghost a: Act)
      requires race.Valid() && pc == EmptyCheck
      modifies this`lastEmpty, this`checks, this`pc, clock
      ensures a.LookEmpty? && Did(race.cfg, hook, old(View()), a, View())
      ensures pc == if over then Finishing(Reaped) else FinishCheck
    {
      hide Race.Valid;
      ghost var s := View();
      var count := race.Count();
      over := TimeEmpty(count);
      checks := checks + [Check(count, clock.last)];
      pc := if over then Finishing(Reaped) else FinishCheck;
      a := LookEmpty(clock.last);
      assert View() == Control(hook, s, a, race.View());
    }

    /** lastEmpty: when the race was first seen empty, if it has been seen empty since. */
    method TimeEmpty(count: nat) returns (over: bool)
      modifies this`lastEmpty, clock
      ensures old(clock.last) <= clock.last
      ensures count == |race.View().players| ==> (lastEmpty, over) == EmptyAfter(old(View()), clock.last)
    {
      over := false;
      if count == 0 {
        var now := clock.Now();
        if lastEmpty.None? {
          lastEmpty := Some(now);
        } else if now - lastEmpty.value > EMPTY_RACE_REAP_AFTER {
          over := true;
        }
      } else {
        lastEmpty := None;
      }
    }

    /** The finish check; whether the loop ends. */
    method CheckFinished() returns (over: bool, ghost why: Why)
      requires Valid() && pc == FinishCheck
      modifies this`acts, this`own, this`pc, this`tickIdx
      ensures Valid() && own == old(own) + [LookFinished]
      ensures why.AllDone? && pc == (if over then Finishing(why) else Wait)
      ensures tickIdx == if over then old(tickIdx) else old(tickIdx) + 1
    {
      hide Led, Did;
      ghost var s := View();
      over, why := LookAtPlayers();
      File(LookFinished, s);
    }

    method LookAtPlayers() returns (over: bool, ghost why: Why)
      requires race.Valid() && pc == FinishCheck
      modifies this`pc, this`tickIdx
      ensures Did(race.cfg, hook, old(View()), LookFinished, View())
      ensures why.AllDone? && pc == (if over then Finishing(why) else Wait)
      ensures tickIdx == if over then old(tickIdx) else old(tickIdx) + 1
    {
      hide RaceModel.AllPlayersFinished, Race.Valid;
      ghost var s := View();
      over := false;
      if started {
        over := race.AllPlayersFinished();
      }
      if !over {
        tickIdx := tickIdx + 1;
      }
      why := AllDone(race.cars.Keys);
      pc := if over then Finishing(why) else Wait;
      assert View() == Control(hook, s, LookFinished, race.View());
    }

    /** finishRace. */
    method FinishRace(ghost why: Why)
      requires Valid() && pc == Finishing(why)
      modifies this`acts, this`own, this`pc, this`calls, this`closes, race, clock
      ensures Valid() && pc == Returned(why)
      ensures old(own) <= own && Finishes(own[|old(own)|..])
      ensures forall p :: p in race.players.Values ==> p in old(race.players.Values) || fresh(p)
    {
      hide Valid;
      var closed;
      ghost var a;
      closed, a := CloseSection(why);
      assert closed;
      Others();
      CallHook(why);
      Others();
      CloseOnce(why);
      assert own == old(own) + [a, Call, CloseDone];
    }

    /** The locked section of finishRace, which always finds the race unfinished. */
    method CloseSection(ghost why: Why) returns (closed: bool, ghost a: Act)
      requires Valid() && pc == Finishing(why)
      modifies this`acts, this`own, this`pc, race, clock
      ensures Valid() && closed && pc == Calling(why) && race.players == old(race.players)
      ensures a.CloseRace? && own == old(own) + [a]
    {
      hide Led, Did;
      ghost var s := View();
      MayLock();
      NotYetFinished(race.cfg, hook, born, acts, s);
      closed, a := RunFinish(why);
      File(a, s);
    }

    method RunFinish(ghost why: Why) returns (closed: bool, ghost a: Act)
      requires race.Valid() && race.seen <= clock.last && pc == Finishing(why)
      modifies this`pc, race, clock
      ensures race.Valid() && race.players == old(race.players)
      ensures closed == (old(race.status) != Finished) && pc == if closed then Calling(why) else Returned(why)
      ensures a.CloseRace? && Did(race.cfg, hook, old(View()), a, View())
    {
      hide Close, Race.Valid, Did;
      ghost var s, stamp := View(), 0;
      closed, stamp := race.FinishSection(clock);
      pc := if closed then Calling(why) else Returned(why);
      a := CloseRace(stamp);
      CloseDid(race.cfg, hook, s, View(), stamp, why);
    }

    method CallHook(ghost why: Why)
      requires Valid() && pc == Calling(why)
      modifies this`acts, this`own, this`pc, this`calls
      ensures Valid() && pc == Closing(why) && own == old(own) + [Call]
    {
      hide Led, Race.Valid;
      ghost var s := View();
      if hook {
        calls := calls + 1;
      }
      pc := Closing(why);
      assert View() == Control(hook, s, Call, race.View());
      File(Call, s);
    }

    method CloseOnce(ghost why: Why)
      requires Valid() && pc == Closing(why)
      modifies this`acts, this`own, this`pc, this`closes
      ensures Valid() && pc == Returned(why) && own == old(own) + [CloseDone]
    {
      hide Led, Race.Valid;
      ghost var s := View();
      if closes == 0 {
        closes := 1;
      }
      pc := Returned(why);
      assert View() == Control(hook, s, CloseDone, race.View());
      File(CloseDone, s);
    }

    // ----- the loop -----

    /** The first half of the body: joins, leaves, the locked section. */
    method Advance(late: seq<InputMsg>)
      requires Valid() && pc == Joins
      modifies this`acts, this`own, this`pc, this`started, race, race.players.Values, clock
      ensures Valid() && pc == EmptyCheck && tickIdx == old(tickIdx)
      ensures old(own) < own && own[|own| - 1].Lock?
      ensures forall p :: p in race.players.Values ==> p in old(race.players.Values) || fresh(p)
    {
      hide *;
      TakeMessages();
      ghost var a := LockedSection(late);
    }

    method TakeMessages()
      requires Valid() && pc == Joins
      modifies this`acts, this`own, this`pc, race, clock
      ensures Valid() && pc == Pc.Locked && old(own) <= own
      ensures forall p :: p in race.players.Values ==> p in old(race.players.Values) || fresh(p)
    {
      hide *;
      Others();
      ghost var more, n := TakeJoins();
      Others();
      n := TakeLeaves();
      Others();
    }

    /** The second half: both checks; whether Run returns. */
    method Checks() returns (over: bool)
      requires Valid() && pc == EmptyCheck
      modifies this`acts, this`own, this`pc, this`lastEmpty, this`checks, this`tickIdx, this`calls, this`closes,
               race, clock
      ensures Valid() && old(own) <= own
      ensures forall p :: p in race.players.Values ==> p in old(race.players.Values) || fresh(p)
      ensures if over then pc.Returned? && (pc.why.Reaped? || pc.why.AllDone?) else pc == Wait
      ensures tickIdx == if over then old(tickIdx) else old(tickIdx) + 1
    {
      hide *;
      ghost var a;
      over, a := CheckEmpty();
      Others();
      if over {
        FinishRace(Reaped);
      } else {
        over := FinishIfDone();
      }
    }

    method FinishIfDone() returns (over: bool)
      requires Valid() && pc == FinishCheck
      modifies this`acts, this`own, this`pc, this`tickIdx, this`calls, this`closes, race, clock
      ensures Valid() && old(own) <= own
      ensures forall p :: p in race.players.Values ==> p in old(race.players.Values) || fresh(p)
      ensures if over then pc.Returned? && pc.why.AllDone? else pc == Wait
      ensures tickIdx == if over then old(tickIdx) else old(tickIdx) + 1
    {
      hide *;
      ghost var why;
      over, why := CheckFinished();
      if over {
        Others();
        FinishRace(why);
      }
    }

    /** ctx.Done in either select. */
    method Cancel()
      requires Valid() && (pc == Top || pc == Wait)
      modifies this`acts, this`own, this`pc, this`calls, this`closes, race, clock
      ensures Valid() && pc == Returned(Cancelled)
      ensures old(own) <= own && |own| == |old(own)| + 4
      ensures own[|old(own)|] == SeeCancel && Finishes(own[|old(own)| + 1..])
      ensures forall p :: p in race.players.Values ==> p in old(race.players.Values) || fresh(p)
    {
      hide Valid;
      Stop();
      Others();
      FinishRace(Cancelled);
    }

    ghost method Stop()
      requires Valid() && (pc == Top || pc == Wait)
      modifies this`acts, this`own, this`pc
      ensures Valid() && pc == Finishing(Cancelled) && own == old(own) + [SeeCancel]
    {
      Go(SeeCancel, Finishing(Cancelled));
    }

    /** One iteration, from select to select; whether Run returns. */
    method Iteration(cancelled: bool, late: seq<InputMsg>) returns (over: bool)
      requires Valid() && pc == Top
      modifies this, race, race.players.Values, clock
      ensures Valid() && old(own) <= own
      ensures forall p :: p in race.players.Values ==> p in old(race.players.Values) || fresh(p)
      ensures cancelled ==> over && pc == Returned(Cancelled)
      ensures !cancelled && over ==> pc.Returned? && (pc.why.Reaped? || pc.why.AllDone?)
      ensures !over ==> pc == Wait
      ensures !cancelled ==> exists i :: |old(own)| <= i < |own| && own[i].Lock?
      ensures tickIdx == if over then old(tickIdx) else old(tickIdx) + 1
    {
      hide *;
      if cancelled {
        Cancel();
        return true;
      }
      Start();
      Advance(late);
      ghost var locked := |own| - 1;
      Others();
      over := Checks();
      assert own[locked].Lock?;
    }

    /** Nobody but Run closes Done, so neither select ever sees it closed. */
    ghost method Start()
      requires Valid() && pc == Top
      modifies this`acts, this`own, this`pc
      ensures Valid() && pc == Joins && own == old(own) + [Begin]
    {
      NotYetFinished(race.cfg, hook, born, acts, View());
      Go(Begin, Joins);
    }

    /** The wait at the end of an iteration; whether Run returns. */
    method Await(cancelled: bool) returns (over: bool)
      requires Valid() && pc == Wait
      modifies this`acts, this`own, this`pc, this`calls, this`closes, race, clock
      ensures Valid() && old(own) <= own
      ensures forall p :: p in race.players.Values ==> p in old(race.players.Values) || fresh(p)
      ensures over == cancelled && pc == if over then Returned(Cancelled) else Top
    {
      hide *;
      Others();
      over := cancelled;
      if cancelled {
        Cancel();
      } else {
        Resume();
      }
    }

    ghost method Resume()
      requires Valid() && pc == Wait
      modifies this`acts, this`own, this`pc
      ensures Valid() && pc == Top && own == old(own) + [Tick]
    {
      Go(Tick, Top);
    }

    method OneRound(round: Round) returns (over: bool)
      requires Valid() && pc == Top
      modifies this, race, race.players.Values, clock
      ensures Valid() && old(own) <= own
      ensures forall p :: p in race.players.Values ==> p in old(race.players.Values) || fresh(p)
      ensures !over ==> pc == Top && tickIdx == old(tickIdx) + 1 && !Stops(round)
      ensures over ==> pc.Returned? && EndsRound(round, tickIdx - old(tickIdx), pc.why)
    {
      hide Valid;
      Others();
      over := Iteration(round.stopAtTop, round.late);
      if !over {
        over := Await(round.stopAtWait);
      }
    }

    /**
     * Run, through as many rounds as are given. While it does not return, every round has run to its end,
     * as the tick number says, and saw no cancellation. It returns in the first round that is cancelled or
     * that finds the race to be reaped or everybody done. Then, whatever the other goroutines did, the race
     * is finished, OnFinish was called once if it is set, Done was closed once, and the last event
     * is the only announcement of results, of those that FinalResults answers.
     */
    method Run(rounds: seq<Round>) returns (over: bool, n: nat)
      requires Valid() && pc == Top
      modifies this, race, race.players.Values, clock
      ensures Valid() && old(own) <= own
      ensures !over ==> pc == Top && tickIdx == old(tickIdx) + |rounds| && NoneStops(rounds, |rounds|)
      ensures over ==> pc.Returned? && EndsIn(rounds, n - 1, tickIdx - old(tickIdx), pc.why)
      ensures over ==> race.status == Finished && closes == 1 && calls == (if hook then 1 else 0)
      ensures !over ==> race.status != Finished && closes == calls == 0
      ensures Announced(race.log) == if over then [RaceModel.FinalResults(race.View())] else []
      ensures if over then FinishEvtLast(race.View()) else NoFinishEvt(race.events)
    {
      hide Valid, FinishEvtLast, NoFinishEvt, Announced;
      over, n := false, 0;
      while n < |rounds| && !over
        invariant n <= |rounds| && Valid() && old(own) <= own
        invariant !over ==> pc == Top && tickIdx == old(tickIdx) + n && NoneStops(rounds, n)
        invariant over ==> pc.Returned? && EndsIn(rounds, n - 1, tickIdx - old(tickIdx), pc.why)
        invariant forall p :: p in race.players.Values ==> p in old(race.players.Values) || fresh(p)
      {
        over := OneRound(rounds[n]);
        n := n + 1;
      }
      Outcome();
    }

    lemma Outcome()
      requires Valid() && (pc == Top || pc.Returned?)
      ensures pc.Returned? ==> race.status == Finished && closes == 1 && calls == (if hook then 1 else 0)
      ensures pc == Top ==> race.status != Finished && closes == calls == 0
      ensures Announced(race.log) == if pc.Returned? then [RaceModel.FinalResults(race.View())] else []
      ensures if pc.Returned? then FinishEvtLast(race.View()) else NoFinishEvt(race.events)
    {
      RunEndsOnce(race.cfg, hook, born, acts);
      ScheduleKeeps(race.cfg, hook, born, acts);
    }
  }
}
