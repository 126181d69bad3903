/** What the iterations of Run do in every schedule: its channels, its order, its tick numbers and its ends. */
module Iterations {
  import opened Base
  import opened RaceModel
  import opened RaceRuns
  import opened RaceLoop

  // ----- the channels -----

  /** A join that finds room in its channel of 8, and the player that Run adds. */
  function JoinSent(s: Sys, a: Act): seq<JoinMsg> {
    if a.SendJoin? && |s.joins| < 8 then [a.join] else []
  }

  function JoinTaken(s: Sys, a: Act): seq<JoinMsg> {
    match OpOf(s, a)
    case Some(Add(id, spec, _, _)) => if a.TakeJoin? then [JoinMsg(id, spec)] else []
    case _ => []
  }

  function IdTaken(s: Sys, a: Act): seq<Uuid> {
    if JoinTaken(s, a) == [] then [] else [JoinTaken(s, a)[0].id]
  }

  function JoinNoted(s: Sys, a: Act): seq<Uuid> {
    match OpOf(s, a)
    case Some(Note(PlayerJoinedEvt(id, _))) => [id]
    case _ => []
  }

  /** A leave that finds room in its channel of 8, the player that Run removes, and the one that it announces. */
  function LeaveSent(s: Sys, a: Act): seq<LeaveMsg> {
    if a.SendLeave? && |s.leaves| < 8 then [a.leave] else []
  }

  function LeaveTaken(s: Sys, a: Act): seq<Uuid> {
    match OpOf(s, a)
    case Some(Remove(id)) => [id]
    case _ => []
  }

  function LeaveNoted(s: Sys, a: Act): seq<LeaveMsg> {
    match OpOf(s, a)
    case Some(Note(PlayerLeftEvt(id, reason))) => [LeaveMsg(id, reason)]
    case _ => []
  }

  /** An input that finds room in its channel of 256, or comes while it is drained, and the inputs applied. */
  function InputSent(s: Sys, a: Act): seq<InputMsg> {
    match a
    case SendInput(m) => if |s.inputs| < 256 then [m] else []
    case Lock(_, _, late, _) => late
    case _ => []
  }

  function InputApplied(s: Sys, a: Act): seq<InputMsg> {
    match OpOf(s, a)
    case Some(Section(_, _, _, msgs, _)) => msgs
    case _ => []
  }

  /** What the actions of a schedule contribute, one after the other. */
  ghost function Collect<T>(cfg: Config, hook: bool, clock: int, acts: seq<Act>, part: (Sys, Act) -> seq<T>): seq<T>
    requires Schedule(cfg, hook, clock, acts)
  {
    if acts == [] then []
    else
      var n := |acts| - 1;
      Collect(cfg, hook, clock, acts[..n], part) + part(Now(cfg, hook, clock, acts[..n]), acts[n])
  }

  function Names(leaves: seq<LeaveMsg>): seq<Uuid> {
    seq(|leaves|, i requires 0 <= i < |leaves| => leaves[i].id)
  }

  function Pending(pc: Pc): seq<LeaveMsg> {
    if pc.LeaveNote? then [LeaveMsg(pc.id, pc.reason)] else []
  }

  function PendingJoin(pc: Pc): seq<Uuid> {
    if pc.JoinNote? then [pc.id] else []
  }

  /** The last action of a schedule, the state before it and the race after it. */
  lemma LastAct(cfg: Config, hook: bool, clock: int, acts: seq<Act>) returns (s: Sys, a: Act, r': RaceState)
    requires Schedule(cfg, hook, clock, acts) && acts != []
    ensures Schedule(cfg, hook, clock, acts[..|acts| - 1])
    ensures s == Now(cfg, hook, clock, acts[..|acts| - 1]) && a == acts[|acts| - 1] && Here(s, a)
    ensures Enabled(s, a) && r' == RaceAfter(cfg, s, a) && Now(cfg, hook, clock, acts) == Control(hook, s, a, r')
  {
    s, a := Now(cfg, hook, clock, acts[..|acts| - 1]), acts[|acts| - 1];
    r' := RaceAfter(cfg, s, a);
  }

  /** One action, seen from a channel: what was waiting and what is sent are what is taken and what then waits. */
  lemma JoinStep(hook: bool, s: Sys, a: Act, r': RaceState)
    requires Here(s, a)
    ensures s.joins + JoinSent(s, a) == JoinTaken(s, a) + Control(hook, s, a, r').joins
  {
  }

  lemma JoinNoteStep(hook: bool, s: Sys, a: Act, r': RaceState)
    requires Here(s, a)
    ensures PendingJoin(s.pc) + IdTaken(s, a) == JoinNoted(s, a) + PendingJoin(Control(hook, s, a, r').pc)
  {
  }

  lemma InputStep(hook: bool, s: Sys, a: Act, r': RaceState)
    requires Here(s, a)
    ensures s.inputs + InputSent(s, a) == InputApplied(s, a) + Control(hook, s, a, r').inputs
  {
  }

  lemma LeaveStep(hook: bool, s: Sys, a: Act, r': RaceState)
    requires Here(s, a)
    ensures var t := Control(hook, s, a, r'); var taken := if a.TakeLeave? then [s.leaves[0]] else [];
            && s.leaves + LeaveSent(s, a) == taken + t.leaves
            && LeaveTaken(s, a) == Names(taken)
  {
  }

  lemma NoteStep(hook: bool, s: Sys, a: Act, r': RaceState)
    requires Here(s, a)
    ensures Pending(s.pc) + (if a.TakeLeave? then [s.leaves[0]] else []) ==
            LeaveNoted(s, a) + Pending(Control(hook, s, a, r').pc)
  {
  }

  lemma CollectLast<T>(cfg: Config, hook: bool, clock: int, acts: seq<Act>, part: (Sys, Act) -> seq<T>)
    requires Schedule(cfg, hook, clock, acts) && acts != [] && Schedule(cfg, hook, clock, acts[..|acts| - 1])
    ensures var n := |acts| - 1;
            Collect(cfg, hook, clock, acts, part) ==
            Collect(cfg, hook, clock, acts[..n], part) + part(Now(cfg, hook, clock, acts[..n]), acts[n])
  {
  }

  lemma Regroup<T>(taken: seq<T>, before: seq<T>, sent: seq<T>, now: seq<T>, after: seq<T>)
    requires before + sent == now + after
    ensures taken + before + sent == taken + now + after
  {
    assert taken + before + sent == taken + (before + sent);
    assert taken + (now + after) == taken + now + after;
  }

  /** In every schedule each join that found room is added by Run once, in the order of sending, or is waiting. */
  lemma {:induction false} JoinsKeepOrder(cfg: Config, hook: bool, clock: int, acts: seq<Act>)
    requires Schedule(cfg, hook, clock, acts)
    ensures Collect(cfg, hook, clock, acts, JoinSent) ==
            Collect(cfg, hook, clock, acts, JoinTaken) + Now(cfg, hook, clock, acts).joins
  {
    if acts != [] {
      hide *;
      var n := |acts| - 1;
      var s, a, r' := LastAct(cfg, hook, clock, acts);
      JoinsKeepOrder(cfg, hook, clock, acts[..n]);
      JoinStep(hook, s, a, r');
      CollectLast(cfg, hook, clock, acts, JoinSent);
      CollectLast(cfg, hook, clock, acts, JoinTaken);
      Regroup(Collect(cfg, hook, clock, acts[..n], JoinTaken), s.joins, JoinSent(s, a), JoinTaken(s, a),
              Now(cfg, hook, clock, acts).joins);
    }
  }

  /** And whoever Run adds it announces as joined, once, in this order. */
  lemma {:induction false} JoinsAreAnnounced(cfg: Config, hook: bool, clock: int, acts: seq<Act>)
    requires Schedule(cfg, hook, clock, acts)
    ensures Collect(cfg, hook, clock, acts, IdTaken) ==
            Collect(cfg, hook, clock, acts, JoinNoted) + PendingJoin(Now(cfg, hook, clock, acts).pc)
  {
    if acts != [] {
      hide *;
      var n := |acts| - 1;
      var s, a, r' := LastAct(cfg, hook, clock, acts);
      JoinsAreAnnounced(cfg, hook, clock, acts[..n]);
      JoinNoteStep(hook, s, a, r');
      CollectLast(cfg, hook, clock, acts, IdTaken);
      CollectLast(cfg, hook, clock, acts, JoinNoted);
      Regroup(Collect(cfg, hook, clock, acts[..n], JoinNoted), PendingJoin(s.pc), IdTaken(s, a), JoinNoted(s, a),
              PendingJoin(Now(cfg, hook, clock, acts).pc));
    }
  }

  /** And each input that found room, or came while they were drained, is applied once, in this order, or waits. */
  lemma {:induction false} InputsKeepOrder(cfg: Config, hook: bool, clock: int, acts: seq<Act>)
    requires Schedule(cfg, hook, clock, acts)
    ensures Collect(cfg, hook, clock, acts, InputSent) ==
            Collect(cfg, hook, clock, acts, InputApplied) + Now(cfg, hook, clock, acts).inputs
  {
    if acts != [] {
      hide *;
      var n := |acts| - 1;
      var s, a, r' := LastAct(cfg, hook, clock, acts);
      InputsKeepOrder(cfg, hook, clock, acts[..n]);
      InputStep(hook, s, a, r');
      CollectLast(cfg, hook, clock, acts, InputSent);
      CollectLast(cfg, hook, clock, acts, InputApplied);
      Regroup(Collect(cfg, hook, clock, acts[..n], InputApplied), s.inputs, InputSent(s, a), InputApplied(s, a),
              Now(cfg, hook, clock, acts).inputs);
    }
  }

  /** And each leave is taken and then announced with its reason, once, in this order, or waits. */
  lemma {:induction false} LeavesKeepOrder(cfg: Config, hook: bool, clock: int, acts: seq<Act>)
    requires Schedule(cfg, hook, clock, acts)
    ensures var s := Now(cfg, hook, clock, acts); var noted := Collect(cfg, hook, clock, acts, LeaveNoted);
            && Collect(cfg, hook, clock, acts, LeaveSent) == noted + Pending(s.pc) + s.leaves
            && Collect(cfg, hook, clock, acts, LeaveTaken) == Names(noted + Pending(s.pc))
  {
    if acts != [] {
      hide *;
      var s, a, r' := LastAct(cfg, hook, clock, acts);
      LeavesKeepOrder(cfg, hook, clock, acts[..|acts| - 1]);
      LeaveStep(hook, s, a, r');
      NoteStep(hook, s, a, r');
      CollectLast(cfg, hook, clock, acts, LeaveSent);
      CollectLast(cfg, hook, clock, acts, LeaveTaken);
      CollectLast(cfg, hook, clock, acts, LeaveNoted);
      var noted := Collect(cfg, hook, clock, acts[..|acts| - 1], LeaveNoted);
      RegroupLeaves(noted, Pending(s.pc), if a.TakeLeave? then [s.leaves[0]] else [], LeaveNoted(s, a),
                    Pending(Now(cfg, hook, clock, acts).pc), s.leaves, LeaveSent(s, a),
                    Now(cfg, hook, clock, acts).leaves);
    }
  }

  lemma RegroupLeaves(noted: seq<LeaveMsg>, before: seq<LeaveMsg>, taken: seq<LeaveMsg>, now: seq<LeaveMsg>,
                      after: seq<LeaveMsg>, waiting: seq<LeaveMsg>, sent: seq<LeaveMsg>, left: seq<LeaveMsg>)
    requires before + taken == now + after && waiting + sent == taken + left
    ensures noted + before + waiting + sent == noted + now + after + left
    ensures Names(noted + before) + Names(taken) == Names(noted + now + after)
  {
    assert noted + before + waiting + sent == noted + before + (waiting + sent);
    assert noted + before + (taken + left) == noted + (before + taken) + left;
    assert noted + (now + after) + left == noted + now + after + left;
    assert Names(noted + before) + Names(taken) == Names(noted + (before + taken));
    assert noted + (now + after) == noted + now + after;
  }

  // ----- the order of an iteration -----

  /** Since the latest Begin, the i-th action found the channel of joins, or of leaves, empty. */
  ghost predicate JoinsSeen(cfg: Config, hook: bool, clock: int, acts: seq<Act>, i: nat)
    requires ConfigOk(cfg)
  {
    && i < |acts| && acts[i].JoinsEmpty? && (forall k :: i <= k < |acts| ==> !acts[k].Begin?)
    && Schedule(cfg, hook, clock, acts[..i]) && Now(cfg, hook, clock, acts[..i]).joins == []
  }

  ghost predicate LeavesSeen(cfg: Config, hook: bool, clock: int, acts: seq<Act>, i: nat)
    requires ConfigOk(cfg)
  {
    && i < |acts| && acts[i].LeavesEmpty? && (forall k :: i <= k < |acts| ==> !acts[k].Begin?)
    && Schedule(cfg, hook, clock, acts[..i]) && Now(cfg, hook, clock, acts[..i]).leaves == []
  }

  ghost predicate Drained(cfg: Config, hook: bool, clock: int, acts: seq<Act>, pc: Pc)
    requires ConfigOk(cfg)
  {
    && (pc.Leaves? || pc.LeaveNote? || pc.Locked? ==> exists i :: JoinsSeen(cfg, hook, clock, acts, i))
    && (pc.Locked? ==> exists i :: LeavesSeen(cfg, hook, clock, acts, i))
  }

  /** Where an action leads that stays between Begin and the locked section. */
  lemma DrainStep(hook: bool, s: Sys, a: Act, r': RaceState)
    requires Here(s, a)
    ensures var t := Control(hook, s, a, r');
            && (t.pc.Leaves? || t.pc.LeaveNote? || t.pc.Locked? ==>
                  (a.JoinsEmpty? && s.joins == []) || (!a.Begin? && (s.pc.Leaves? || s.pc.LeaveNote? || s.pc.Locked?)))
            && (t.pc.Locked? ==> (a.LeavesEmpty? && s.leaves == []) || (!a.Begin? && s.pc.Locked?))
  {
  }

  lemma SeenLater(cfg: Config, hook: bool, clock: int, acts: seq<Act>, a: Act)
    requires Schedule(cfg, hook, clock, acts)
    ensures !a.Begin? && (exists i :: JoinsSeen(cfg, hook, clock, acts, i)) ==>
              exists i :: JoinsSeen(cfg, hook, clock, acts + [a], i)
    ensures !a.Begin? && (exists i :: LeavesSeen(cfg, hook, clock, acts, i)) ==>
              exists i :: LeavesSeen(cfg, hook, clock, acts + [a], i)
    ensures a.JoinsEmpty? && Now(cfg, hook, clock, acts).joins == [] ==>
              exists i :: JoinsSeen(cfg, hook, clock, acts + [a], i)
    ensures a.LeavesEmpty? && Now(cfg, hook, clock, acts).leaves == [] ==>
              exists i :: LeavesSeen(cfg, hook, clock, acts + [a], i)
  {
    hide Now;
    var more := acts + [a];
    forall i: nat | i <= |acts|
      ensures more[..i] == acts[..i]
    {
    }
    assert more[..|acts|] == acts;
    if !a.Begin? {
      if i :| JoinsSeen(cfg, hook, clock, acts, i) {
        assert JoinsSeen(cfg, hook, clock, more, i);
      }
      if i :| LeavesSeen(cfg, hook, clock, acts, i) {
        assert LeavesSeen(cfg, hook, clock, more, i);
      }
    }
    if a.JoinsEmpty? && Now(cfg, hook, clock, acts).joins == [] {
      assert JoinsSeen(cfg, hook, clock, more, |acts|);
    }
    if a.LeavesEmpty? && Now(cfg, hook, clock, acts).leaves == [] {
      assert LeavesSeen(cfg, hook, clock, more, |acts|);
    }
  }

  /** Before the locked section of an iteration, Run has found both control channels empty in that iteration. */
  lemma {:induction false} DrainedFirst(cfg: Config, hook: bool, clock: int, acts: seq<Act>)
    requires Schedule(cfg, hook, clock, acts)
    ensures Drained(cfg, hook, clock, acts, Now(cfg, hook, clock, acts).pc)
  {
    if acts != [] {
      hide Schedule, Now, JoinsSeen, LeavesSeen, Here, Enabled, Control;
      var s, a, r' := LastAct(cfg, hook, clock, acts);
      DrainedFirst(cfg, hook, clock, acts[..|acts| - 1]);
      DrainStep(hook, s, a, r');
      assert acts == acts[..|acts| - 1] + [a];
      SeenLater(cfg, hook, clock, acts[..|acts| - 1], a);
    }
  }

  /** How many locked sections there were. */
  function Locks(acts: seq<Act>): nat {
    if acts == [] then 0 else Locks(acts[..|acts| - 1]) + if acts[|acts| - 1].Lock? then 1 else 0
  }

  lemma TickStep(hook: bool, s: Sys, a: Act, r': RaceState, n: nat)
    requires Here(s, a) && (Early(s.pc) ==> s.tickIdx == n)
    requires s.pc.EmptyCheck? || s.pc.FinishCheck? ==> s.tickIdx + 1 == n
    ensures var t := Control(hook, s, a, r'); var m := if a.Lock? then n + 1 else n;
            && (Early(t.pc) ==> t.tickIdx == m)
            && (t.pc.EmptyCheck? || t.pc.FinishCheck? ==> t.tickIdx + 1 == m)
  {
  }

  lemma {:induction false} TicksCount(cfg: Config, hook: bool, clock: int, acts: seq<Act>)
    requires Schedule(cfg, hook, clock, acts)
    ensures var s := Now(cfg, hook, clock, acts);
            && (Early(s.pc) ==> s.tickIdx == Locks(acts))
            && (s.pc.EmptyCheck? || s.pc.FinishCheck? ==> s.tickIdx + 1 == Locks(acts))
  {
    if acts != [] {
      hide Schedule, Now, Here, Enabled, Control, Early;
      var s, a, r' := LastAct(cfg, hook, clock, acts);
      TicksCount(cfg, hook, clock, acts[..|acts| - 1]);
      TickStep(hook, s, a, r', Locks(acts[..|acts| - 1]));
    }
  }

  /**
   * The n-th locked section of Run is the operation of tick n, counted from 0, with all inputs that wait and
   * those that come meanwhile; before it, in the same iteration, Run has found both control channels empty.
   */
  lemma SectionsAreNumbered(cfg: Config, hook: bool, clock: int, acts: seq<Act>, lock: Act)
    requires Schedule(cfg, hook, clock, acts) && lock.Lock? && Enabled(Now(cfg, hook, clock, acts), lock)
    ensures OpOf(Now(cfg, hook, clock, acts), lock) ==
            Some(Section(Locks(acts), lock.startStamp, lock.sinceStamp, Now(cfg, hook, clock, acts).inputs + lock.late,
                         lock.visits))
    ensures exists i, j :: JoinsSeen(cfg, hook, clock, acts, i) && LeavesSeen(cfg, hook, clock, acts, j)
  {
    DrainedFirst(cfg, hook, clock, acts);
    TicksCount(cfg, hook, clock, acts);
    var i :| JoinsSeen(cfg, hook, clock, acts, i);
    var j :| LeavesSeen(cfg, hook, clock, acts, j);
  }

  // ----- how the loop ends -----

  /** The looks are in order of time, and lastEmpty is the first of those that saw nobody since somebody was seen. */
  ghost predicate LookedUp(s: Sys) {
    var n := |s.checks|;
    && (forall i, j :: 0 <= i < j < n ==> s.checks[i].at <= s.checks[j].at)
    && (n > 0 ==> s.checks[n - 1].at <= s.now)
    && (s.lastEmpty.Some? <==> n > 0 && s.checks[n - 1].count == 0)
    && (s.lastEmpty.Some? ==>
          exists i :: 0 <= i < n && NobodySince(s.checks, i) && s.checks[i].at == s.lastEmpty.value &&
                      (i > 0 ==> s.checks[i - 1].count != 0))
  }

  lemma OneMoreLook(s: Sys, t: Sys, stamp: int)
    requires LookedUp(s) && s.now <= stamp && t.now == stamp
    requires t.checks == s.checks + [Check(|s.race.players|, stamp)] && t.lastEmpty == EmptyAfter(s, stamp).0
    ensures LookedUp(t)
  {
    var n := |s.checks|;
    if t.lastEmpty.Some? && s.lastEmpty.None? {
      assert n > 0 ==> t.checks[n - 1] == s.checks[n - 1] && s.checks[n - 1].count != 0;
      assert NobodySince(t.checks, n) && t.checks[n].at == t.lastEmpty.value;
    } else if t.lastEmpty.Some? {
      var i :| 0 <= i < n && NobodySince(s.checks, i) && s.checks[i].at == s.lastEmpty.value &&
               (i > 0 ==> s.checks[i - 1].count != 0);
      assert NobodySince(t.checks, i) && t.checks[i] == s.checks[i] && (i > 0 ==> t.checks[i - 1] == s.checks[i - 1]);
    }
  }

  lemma LookStep(hook: bool, s: Sys, a: Act, r': RaceState)
    requires Here(s, a) && Fresh(s, a) && LookedUp(s) && s.now <= Reads(s, a)
    ensures LookedUp(Control(hook, s, a, r'))
  {
    if a.LookEmpty? {
      hide LookedUp, NobodySince;
      OneMoreLook(s, Control(hook, s, a, r'), a.stamp);
    } else {
      WatchedStep(hook, s, a, r');
    }
  }

  lemma {:induction false} LooksInRuns(cfg: Config, hook: bool, clock: int, acts: seq<Act>)
    requires Schedule(cfg, hook, clock, acts)
    ensures LookedUp(Now(cfg, hook, clock, acts))
  {
    if acts != [] {
      hide Schedule, Now, Here, Control, LookedUp;
      var s, a, r' := LastAct(cfg, hook, clock, acts);
      LooksInRuns(cfg, hook, clock, acts[..|acts| - 1]);
      ScheduleKeeps(cfg, hook, clock, acts[..|acts| - 1]);
      RaceInStep(cfg, s, a);
      LookStep(hook, s, a, r');
    }
  }

  /** A look at the players ends the race exactly if the last looks, over more than 30 s, all saw nobody. */
  lemma ReapedExactly(cfg: Config, hook: bool, clock: int, acts: seq<Act>, stamp: int)
    requires Schedule(cfg, hook, clock, acts) && Enabled(Now(cfg, hook, clock, acts), LookEmpty(stamp))
    ensures var s := Now(cfg, hook, clock, acts); var t := Fire(cfg, hook, s, LookEmpty(stamp));
            && t.checks == s.checks + [Check(|s.race.players|, stamp)] && t.race == s.race
            && t.pc == if EmptyWindow(t.checks) then Finishing(Reaped) else FinishCheck
  {
    LooksInRuns(cfg, hook, clock, acts);
    var s := Now(cfg, hook, clock, acts);
    var t := Fire(cfg, hook, s, LookEmpty(stamp));
    LookEnds(s, t, stamp);
  }

  lemma LookEnds(s: Sys, t: Sys, stamp: int)
    requires LookedUp(s) && t.checks == s.checks + [Check(|s.race.players|, stamp)]
    ensures EmptyAfter(s, stamp).1 <==> EmptyWindow(t.checks)
  {
    if EmptyWindow(t.checks) {
      var i :| 0 <= i < |t.checks| && NobodySince(t.checks, i) && stamp - t.checks[i].at > 30_000_000_000;
      WindowEnds(s, t.checks, i, stamp);
    }
    if EmptyAfter(s, stamp).1 {
      var i :| 0 <= i < |s.checks| && NobodySince(s.checks, i) && s.checks[i].at == s.lastEmpty.value;
      assert NobodySince(t.checks, i) && t.checks[i] == s.checks[i];
    }
  }

  lemma WindowEnds(s: Sys, checks: seq<Check>, i: nat, stamp: int)
    requires LookedUp(s) && checks == s.checks + [Check(|s.race.players|, stamp)]
    requires NobodySince(checks, i) && stamp - checks[i].at > 30_000_000_000
    ensures EmptyAfter(s, stamp).1
  {
    var n := |s.checks|;
    assert checks[n].count == 0 && checks[n - 1] == s.checks[n - 1] && checks[i] == s.checks[i];
    var first :| 0 <= first < n && NobodySince(s.checks, first) && s.checks[first].at == s.lastEmpty.value &&
                 (first > 0 ==> s.checks[first - 1].count != 0);
    assert first > 0 ==> checks[first - 1] == s.checks[first - 1];
  }

  /** Until the race is over, started says that it is on. */
  ghost predicate StartedIsOn(s: Sys) {
    !Over(s.pc) ==> (s.started <==> s.race.status == InProgress)
  }

  /** Only the locked section puts a race on, and only its end takes it off. */
  lemma OnlyLockStarts(cfg: Config, s: Sys, a: Act)
    requires ConfigOk(cfg) && Enabled(s, a) && InStep(s) && !a.CloseRace?
    ensures var r' := RaceAfter(cfg, s, a);
            && (s.race.status == InProgress ==> r'.status == InProgress)
            && (!a.Lock? ==> r'.status == s.race.status)
  {
    if OpOf(s, a).Some? {
      OpPossible(cfg, s, a);
      if a.Lock? {
        SectionFrame(cfg, s.race, OpOf(s, a).value);
        ReadyFrame(s.race, OpOf(s, a).value);
      }
    }
  }

  lemma StartedStep(hook: bool, s: Sys, a: Act, r': RaceState)
    requires Here(s, a) && StartedIsOn(s)
    requires !a.CloseRace? ==>
               && (s.race.status == InProgress ==> r'.status == InProgress)
               && (!a.Lock? ==> r'.status == s.race.status)
    ensures StartedIsOn(Control(hook, s, a, r'))
  {
  }

  lemma {:induction false} StartedInRuns(cfg: Config, hook: bool, clock: int, acts: seq<Act>)
    requires Schedule(cfg, hook, clock, acts)
    ensures StartedIsOn(Now(cfg, hook, clock, acts))
  {
    if acts != [] {
      hide Schedule, Now, Here, Control, StartedIsOn;
      var s, a, r' := LastAct(cfg, hook, clock, acts);
      StartedInRuns(cfg, hook, clock, acts[..|acts| - 1]);
      ScheduleKeeps(cfg, hook, clock, acts[..|acts| - 1]);
      if !a.CloseRace? {
        OnlyLockStarts(cfg, s, a);
      }
      StartedStep(hook, s, a, r');
    }
  }

  /** The finish check ends the race exactly if it is on, somebody is there, and everybody there is finished. */
  lemma FinishedExactly(cfg: Config, hook: bool, clock: int, acts: seq<Act>)
    requires Schedule(cfg, hook, clock, acts) && Enabled(Now(cfg, hook, clock, acts), LookFinished)
    ensures var s := Now(cfg, hook, clock, acts); var t := Fire(cfg, hook, s, LookFinished);
            && t.race == s.race
            && (if s.race.status == InProgress && |s.race.players| > 0 &&
                   forall id :: id in s.race.players ==> s.race.players[id].body.finished
                then t.pc == Finishing(AllDone(s.race.players.Keys))
                else t.pc == Wait && t.tickIdx == s.tickIdx + 1)
  {
    StartedInRuns(cfg, hook, clock, acts);
  }
}
