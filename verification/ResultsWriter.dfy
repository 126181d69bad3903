/** internal/results: the outcome of a race written to three tables in one transaction, retried once. */
module ResultsWriter {
  import opened Base

  datatype Entry = Entry(playerId: Uuid, position: int, totalTimeMs: int, bestLapMs: int)

  /** None stands for the zero time. */
  datatype Request = Request(raceId: Uuid, trackId: Uuid, startedAt: Option<int>, finishedAt: Option<int>,
                             results: seq<Entry>)

  datatype RaceRow = RaceRow(trackId: Uuid, status: string, startedAt: int, finishedAt: int)
  datatype PlayerRow = PlayerRow(finishPosition: int, finishedAt: int)
  datatype ResultRow = ResultRow(position: int, totalTimeMs: int, bestLapMs: Option<int>)

  /** The rows by primary or unique key, and the referenced ids. */
  datatype Tables = Tables(tracks: set<Uuid>, players: set<Uuid>, races: map<Uuid, RaceRow>,
                           racePlayers: map<(Uuid, Uuid), PlayerRow>, raceResults: map<(Uuid, Uuid), ResultRow>)

  datatype Failure = RaceIdRequired | TrackIdRequired | EmptyResults | BeginFailed | ExecFailed | CommitFailed

  // ----- the statements -----

  function UpsertRace(t: Tables, req: Request, startedAt: int, finishedAt: int): Tables {
    var row := if req.raceId in t.races
               then t.races[req.raceId].(status := "finished", finishedAt := finishedAt)
               else RaceRow(req.trackId, "finished", startedAt, finishedAt);
    t.(races := t.races[req.raceId := row])
  }

  function UpsertPlayer(t: Tables, raceId: Uuid, e: Entry, finishedAt: int): Tables {
    t.(racePlayers := t.racePlayers[(raceId, e.playerId) := PlayerRow(e.position, finishedAt)])
  }

  function NullIfZero(x: int): Option<int> {
    if x == 0 then None else Some(x)
  }

  function ResultFor(e: Entry): ResultRow {
    ResultRow(e.position, e.totalTimeMs, NullIfZero(e.bestLapMs))
  }

  function UpsertResult(t: Tables, raceId: Uuid, e: Entry): Tables {
    t.(raceResults := t.raceResults[(raceId, e.playerId) := ResultFor(e)])
  }

  function UpsertEntry(t: Tables, raceId: Uuid, e: Entry, finishedAt: int): Tables {
    if e.playerId == NIL then t else UpsertResult(UpsertPlayer(t, raceId, e, finishedAt), raceId, e)
  }

  function UpsertEntries(t: Tables, raceId: Uuid, es: seq<Entry>, finishedAt: int): Tables {
    if es == [] then t
    else UpsertEntry(UpsertEntries(t, raceId, es[..|es| - 1], finishedAt), raceId, es[|es| - 1], finishedAt)
  }

  /** All statements of the transaction. */
  function Applied(t: Tables, req: Request, startedAt: int, finishedAt: int): Tables {
    UpsertEntries(UpsertRace(t, req, startedAt, finishedAt), req.raceId, req.results, finishedAt)
  }

  /** The foreign keys that the inserts of a transaction need. */
  predicate References(t: Tables, req: Request) {
    && (req.raceId !in t.races ==> req.trackId in t.tracks)
    && (forall i :: 0 <= i < |req.results| ==> EntryReferences(t, req.raceId, req.results[i]))
  }

  /** Nil is skipped, and a row that is there already needs no check. */
  predicate EntryReferences(t: Tables, raceId: Uuid, e: Entry) {
    e.playerId == NIL || (raceId, e.playerId) in t.racePlayers || e.playerId in t.players
  }

  /** The foreign keys of the tables themselves. */
  ghost predicate Integrity(t: Tables) {
    && (forall id :: id in t.races ==> t.races[id].trackId in t.tracks)
    && (forall key: (Uuid, Uuid) :: key in t.racePlayers ==> key.0 in t.races && key.1 in t.players)
    && (forall key: (Uuid, Uuid) :: key in t.raceResults ==> key.0 in t.races && key.1 in t.players)
  }

  /** How many statements the entries take. */
  function Statements(es: seq<Entry>): nat {
    if es == [] then 0
    else Statements(es[..|es| - 1]) + if es[|es| - 1].playerId == NIL then 0 else 2
  }

  /** Two statements for every entry that is not nil's. */
  lemma {:induction false} StatementsMeaning(es: seq<Entry>)
    ensures Statements(es) == 2 * |set i | 0 <= i < |es| && es[i].playerId != NIL|
  {
    if es != [] {
      var n := |es| - 1;
      StatementsMeaning(es[..n]);
      var named := set i | 0 <= i < n && es[..n][i].playerId != NIL;
      assert (set i | 0 <= i < |es| && es[i].playerId != NIL) ==
             if es[n].playerId == NIL then named else named + {n};
    }
  }

  /** All statements succeed: the foreign keys are there, and none of them is the one that fails outside. */
  predicate Executes(t: Tables, req: Request, exec: Option<nat>) {
    References(t, req) && (exec.Some? ==> exec.value > Statements(req.results))
  }

  /**
   * Without a fault from outside all statements succeed exactly if the race or its track is on file, and each
   * player named too, or its row; with the n-th statement failing, only if there are fewer than that.
   */
  lemma ExecutesExactly(t: Tables, req: Request, exec: Option<nat>)
    ensures Executes(t, req, exec) <==>
            && (req.raceId in t.races || req.trackId in t.tracks)
            && (forall i :: 0 <= i < |req.results| ==>
                  var id := req.results[i].playerId;
                  id == 0 || id in t.players || (req.raceId, id) in t.racePlayers)
            && (exec.Some? ==> 2 * |set i | 0 <= i < |req.results| && req.results[i].playerId != 0| < exec.value)
  {
    StatementsMeaning(req.results);
    if forall i :: 0 <= i < |req.results| ==>
         var id := req.results[i].playerId; id == 0 || id in t.players || (req.raceId, id) in t.racePlayers
    {
      forall i | 0 <= i < |req.results|
        ensures EntryReferences(t, req.raceId, req.results[i])
      {
        var id := req.results[i].playerId;
      }
    }
    assert forall i :: 0 <= i < |req.results| && EntryReferences(t, req.raceId, req.results[i]) ==>
             var id := req.results[i].playerId; id == 0 || id in t.players || (req.raceId, id) in t.racePlayers;
  }

  lemma {:induction false} StatementsGrow(es: seq<Entry>, i: nat)
    requires i <= |es|
    ensures Statements(es[..i]) <= Statements(es)
  {
    if i == |es| {
      assert es[..i] == es;
    } else {
      var n := |es| - 1;
      assert es[..n][..i] == es[..i];
      StatementsGrow(es[..n], i);
    }
  }

  lemma NothingWritten(t: Tables, raceId: Uuid, es: seq<Entry>, finishedAt: int)
    ensures UpsertEntries(t, raceId, es[..0], finishedAt) == t && Statements(es[..0]) == 0
  {
  }

  lemma StatementsNext(es: seq<Entry>, i: nat)
    requires i < |es|
    ensures Statements(es[..i + 1]) == Statements(es[..i]) + if es[i].playerId == NIL then 0 else 2
  {
    assert es[..i + 1][..i] == es[..i];
  }

  lemma EntriesNext(t: Tables, raceId: Uuid, es: seq<Entry>, i: nat, finishedAt: int)
    requires i < |es|
    ensures UpsertEntries(t, raceId, es[..i + 1], finishedAt) ==
            var before := UpsertEntries(t, raceId, es[..i], finishedAt);
            if es[i].playerId == NIL then before
            else UpsertResult(UpsertPlayer(before, raceId, es[i], finishedAt), raceId, es[i])
  {
    assert es[..i + 1][..i] == es[..i];
  }

  /** The entries before it do not change whether an entry finds its player. */
  lemma {:induction false} SameReferences(t: Tables, raceId: Uuid, es: seq<Entry>, i: nat, finishedAt: int)
    requires i < |es| && forall j :: 0 <= j < i ==> EntryReferences(t, raceId, es[j])
    ensures var t' := UpsertEntries(t, raceId, es[..i], finishedAt); var id := es[i].playerId;
            EntryReferences(t, raceId, es[i]) <==> id == NIL || (raceId, id) in t'.racePlayers || id in t'.players
  {
    EntriesMeaning(t, raceId, es[..i], finishedAt, (raceId, es[i].playerId));
    LastOfMeaning(es[..i], es[i].playerId);
  }

  function OrNow(t: Option<int>, now: int): int {
    if t.Some? then t.value else now
  }

  /** What a request lacks, checked in this order. */
  function Lacking(req: Request): Option<Failure> {
    if req.raceId == NIL then Some(RaceIdRequired)
    else if req.trackId == NIL then Some(TrackIdRequired)
    else if req.results == [] then Some(EmptyResults)
    else None
  }

  // ----- the code -----

  /** What may go wrong outside: BEGIN, the n-th statement, COMMIT, and a COMMIT whose answer is lost. */
  datatype Faults = Faults(begin: bool, exec: Option<nat>, commit: bool, answerLost: bool)

  const NO_FAULTS := Faults(false, None, false, false)

  class Writer {
    var db: Tables

    constructor (db: Tables)
      ensures this.db == db
    {
      this.db := db;
    }

    /** The loop over the results: two statements for each that is not nil's, up to the first that fails. */
    method ExecEntries(begun: Tables, req: Request, finishedAt: int, exec: Option<nat>) returns (done: Option<Tables>)
      requires exec != Some(0)
      ensures done.Some? <==>
                && (forall i :: 0 <= i < |req.results| ==> EntryReferences(begun, req.raceId, req.results[i]))
                && (exec.Some? ==> exec.value > Statements(req.results))
      ensures done.Some? ==> done.value == UpsertEntries(begun, req.raceId, req.results, finishedAt)
    {
      hide *;
      NothingWritten(begun, req.raceId, req.results, finishedAt);
      var tx, statement := begun, 0;
      for i := 0 to |req.results|
        invariant tx == UpsertEntries(begun, req.raceId, req.results[..i], finishedAt)
        invariant statement == Statements(req.results[..i]) && (exec.Some? ==> exec.value > statement)
        invariant forall j :: 0 <= j < i ==> EntryReferences(begun, req.raceId, req.results[j])
      {
        SameReferences(begun, req.raceId, req.results, i, finishedAt);
        EntriesNext(begun, req.raceId, req.results, i, finishedAt);
        StatementsNext(req.results, i);
        StatementsGrow(req.results, i + 1);
        var r := req.results[i];
        if r.playerId == NIL {
          continue;
        }
        statement := statement + 1;
        if exec == Some(statement) ||
           ((req.raceId, r.playerId) !in tx.racePlayers && r.playerId !in tx.players) {
          return None;
        }
        tx := UpsertPlayer(tx, req.raceId, r, finishedAt);
        statement := statement + 1;
        if exec == Some(statement) {
          return None;
        }
        tx := UpsertResult(tx, req.raceId, r);
      }
      assert req.results[..|req.results|] == req.results;
      done := Some(tx);
    }

    /** One attempt; the clock readings are used where the request has no time. */
    method PersistRaceFinish(req: Request, startNow: int, finishNow: int, faults: Faults) returns (err: Option<Failure>)
      modifies this
      ensures err == Some(RaceIdRequired) <==> req.raceId == 0
      ensures err == Some(TrackIdRequired) <==> req.raceId != 0 && req.trackId == 0
      ensures err == Some(EmptyResults) <==> req.raceId != 0 && req.trackId != 0 && |req.results| == 0
      ensures err.None? ==>
                var startedAt := if req.startedAt.Some? then req.startedAt.value else startNow;
                var finishedAt := if req.finishedAt.Some? then req.finishedAt.value else finishNow;
                db == Applied(old(db), req, startedAt, finishedAt)
      ensures Lacking(req).Some? ==> err == Lacking(req)
      ensures Lacking(req).None? && faults.begin ==> err == Some(BeginFailed)
      ensures Lacking(req).None? && !faults.begin ==>
                err == if !Executes(old(db), req, faults.exec) then Some(ExecFailed)
                       else if faults.commit || faults.answerLost then Some(CommitFailed) else None
      ensures db == if Lacking(req).None? && !faults.begin && Executes(old(db), req, faults.exec) && !faults.commit
                    then Applied(old(db), req, OrNow(req.startedAt, startNow), OrNow(req.finishedAt, finishNow))
                    else old(db)
    {
      if req.raceId == NIL {
        return Some(RaceIdRequired);
      }
      if req.trackId == NIL {
        return Some(TrackIdRequired);
      }
      if |req.results| == 0 {
        return Some(EmptyResults);
      }
      if faults.begin {
        return Some(BeginFailed);
      }
      var tx := db;
      var startedAt := OrNow(req.startedAt, startNow);
      var finishedAt := OrNow(req.finishedAt, finishNow);
      if faults.exec == Some(0) || (req.raceId !in tx.races && req.trackId !in tx.tracks) {
        return Some(ExecFailed);
      }
      tx := UpsertRace(tx, req, startedAt, finishedAt);
      assert forall e :: EntryReferences(tx, req.raceId, e) == EntryReferences(db, req.raceId, e);
      var written := ExecEntries(tx, req, finishedAt, faults.exec);
      if written.None? {
        return Some(ExecFailed);
      }
      tx := written.value;
      if faults.commit {
        return Some(CommitFailed);
      }
      db := tx;
      err := if faults.answerLost then Some(CommitFailed) else None;
    }

    /** Two attempts at most; the wait between them may be cut short. */
    method PersistWithRetry(req: Request, startNow: int, finishNow: int, faults: Faults, cut: bool,
                            startLater: int, finishLater: int, again: Faults)
      modifies this
      ensures var first := Applied(old(db), req, OrNow(req.startedAt, startNow), OrNow(req.finishedAt, finishNow));
              var second := Applied(old(db), req, OrNow(req.startedAt, startLater), OrNow(req.finishedAt, finishLater));
              || db == old(db) || db == first || db == second
              || (req.finishedAt.None? &&
                  db == Applied(first, req, OrNow(req.startedAt, startLater), OrNow(req.finishedAt, finishLater)))
      ensures Lacking(req).Some? ==> db == old(db)
      ensures Lacking(req).None? && References(old(db), req) &&
              (faults == NO_FAULTS || (!cut && again == NO_FAULTS)) ==>
                req.raceId in db.races &&
                (req.finishedAt.Some? ==> exists s :: db == Applied(old(db), req, s, req.finishedAt.value))
      // a COMMIT whose answer is lost, and a retry that goes through: the result is written twice
      ensures Lacking(req).None? && References(old(db), req) &&
              faults == NO_FAULTS.(answerLost := true) && !cut && again == NO_FAULTS ==>
                var first := Applied(old(db), req, OrNow(req.startedAt, startNow), OrNow(req.finishedAt, finishNow));
                db == Applied(first, req, OrNow(req.startedAt, startLater), OrNow(req.finishedAt, finishLater))
    {
      ghost var s1, f1 := OrNow(req.startedAt, startNow), OrNow(req.finishedAt, finishNow);
      ghost var s2, f2 := OrNow(req.startedAt, startLater), OrNow(req.finishedAt, finishLater);
      AppliedTwice(db, req, s1, f1, s2, f2);
      StaysWritable(db, req, s1, f1);
      StaysWritable(db, req, s2, f2);
      StaysWritable(Applied(db, req, s1, f1), req, s2, f2);
      var err := PersistRaceFinish(req, startNow, finishNow, faults);
      if err.None? || cut {
        return;
      }
      var _ := PersistRaceFinish(req, startLater, finishLater, again);
    }
  }

  // ----- what a write leaves -----

  /** The last entry of a player. */
  function LastOf(es: seq<Entry>, player: Uuid): Option<Entry> {
    if es == [] then None
    else if es[|es| - 1].playerId == player then Some(es[|es| - 1])
    else LastOf(es[..|es| - 1], player)
  }

  /** The last entry is one of the list, of that player, with none of that player after it. */
  lemma {:induction false} LastOfMeaning(es: seq<Entry>, player: Uuid)
    ensures LastOf(es, player).None? <==> forall i :: 0 <= i < |es| ==> es[i].playerId != player
    ensures LastOf(es, player).Some? ==>
              exists i :: 0 <= i < |es| && es[i] == LastOf(es, player).value && es[i].playerId == player &&
                          forall j :: i < j < |es| ==> es[j].playerId != player
  {
    if es != [] && es[|es| - 1].playerId != player {
      LastOfMeaning(es[..|es| - 1], player);
    }
  }

  /** One row for each player named, from its last entry; no row for nil; every other row as before. */
  lemma {:induction false} EntriesMeaning(t: Tables, raceId: Uuid, es: seq<Entry>, finishedAt: int, key: (Uuid, Uuid))
    ensures var t' := UpsertEntries(t, raceId, es, finishedAt);
            var e := if key.0 == raceId && key.1 != NIL then LastOf(es, key.1) else None;
            && t'.races == t.races && t'.tracks == t.tracks && t'.players == t.players
            && (e.Some? ==>
                  && key in t'.racePlayers && t'.racePlayers[key].finishPosition == e.value.position
                  && t'.racePlayers[key].finishedAt == finishedAt
                  && key in t'.raceResults && t'.raceResults[key].position == e.value.position
                  && t'.raceResults[key].totalTimeMs == e.value.totalTimeMs
                  && t'.raceResults[key].bestLapMs == if e.value.bestLapMs == 0 then None else Some(e.value.bestLapMs))
            && (e.None? ==>
                  && (key in t'.racePlayers <==> key in t.racePlayers)
                  && (key in t.racePlayers ==> t'.racePlayers[key] == t.racePlayers[key])
                  && (key in t'.raceResults <==> key in t.raceResults)
                  && (key in t.raceResults ==> t'.raceResults[key] == t.raceResults[key]))
  {
    if es != [] {
      EntriesMeaning(t, raceId, es[..|es| - 1], finishedAt, key);
    }
  }

  predicate SameAt<K(==), V(==)>(a: map<K, V>, b: map<K, V>, k: K) {
    (k in a <==> k in b) && (k in a ==> a[k] == b[k])
  }

  lemma SameEverywhere<K, V>(a: map<K, V>, b: map<K, V>)
    requires forall k :: SameAt(a, b, k)
    ensures a == b
  {
    forall k
      ensures (k in a <==> k in b) && (k in a ==> a[k] == b[k])
    {
      assert SameAt(a, b, k);
    }
  }

  /** Tables with the same rows are equal. */
  lemma SameRows(a: Tables, b: Tables)
    requires a.tracks == b.tracks && a.players == b.players && a.races == b.races
    requires forall k :: SameAt(a.racePlayers, b.racePlayers, k)
    requires forall k :: SameAt(a.raceResults, b.raceResults, k)
    ensures a == b
  {
    SameEverywhere(a.racePlayers, b.racePlayers);
    SameEverywhere(a.raceResults, b.raceResults);
  }

  /** Entries written over entries: the later times stand, whatever was between. */
  lemma EntriesTwice(t: Tables, u: Tables, raceId: Uuid, es: seq<Entry>, finishedAt: int)
    requires u.tracks == t.tracks && u.players == t.players
    requires u.racePlayers == UpsertEntries(t, raceId, es, finishedAt).racePlayers
    requires u.raceResults == UpsertEntries(t, raceId, es, finishedAt).raceResults
    ensures UpsertEntries(u, raceId, es, finishedAt) == u
  {
    var a := UpsertEntries(u, raceId, es, finishedAt);
    forall k
      ensures SameAt(a.racePlayers, u.racePlayers, k) && SameAt(a.raceResults, u.raceResults, k)
    {
      EntriesMeaning(t, raceId, es, finishedAt, k);
      EntriesMeaning(u, raceId, es, finishedAt, k);
    }
    EntriesMeaning(u, raceId, es, finishedAt, (0, 0));
    SameRows(a, u);
  }

  /** Writing the same result twice is writing it once, if and only if the second write has the same FinishedAt. */
  lemma AppliedTwice(t: Tables, req: Request, s1: int, f1: int, s2: int, f2: int)
    ensures Applied(Applied(t, req, s1, f1), req, s2, f2) == Applied(t, req, s1, f1) <==> f1 == f2
  {
    var once := Applied(t, req, s1, f1);
    var begun := UpsertRace(t, req, s1, f1);
    EntriesMeaning(begun, req.raceId, req.results, f1, (0, 0));
    assert once.races == begun.races && once.races[req.raceId].finishedAt == f1;
    if f1 == f2 {
      assert UpsertRace(once, req, s2, f2).races == once.races;
      assert UpsertRace(once, req, s2, f2) == once;
      EntriesTwice(begun, once, req.raceId, req.results, f1);
    } else {
      var again := UpsertRace(once, req, s2, f2);
      EntriesMeaning(again, req.raceId, req.results, f2, (0, 0));
      assert Applied(once, req, s2, f2).races[req.raceId].finishedAt == f2;
    }
  }

  /** A write puts the race on file, and leaves what the foreign keys of another attempt need. */
  lemma StaysWritable(t: Tables, req: Request, s: int, f: int)
    ensures req.raceId in Applied(t, req, s, f).races
    ensures References(t, req) ==> References(Applied(t, req, s, f), req)
  {
    EntriesMeaning(UpsertRace(t, req, s, f), req.raceId, req.results, f, (0, 0));
    forall i | 0 <= i < |req.results| && EntryReferences(t, req.raceId, req.results[i])
      ensures EntryReferences(Applied(t, req, s, f), req.raceId, req.results[i])
    {
      EntriesMeaning(UpsertRace(t, req, s, f), req.raceId, req.results, f, (req.raceId, req.results[i].playerId));
    }
  }

  /** A write keeps the foreign keys. */
  lemma KeepsIntegrity(t: Tables, req: Request, s: int, f: int)
    requires Integrity(t) && References(t, req)
    ensures Integrity(Applied(t, req, s, f))
  {
    var t' := Applied(t, req, s, f);
    EntriesMeaning(UpsertRace(t, req, s, f), req.raceId, req.results, f, (0, 0));
    forall key: (Uuid, Uuid) | key in t'.racePlayers || key in t'.raceResults
      ensures key.0 in t'.races && key.1 in t'.players
    {
      EntriesMeaning(UpsertRace(t, req, s, f), req.raceId, req.results, f, key);
      LastOfMeaning(req.results, key.1);
    }
  }

  /** After a write the race has one result row and one participation row per player named in it or there before. */
  lemma RowsOfRace(t: Tables, req: Request, s: int, f: int, player: Uuid)
    ensures var t' := Applied(t, req, s, f); var key := (req.raceId, player);
            && (key in t'.raceResults <==> key in t.raceResults || (player != NIL && LastOf(req.results, player).Some?))
            && (key in t'.racePlayers <==> key in t.racePlayers || (player != NIL && LastOf(req.results, player).Some?))
            && (player != NIL && LastOf(req.results, player).Some? ==>
                  && var e, row := LastOf(req.results, player).value, t'.raceResults[key];
                     row.position == e.position && row.totalTimeMs == e.totalTimeMs &&
                     (row.bestLapMs == if e.bestLapMs == 0 then None else Some(e.bestLapMs)) &&
                     t'.racePlayers[key].finishPosition == e.position && t'.racePlayers[key].finishedAt == f)
            && (player == NIL || LastOf(req.results, player).None? ==>
                  && (key in t.raceResults ==> t'.raceResults[key] == t.raceResults[key])
                  && (key in t.racePlayers ==> t'.racePlayers[key] == t.racePlayers[key]))
            && (forall k: (Uuid, Uuid) :: k.0 != req.raceId ==>
                  SameAt(t.raceResults, t'.raceResults, k) && SameAt(t.racePlayers, t'.racePlayers, k))
            && req.raceId in t'.races
            && t'.races[req.raceId].status == "finished" && t'.races[req.raceId].finishedAt == f
            && (if req.raceId in t.races
                then t'.races[req.raceId].startedAt == t.races[req.raceId].startedAt &&
                     t'.races[req.raceId].trackId == t.races[req.raceId].trackId
                else t'.races[req.raceId].startedAt == s && t'.races[req.raceId].trackId == req.trackId)
            && t'.races - {req.raceId} == t.races - {req.raceId}
  {
    EntriesMeaning(UpsertRace(t, req, s, f), req.raceId, req.results, f, (req.raceId, player));
    forall k: (Uuid, Uuid) | k.0 != req.raceId
      ensures SameAt(t.raceResults, Applied(t, req, s, f).raceResults, k)
      ensures SameAt(t.racePlayers, Applied(t, req, s, f).racePlayers, k)
    {
      EntriesMeaning(UpsertRace(t, req, s, f), req.raceId, req.results, f, k);
    }
  }
}
