/** The table of game tokens and its single use: internal/matchmaking/repo.go. */
module Assignments {
  import opened Base
  import opened Tokens

  datatype Row = Row(matchId: Uuid, playerId: Uuid, token: string, expiresAt: int, consumed: bool)

  /** What a row is looked up by. */
  datatype Key = Key(matchId: Uuid, playerId: Uuid, token: string)

  predicate Hits(row: Row, k: Key) {
    row.matchId == k.matchId && row.playerId == k.playerId && row.token == k.token
  }

  predicate Hit(rows: seq<Row>, k: Key) {
    exists i :: 0 <= i < |rows| && Hits(rows[i], k)
  }

  /** UPDATE ... SET consumed = TRUE for every row of the key. */
  function Marked(rows: seq<Row>, k: Key): seq<Row> {
    seq(|rows|, i requires 0 <= i < |rows| => if Hits(rows[i], k) then rows[i].(consumed := true) else rows[i])
  }

  /** What the database may do to a call: fail the SELECT, fail the UPDATE, or lose the answer to it. */
  datatype Glitch = Smooth | SelectFails | UpdateFails | UpdateAnswerLost

  datatype Outcome = Accepted | Rejected(error: TokenError)

  /** QueryRow scans one row of the key, any one; None if there is no such row. */
  predicate Scans(rows: seq<Row>, k: Key, row: Option<Row>) {
    match row
    case Some(r) => r in rows && Hits(r, k)
    case None => !Hit(rows, k)
  }

  function Check(c: Crypto, secret: string, k: Key, row: Option<Row>, now: int): Outcome {
    match row
    case None =>
      if VerifyGameToken(c, secret, k.token, None, now) == Refused(ErrTokenExpired)
      then Rejected(ErrTokenExpired) else Rejected(ErrTokenInvalid)
    case Some(r) =>
      if r.consumed then Rejected(ErrTokenConsumed)
      else if now > r.expiresAt then Rejected(ErrTokenExpired)
      else if !VerifyHMAC(c, secret, k.token) then Rejected(ErrTokenInvalid)
      else Accepted
  }

  /** VerifyAndConsume, given the row that the SELECT scanned. */
  function Consume(c: Crypto, secret: string, rows: seq<Row>, k: Key, row: Option<Row>, now: int, g: Glitch)
    : (seq<Row>, Outcome)
  {
    if g == SelectFails then (rows, Rejected(ErrStore))
    else
      var checked := Check(c, secret, k, row, now);
      if checked.Rejected? then (rows, checked)
      else
        match g
        case UpdateFails => (rows, Rejected(ErrStore))
        case UpdateAnswerLost => (Marked(rows, k), Rejected(ErrStore))
        case _ => (Marked(rows, k), Accepted)
  }

  // ----- the code -----

  class Repo {
    var rows: seq<Row>
    const crypto: Crypto
    const tokenSecret: string

    constructor (crypto: Crypto, tokenSecret: string)
      ensures rows == [] && this.crypto == crypto && this.tokenSecret == tokenSecret
    {
      this.crypto, this.tokenSecret, rows := crypto, tokenSecret, [];
    }

    method CreateAssignment(k: Key, exp: int)
      modifies this
      ensures rows == old(rows) + [Row(k.matchId, k.playerId, k.token, exp, false)]
    {
      rows := rows + [Row(k.matchId, k.playerId, k.token, exp, false)];
    }

    method QueryRow(k: Key) returns (row: Option<Row>)
      ensures Scans(rows, k, row)
    {
      row := None;
      if Hit(rows, k) {
        var i :| 0 <= i < |rows| && Hits(rows[i], k);
        row := Some(rows[i]);
      }
    }

    method AssignmentIsFresh(k: Key, now: int, down: bool) returns (answer: Freshness, ghost row: Option<Row>)
      ensures Scans(rows, k, row)
      ensures answer == StoreDown <==> down
      ensures answer == Fresh ==> row.Some? && Check(crypto, tokenSecret, k, row, now) == Accepted
      ensures answer == Fresh ==>
                && VerifyHMAC(crypto, tokenSecret, k.token)
                && exists i :: 0 <= i < |rows| && Hits(rows[i], k) && !rows[i].consumed && now <= rows[i].expiresAt
      ensures answer == Stale ==>
                || !VerifyHMAC(crypto, tokenSecret, k.token) || !Hit(rows, k)
                || exists i :: 0 <= i < |rows| && Hits(rows[i], k) && (rows[i].consumed || now > rows[i].expiresAt)
    {
      var scanned := QueryRow(k);
      row := scanned;
      if down {
        return StoreDown, row;
      }
      if scanned.None? || scanned.value.consumed || now > scanned.value.expiresAt {
        return Stale, row;
      }
      if !VerifyHMAC(crypto, tokenSecret, k.token) {
        return Stale, row;
      }
      answer := Fresh;
    }

    method MarkConsumed(k: Key)
      modifies this
      ensures AllConsumed(rows, k) && |rows| == |old(rows)|
      ensures forall i :: 0 <= i < |rows| ==>
                rows[i] == old(rows)[i] || (Hits(rows[i], k) && rows[i] == old(rows)[i].(consumed := true))
    {
      rows := Marked(rows, k);
    }

    method VerifyAndConsume(k: Key, now: int, g: Glitch) returns (outcome: Outcome, ghost row: Option<Row>)
      modifies this
      ensures Scans(old(rows), k, row)
      ensures (rows, outcome) == Consume(crypto, tokenSecret, old(rows), k, row, now, g)
    {
      var scanned := QueryRow(k);
      row := scanned;
      if g == SelectFails {
        return Rejected(ErrStore), row;
      }
      if scanned.None? {
        var verdict := VerifyGameToken(crypto, tokenSecret, k.token, None, now);
        if verdict == Refused(ErrTokenExpired) {
          return Rejected(ErrTokenExpired), row;
        }
        return Rejected(ErrTokenInvalid), row;
      }
      if scanned.value.consumed {
        return Rejected(ErrTokenConsumed), row;
      }
      if now > scanned.value.expiresAt {
        return Rejected(ErrTokenExpired), row;
      }
      if !VerifyHMAC(crypto, tokenSecret, k.token) {
        return Rejected(ErrTokenInvalid), row;
      }
      if g == UpdateFails {
        return Rejected(ErrStore), row;
      }
      MarkConsumed(k);
      assert rows == Marked(old(rows), k);
      outcome := if g == UpdateAnswerLost then Rejected(ErrStore) else Accepted;
    }
  }

  // ----- serial runs -----

  datatype Call =
    | Create(key: Key, expiresAt: int)
    | Use(key: Key, row: Option<Row>, now: int, glitch: Glitch)
    | Mark(key: Key)

  /** The table and the keys accepted so far. */
  datatype Ledger = Ledger(rows: seq<Row>, accepted: seq<Key>)

  predicate Possible(s: Ledger, call: Call) {
    call.Use? ==> Scans(s.rows, call.key, call.row)
  }

  function Serve(c: Crypto, secret: string, s: Ledger, call: Call): Ledger {
    match call
    case Create(k, exp) => s.(rows := s.rows + [Row(k.matchId, k.playerId, k.token, exp, false)])
    case Mark(k) => s.(rows := Marked(s.rows, k))
    case Use(k, row, now, g) =>
      var (rows, outcome) := Consume(c, secret, s.rows, k, row, now, g);
      Ledger(rows, if outcome == Accepted then s.accepted + [k] else s.accepted)
  }

  function ServeAll(c: Crypto, secret: string, calls: seq<Call>): Option<Ledger> {
    if calls == [] then Some(Ledger([], []))
    else
      var before := ServeAll(c, secret, calls[..|calls| - 1]);
      var call := calls[|calls| - 1];
      if before.Some? && Possible(before.value, call) then Some(Serve(c, secret, before.value, call)) else None
  }

  function Acceptances(accepted: seq<Key>, k: Key): nat {
    if accepted == [] then 0
    else Acceptances(accepted[..|accepted| - 1], k) + if accepted[|accepted| - 1] == k then 1 else 0
  }

  function RowsOf(rows: seq<Row>, k: Key): nat {
    if rows == [] then 0
    else RowsOf(rows[..|rows| - 1], k) + if Hits(rows[|rows| - 1], k) then 1 else 0
  }

  function ConsumedRowsOf(rows: seq<Row>, k: Key): nat {
    if rows == [] then 0
    else
      var row := rows[|rows| - 1];
      ConsumedRowsOf(rows[..|rows| - 1], k) + if Hits(row, k) && row.consumed then 1 else 0
  }

  /** Same rows as before and perhaps more; none consumed has become unconsumed. */
  ghost predicate Extends(rows: seq<Row>, rows': seq<Row>) {
    |rows| <= |rows'| &&
    forall i :: 0 <= i < |rows| ==> rows'[i] == rows[i] || rows'[i] == rows[i].(consumed := true)
  }

  ghost predicate AllConsumed(rows: seq<Row>, k: Key) {
    forall i :: 0 <= i < |rows| && Hits(rows[i], k) ==> rows[i].consumed
  }

  lemma {:induction false} ConsumedAmongRows(rows: seq<Row>, k: Key)
    ensures ConsumedRowsOf(rows, k) <= RowsOf(rows, k)
    ensures AllConsumed(rows, k) ==> ConsumedRowsOf(rows, k) == RowsOf(rows, k)
  {
    if rows != [] {
      ConsumedAmongRows(rows[..|rows| - 1], k);
    }
  }

  /** Marking a key consumes all of its rows, keeps the others, and never takes a mark back. */
  lemma {:induction false} MarkedCounts(rows: seq<Row>, k: Key, other: Key)
    ensures Extends(rows, Marked(rows, k)) && AllConsumed(Marked(rows, k), k)
    ensures RowsOf(Marked(rows, k), other) == RowsOf(rows, other)
    ensures ConsumedRowsOf(Marked(rows, k), other) >= ConsumedRowsOf(rows, other)
    ensures (exists i :: 0 <= i < |rows| && Hits(rows[i], k) && !rows[i].consumed) ==>
              ConsumedRowsOf(Marked(rows, k), k) > ConsumedRowsOf(rows, k)
  {
    if rows != [] {
      var n := |rows| - 1;
      MarkedCounts(rows[..n], k, other);
      MarkedCounts(rows[..n], k, k);
      assert Marked(rows, k)[..n] == Marked(rows[..n], k);
      if i :| 0 <= i < |rows| && Hits(rows[i], k) && !rows[i].consumed {
        assert i < n ==> rows[..n][i] == rows[i];
      }
    }
  }

  /** The scanned row is of this key, was never used, has not expired, and its token is signed by this server. */
  predicate Usable(c: Crypto, secret: string, k: Key, row: Option<Row>, now: int) {
    row.Some? && !row.value.consumed && now <= row.value.expiresAt && VerifyHMAC(c, secret, k.token)
  }

  /** Each answer of VerifyAndConsume with its exact condition, and what it does to each row. */
  lemma AnswersExact(c: Crypto, secret: string, rows: seq<Row>, k: Key, row: Option<Row>, now: int, g: Glitch)
    requires Scans(rows, k, row)
    ensures var answer := Consume(c, secret, rows, k, row, now, g).1;
            && (answer == Accepted <==> g == Smooth && Usable(c, secret, k, row, now))
            && (answer == Rejected(ErrStore) <==>
                  g == SelectFails || (g != Smooth && Usable(c, secret, k, row, now)))
            && (answer == Rejected(ErrTokenConsumed) <==> g != SelectFails && row.Some? && row.value.consumed)
            && (answer == Rejected(ErrTokenExpired) <==>
                  && g != SelectFails
                  && (if row.Some? then !row.value.consumed && now > row.value.expiresAt
                      else exists claims :: Carries(c, secret, k.token, claims) && now / 1_000_000_000 > claims.exp))
    ensures var (rows', answer) := Consume(c, secret, rows, k, row, now, g);
            |rows'| == |rows| && forall i :: 0 <= i < |rows| ==>
              var mine := rows[i].matchId == k.matchId && rows[i].playerId == k.playerId && rows[i].token == k.token;
              rows'[i] == if mine && Usable(c, secret, k, row, now) && (g == Smooth || g == UpdateAnswerLost)
                          then rows[i].(consumed := true) else rows[i]
  {
    hide VerifyHMAC, Carries;
    if row.None? {
      ExpiredExactly(c, secret, k.token, now);
    }
  }

  lemma ExpiredExactly(c: Crypto, secret: string, raw: string, now: int)
    ensures VerifyGameToken(c, secret, raw, None, now) == Refused(ErrTokenExpired) <==>
            exists claims :: Carries(c, secret, raw, claims) && now / 1_000_000_000 > claims.exp
  {
    hide Carries, VerifyGameToken;
    if claims :| Carries(c, secret, raw, claims) {
      forall any | Carries(c, secret, raw, any)
        ensures VerifyGameToken(c, secret, raw, None, now) ==
                if now / 1_000_000_000 > any.exp then Refused(ErrTokenExpired) else Valid(any)
      {
        VerdictExact(c, secret, raw, None, now, any);
      }
    } else {
      VerdictExact(c, secret, raw, None, now, Claims(0, 0, 0));
    }
  }

  /** An acceptance turned at least one row of its key from unconsumed to consumed. */
  lemma AcceptanceConsumes(c: Crypto, secret: string, rows: seq<Row>, k: Key, row: Option<Row>, now: int, g: Glitch)
    requires Scans(rows, k, row) && Consume(c, secret, rows, k, row, now, g).1 == Accepted
    ensures Consume(c, secret, rows, k, row, now, g).0 == Marked(rows, k)
    ensures ConsumedRowsOf(Marked(rows, k), k) > ConsumedRowsOf(rows, k)
  {
    MarkedCounts(rows, k, k);
    var i :| 0 <= i < |rows| && rows[i] == row.value;
    assert Hits(rows[i], k) && !rows[i].consumed;
  }

  /** One call keeps every mark; an acceptance names a key all of whose rows are consumed then, one of them just now. */
  lemma OneCall(c: Crypto, secret: string, s: Ledger, call: Call, k: Key)
    requires Possible(s, call)
    ensures var s' := Serve(c, secret, s, call);
            && Extends(s.rows, s'.rows)
            && (s'.accepted == s.accepted ||
                (call.Use? && s'.accepted == s.accepted + [call.key] && AllConsumed(s'.rows, call.key)))
            && Acceptances(s'.accepted, k) - Acceptances(s.accepted, k) <=
               ConsumedRowsOf(s'.rows, k) - ConsumedRowsOf(s.rows, k)
  {
    var s' := Serve(c, secret, s, call);
    match call
    case Create(key, exp) =>
      assert s'.rows[..|s.rows|] == s.rows;
    case Mark(key) => MarkedCounts(s.rows, key, k);
    case Use(key, row, now, g) =>
      MarkedCounts(s.rows, key, k);
      if s'.accepted != s.accepted {
        AcceptanceConsumes(c, secret, s.rows, key, row, now, g);
        assert s'.accepted[..|s.accepted|] == s.accepted;
      }
  }

  /**
   * Single use over any serial run: the acceptances of a (match, player, token) are at most its consumed
   * rows, and so at most the rows created for it.
   */
  lemma {:induction false} SingleUse(c: Crypto, secret: string, calls: seq<Call>, k: Key)
    requires ServeAll(c, secret, calls).Some?
    ensures var s := ServeAll(c, secret, calls).value;
            Acceptances(s.accepted, k) <= ConsumedRowsOf(s.rows, k) <= RowsOf(s.rows, k)
  {
    if calls != [] {
      var n := |calls| - 1;
      SingleUse(c, secret, calls[..n], k);
      OneCall(c, secret, ServeAll(c, secret, calls[..n]).value, calls[n], k);
      ConsumedAmongRows(ServeAll(c, secret, calls).value.rows, k);
    }
  }

  /** Right after an acceptance no row of its key is unconsumed, however many identical rows there are. */
  lemma NothingLeftAfterAcceptance(c: Crypto, secret: string, s: Ledger, call: Call)
    requires Possible(s, call) && Serve(c, secret, s, call).accepted != s.accepted
    ensures call.Use? && AllConsumed(Serve(c, secret, s, call).rows, call.key)
    ensures forall row: Option<Row>, now: int, g: Glitch ::
              Scans(Serve(c, secret, s, call).rows, call.key, row) ==>
              Consume(c, secret, Serve(c, secret, s, call).rows, call.key, row, now, g).1.Rejected?
  {
  }

  /**
   * From signing to the game: the row of a newly signed token is the only one of its key, so the token is
   * accepted up to the time that it was given, once, and refused as expired or as consumed otherwise.
   */
  lemma NewTokenIsAcceptedOnce(c: Crypto, secret: string, s: Ledger, matchId: Uuid, playerId: Uuid, at: int,
                               row: Option<Row>, now: int, again: Option<Row>, later: int)
    requires SignGameToken(c, secret, matchId, playerId, at).Signed?
    requires var signed := SignGameToken(c, secret, matchId, playerId, at);
             var k := Key(matchId, playerId, signed.token);
             var rows := Serve(c, secret, s, Create(k, signed.expires)).rows;
             && !Hit(s.rows, k) && Scans(rows, k, row)
             && Scans(Consume(c, secret, rows, k, row, now, Smooth).0, k, again)
    ensures var signed := SignGameToken(c, secret, matchId, playerId, at);
            var k := Key(matchId, playerId, signed.token);
            var rows := Serve(c, secret, s, Create(k, signed.expires)).rows;
            var (rows', first) := Consume(c, secret, rows, k, row, now, Smooth);
            var second := Consume(c, secret, rows', k, again, later, Smooth).1;
            && first == (if now <= signed.expires then Accepted else Rejected(ErrTokenExpired))
            && (now <= signed.expires ==> second == Rejected(ErrTokenConsumed))
  {
    var signed := SignGameToken(c, secret, matchId, playerId, at);
    var k := Key(matchId, playerId, signed.token);
    var payload := EncodeToString(c.marshal(Claims(matchId, playerId, Unix(at + TOKEN_TTL))));
    assert signed.token == payload + "." + Signature(c, secret, payload);
    HmacExact(c, secret, signed.token);
    var rows := Serve(c, secret, s, Create(k, signed.expires)).rows;
    OnlyRow(s.rows, k, signed.expires, row);
    MarkedCounts(rows, k, k);
    if now <= signed.expires {
      var rows' := Marked(rows, k);
      assert Hits(rows'[|s.rows|], k);
      var i :| 0 <= i < |rows'| && rows'[i] == again.value;
    }
  }

  lemma OnlyRow(rows: seq<Row>, k: Key, exp: int, row: Option<Row>)
    requires !Hit(rows, k) && Scans(rows + [Row(k.matchId, k.playerId, k.token, exp, false)], k, row)
    ensures row == Some(Row(k.matchId, k.playerId, k.token, exp, false))
  {
    var more := rows + [Row(k.matchId, k.playerId, k.token, exp, false)];
    assert Hits(more[|rows|], k);
    assert forall i :: 0 <= i < |rows| ==> more[i] == rows[i] && !Hits(rows[i], k);
  }
}
