/** Keyset pagination of a player's races: ListByPlayer of internal/racehistory. */
module RaceHistory {
  import opened Base

  /** One row of race_results joined with its race; finishedAt is NULL for a race that is not finished. */
  datatype Row = Row(raceId: Uuid, playerId: Uuid, trackName: string, finishedAt: Option<int>,
                     position: int, totalTimeMs: int, bestLapMs: int)

  datatype Page = Page(races: seq<Row>, nextCursor: Option<int>)

  type Table = set<Row>

  const DEFAULT_LIMIT := 20
  const MAX_LIMIT := 100

  function Clamped(limit: int): (n: nat)
    ensures 1 <= n <= MAX_LIMIT
  {
    if limit <= 0 then DEFAULT_LIMIT else if limit > MAX_LIMIT then MAX_LIMIT else limit
  }

  /** The rows of either WHERE clause: finished, and before the cursor if there is one. */
  function Matching(table: Table, player: Uuid, cursor: Option<int>): Table {
    set row | row in table && row.playerId == player && row.finishedAt.Some? &&
              (cursor.Some? ==> row.finishedAt.value < cursor.value)
  }

  ghost predicate AllFinished(rows: Table) {
    forall row :: row in rows ==> row.finishedAt.Some?
  }

  ghost predicate Descending(rows: seq<Row>) {
    && (forall i :: 0 <= i < |rows| ==> rows[i].finishedAt.Some?)
    && (forall i, j :: 0 <= i < j < |rows| ==> rows[i].finishedAt.value >= rows[j].finishedAt.value)
  }

  function Rows(rows: seq<Row>): Table {
    set row | row in rows
  }

  /** What ORDER BY finished_at DESC LIMIT n may answer: n of the latest rows; ties in any order. */
  ghost predicate Answers(m: Table, limit: nat, rows: seq<Row>) {
    && Rows(rows) <= m && NoDup(rows) && Descending(rows)
    && |rows| <= limit && (|rows| < limit ==> Rows(rows) == m)
    && (forall row :: row in m && row !in Rows(rows) ==> NotLater(row, rows))
  }

  ghost predicate NotLater(row: Row, rows: seq<Row>) {
    row.finishedAt.Some? &&
    forall i :: 0 <= i < |rows| && rows[i].finishedAt.Some? ==> row.finishedAt.value <= rows[i].finishedAt.value
  }

  lemma {:induction false} Latest(rest: Table) returns (latest: Row)
    requires rest != {} && AllFinished(rest)
    ensures latest in rest && forall row :: row in rest ==> row.finishedAt.value <= latest.finishedAt.value
  {
    var some :| some in rest;
    if rest == {some} {
      latest := some;
    } else {
      latest := Latest(rest - {some});
      if latest.finishedAt.value < some.finishedAt.value {
        latest := some;
      }
    }
  }

  /** The database's part. */
  method Query(table: Table, player: Uuid, cursor: Option<int>, limit: nat) returns (rows: seq<Row>)
    ensures Answers(Matching(table, player, cursor), limit, rows)
  {
    var m := Matching(table, player, cursor);
    rows := [];
    var rest := m;
    while rest != {} && |rows| < limit
      invariant rest <= m && Rows(rows) == m - rest && NoDup(rows) && Descending(rows) && |rows| <= limit
      invariant forall row :: row in rest ==> NotLater(row, rows)
      decreases rest
    {
      ghost var latest := Latest(rest);
      var next :| next in rest && forall row :: row in rest ==> row.finishedAt.value <= next.finishedAt.value;
      forall i | 0 <= i < |rows|
        ensures rows[i] != next
      {
        assert rows[i] in Rows(rows);
      }
      assert Rows(rows + [next]) == Rows(rows) + {next};
      rows := rows + [next];
      rest := rest - {next};
    }
  }

  /** A page that ListByPlayer may answer. */
  ghost predicate IsPage(table: Table, player: Uuid, cursor: Option<int>, limit: int, page: Page) {
    && Answers(Matching(table, player, cursor), Clamped(limit), page.races)
    && page.nextCursor == if |page.races| == Clamped(limit) then page.races[|page.races| - 1].finishedAt else None
  }

  method ListByPlayer(table: Table, player: Uuid, cursor: Option<int>, limit: int) returns (out: Page)
    ensures IsPage(table, player, cursor, limit, out)
  {
    var n := limit;
    if n <= 0 {
      n := DEFAULT_LIMIT;
    }
    if n > MAX_LIMIT {
      n := MAX_LIMIT;
    }
    var rows := Query(table, player, cursor, n);
    var races := [];
    for i := 0 to |rows|
      invariant races == rows[..i]
    {
      races := races + [rows[i]];
    }
    out := Page(races, None);
    if |races| == n {
      var last := races[|races| - 1];
      if last.finishedAt.Some? {
        out := out.(nextCursor := last.finishedAt);
      }
    }
  }

  /** Finished races of the player, before the cursor if there is one. */
  predicate Asked(row: Row, player: Uuid, cursor: Option<int>) {
    row.playerId == player && row.finishedAt.Some? && (cursor.Some? ==> row.finishedAt.value < cursor.value)
  }

  /**
   * What a page holds: asked-for rows of the table, latest first, none twice; 20 of them by default and never
   * more than 100; a cursor exactly for a full page, at its last row; and nothing later than that is missing.
   */
  lemma PageMeaning(table: Table, player: Uuid, cursor: Option<int>, limit: int, page: Page)
    requires IsPage(table, player, cursor, limit, page)
    ensures var n := if limit <= 0 then 20 else if limit <= 100 then limit else 100;
            |page.races| <= n && (page.nextCursor.Some? <==> |page.races| == n)
    ensures forall i :: 0 <= i < |page.races| ==> page.races[i] in table && Asked(page.races[i], player, cursor)
    ensures forall i, j :: 0 <= i < j < |page.races| ==>
              page.races[i] != page.races[j] &&
              page.races[i].finishedAt.value >= page.races[j].finishedAt.value
    ensures page.nextCursor.Some? ==> page.nextCursor == page.races[|page.races| - 1].finishedAt
    ensures forall row :: row in table && row !in page.races && Asked(row, player, cursor) ==>
              page.nextCursor.Some? && row.finishedAt.value <= page.nextCursor.value
  {
    var m := Matching(table, player, cursor);
    forall i | 0 <= i < |page.races|
      ensures page.races[i] in table && Asked(page.races[i], player, cursor)
    {
      assert page.races[i] in Rows(page.races) && page.races[i] in m;
    }
    forall row | row in table && row !in page.races && Asked(row, player, cursor)
      ensures page.nextCursor.Some? && row.finishedAt.value <= page.nextCursor.value
    {
      assert row in m && row !in Rows(page.races) && NotLater(row, page.races);
    }
  }

  // ----- walking the pages -----

  /** Pages asked for one after the other, each from the cursor of the one before, to the last. */
  ghost predicate IsWalk(table: Table, player: Uuid, cursor: Option<int>, limit: int, pages: seq<Page>)
    decreases |pages|
  {
    && pages != []
    && IsPage(table, player, cursor, limit, pages[0])
    && if pages[0].nextCursor.None? then |pages| == 1
       else IsWalk(table, player, pages[0].nextCursor, limit, pages[1..])
  }

  function Races(pages: seq<Page>): seq<Row> {
    if pages == [] then [] else pages[0].races + Races(pages[1..])
  }

  /** Every page but the last brings fewer rows to come: a walk ends. */
  lemma PagesShrink(table: Table, player: Uuid, cursor: Option<int>, limit: int, page: Page)
    requires IsPage(table, player, cursor, limit, page) && page.nextCursor.Some?
    ensures Matching(table, player, page.nextCursor) < Matching(table, player, cursor)
    ensures |Matching(table, player, page.nextCursor)| < |Matching(table, player, cursor)|
  {
    var m, next := Matching(table, player, cursor), Matching(table, player, page.nextCursor);
    var last := page.races[|page.races| - 1];
    assert last in Rows(page.races) && last !in next;
    assert next <= m - {last};
    SubsetSize(next, m - {last});
  }

  /** A client that asks for page after page gets to the end. */
  method WalkFrom(table: Table, player: Uuid, cursor: Option<int>, limit: int) returns (pages: seq<Page>)
    ensures IsWalk(table, player, cursor, limit, pages)
    decreases |Matching(table, player, cursor)|
  {
    var page := ListByPlayer(table, player, cursor, limit);
    if page.nextCursor.None? {
      pages := [page];
    } else {
      PagesShrink(table, player, cursor, limit, page);
      var rest := WalkFrom(table, player, page.nextCursor, limit);
      pages := [page] + rest;
      assert pages[1..] == rest;
    }
  }

  lemma {:induction false} SubsetSize<T>(a: set<T>, b: set<T>)
    requires a <= b
    ensures |a| <= |b|
  {
    if a != {} {
      var x :| x in a;
      SubsetSize(a - {x}, b - {x});
    }
  }

  /** A page that ends between rows of the same finishing time: the next cursor skips the others. */
  ghost predicate CutsTie(table: Table, player: Uuid, cursor: Option<int>, page: Page) {
    page.nextCursor.Some? &&
    exists row :: row in Matching(table, player, cursor) && row !in page.races && row.finishedAt == page.nextCursor
  }

  ghost predicate NeverCutsTie(table: Table, player: Uuid, cursor: Option<int>, pages: seq<Page>)
    decreases |pages|
  {
    pages != [] ==>
      !CutsTie(table, player, cursor, pages[0]) && NeverCutsTie(table, player, pages[0].nextCursor, pages[1..])
  }

  /** What a page with a cursor leaves for later is what does not tie with its last row. */
  lemma LeftForLater(table: Table, player: Uuid, cursor: Option<int>, limit: int, page: Page)
    requires IsPage(table, player, cursor, limit, page) && page.nextCursor.Some?
    ensures Rows(page.races) !! Matching(table, player, page.nextCursor)
    ensures Rows(page.races) + Matching(table, player, page.nextCursor) <= Matching(table, player, cursor)
    ensures Rows(page.races) + Matching(table, player, page.nextCursor) == Matching(table, player, cursor) <==>
            !CutsTie(table, player, cursor, page)
  {
    var m, next := Matching(table, player, cursor), Matching(table, player, page.nextCursor);
    var n := |page.races| - 1;
    assert page.races[n] in Rows(page.races) && page.races[n] in m;
    forall row | row in Rows(page.races)
      ensures row !in next
    {
      var i :| 0 <= i < |page.races| && page.races[i] == row;
      assert page.races[i].finishedAt.value >= page.races[n].finishedAt.value;
    }
    forall row | row in m && row !in Rows(page.races)
      ensures row in next <==> row.finishedAt != page.nextCursor
    {
      assert NotLater(row, page.races);
    }
    if CutsTie(table, player, cursor, page) {
      var row :| row in m && row !in page.races && row.finishedAt == page.nextCursor;
      assert row !in next && row !in Rows(page.races);
    }
    forall row | row in m && row !in Rows(page.races) + next
      ensures CutsTie(table, player, cursor, page)
    {
      assert row !in page.races;
    }
  }

  /** Rows of m, none twice, latest first. */
  ghost predicate Brought(all: seq<Row>, m: Table) {
    Rows(all) <= m && NoDup(all) && Descending(all)
  }

  lemma FirstPage(table: Table, player: Uuid, cursor: Option<int>, limit: int, page: Page, rest: seq<Row>)
    requires IsPage(table, player, cursor, limit, page) && page.nextCursor.Some?
    requires Brought(rest, Matching(table, player, page.nextCursor))
    ensures Brought(page.races + rest, Matching(table, player, cursor))
    ensures Rows(page.races + rest) == Matching(table, player, cursor) <==>
            !CutsTie(table, player, cursor, page) && Rows(rest) == Matching(table, player, page.nextCursor)
  {
    LeftForLater(table, player, cursor, limit, page);
    assert Rows(page.races + rest) == Rows(page.races) + Rows(rest);
    WholeByParts(Rows(page.races), Rows(rest), Matching(table, player, page.nextCursor),
                 Matching(table, player, cursor));
    Joined(page.races, rest, page.nextCursor.value);
  }

  /**
   * A walk from the first page to the last brings races of the player only, none twice, latest first,
   * and it brings all of them if and only if no page cuts a tie.
   */
  lemma {:induction false} WalkExact(table: Table, player: Uuid, cursor: Option<int>, limit: int, pages: seq<Page>)
    requires IsWalk(table, player, cursor, limit, pages)
    ensures Brought(Races(pages), Matching(table, player, cursor))
    ensures Rows(Races(pages)) == Matching(table, player, cursor) <==> NeverCutsTie(table, player, cursor, pages)
    decreases |pages|
  {
    var page := pages[0];
    if page.nextCursor.None? {
      assert pages[1..] == [] && Races(pages) == page.races;
    } else {
      WalkExact(table, player, page.nextCursor, limit, pages[1..]);
      FirstPage(table, player, cursor, limit, page, Races(pages[1..]));
    }
  }

  lemma WholeByParts(first: Table, rest: Table, next: Table, m: Table)
    requires rest <= next && first !! next && first + next <= m
    ensures first + rest <= m
    ensures first + rest == m <==> first + next == m && rest == next
  {
  }

  lemma Joined(first: seq<Row>, rest: seq<Row>, cursor: int)
    requires NoDup(first) && NoDup(rest) && Descending(first) && Descending(rest)
    requires first != [] && first[|first| - 1].finishedAt == Some(cursor)
    requires forall row :: row in Rows(rest) ==> row.finishedAt.Some? && row.finishedAt.value < cursor
    ensures NoDup(first + rest) && Descending(first + rest)
  {
  }

  // ----- which tables lose rows -----

  /** The rows of m that finished after the given time, and those that finished then or after. */
  function After(m: Table, time: int): Table {
    set row | row in m && row.finishedAt.Some? && row.finishedAt.value > time
  }

  function Since(m: Table, time: int): Table {
    set row | row in m && row.finishedAt.Some? && row.finishedAt.value >= time
  }

  /** Rows of the same time at the places up to k and from k on, latest first, with pages of n ending at k. */
  predicate EndsInTie(m: Table, n: nat, time: int, k: nat)
    requires n > 0
  {
    |After(m, time)| < k < |Since(m, time)| && k % n == 0
  }

  /** Somewhere a page of n rows would end between rows of the same time. */
  ghost predicate TieAcrossPages(m: Table, n: nat)
    requires n > 0
  {
    exists time: int, k: nat :: EndsInTie(m, n, time, k)
  }

  lemma ProperSize(a: Table, b: Table)
    requires a <= b
    ensures |a| <= |b|
    ensures a != b ==> |a| < |b|
  {
    SubsetSize(a, b);
    if x :| x in b && x !in a {
      SubsetSize(a, b - {x});
    }
  }

  lemma OnePageLess(k: nat, n: nat)
    requires 0 < n <= k
    ensures (k - n) % n == k % n
  {
    var q, r := (k - n) / n, (k - n) % n;
    assert k - n == q * n + r;
    assert (q + 1) * n == q * n + n;
    Quotient(k, n, q + 1, r);
  }

  /** A full page holds a tie's rows up to its end: it cuts the tie exactly when more rows are that late. */
  lemma CutIsTooMany(table: Table, player: Uuid, cursor: Option<int>, limit: int, page: Page)
    requires IsPage(table, player, cursor, limit, page) && page.nextCursor.Some?
    ensures var m, n, t := Matching(table, player, cursor), Clamped(limit), page.nextCursor.value;
            && Rows(page.races) <= Since(m, t) && |Rows(page.races)| == n && |After(m, t)| < n
            && (CutsTie(table, player, cursor, page) <==> n < |Since(m, t)|)
            && (!CutsTie(table, player, cursor, page) ==> Since(m, t) == Rows(page.races))
  {
    var m, n, t := Matching(table, player, cursor), Clamped(limit), page.nextCursor.value;
    var races := Rows(page.races);
    var last := page.races[|page.races| - 1];
    NoDupSize(page.races);
    assert Rows(page.races) == Elements(page.races);
    forall row | row in races
      ensures row in Since(m, t)
    {
      var i :| 0 <= i < |page.races| && page.races[i] == row;
      assert page.races[i].finishedAt.value >= last.finishedAt.value;
    }
    forall row | row in m && row !in races
      ensures row.finishedAt.value <= t
    {
      assert NotLater(row, page.races);
    }
    assert last in races;
    assert After(m, t) <= races - {last};
    SubsetSize(After(m, t), races - {last});
    ProperSize(races, Since(m, t));
    if races != Since(m, t) {
      var row :| row in Since(m, t) && row !in races;
      assert row !in page.races && row.finishedAt == page.nextCursor;
    }
    if CutsTie(table, player, cursor, page) {
      var row :| row in m && row !in page.races && row.finishedAt == page.nextCursor;
      assert row in Since(m, t) && row !in races;
    }
  }

  /** After a page that cuts no tie the same ties lie across the pages to come. */
  lemma TiesGoOn(m: Table, first: Table, next: Table, n: nat, t: int)
    requires 0 < n == |first| && AllFinished(m)
    requires first == Since(m, t) && next == m - first
    ensures TieAcrossPages(m, n) <==> TieAcrossPages(next, n)
  {
    forall time: int, k: nat | EndsInTie(m, n, time, k)
      ensures k >= n && EndsInTie(next, n, time, k - n)
    {
      if time >= t {
        SubsetSize(Since(m, time), first);
        assert k < n;
        Quotient(k, n, 0, k);
      }
      Shift(m, first, next, time, t);
      OnePageLess(k, n);
    }
    forall time: int, k: nat | EndsInTie(next, n, time, k)
      ensures EndsInTie(m, n, time, k + n)
    {
      TieIsEarlier(m, next, n, time, k, t);
      Shift(m, first, next, time, t);
      OnePageLess(k + n, n);
    }
    if TieAcrossPages(next, n) {
      var time: int, k: nat :| EndsInTie(next, n, time, k);
      assert EndsInTie(m, n, time, k + n);
    }
  }

  lemma TieIsEarlier(m: Table, next: Table, n: nat, time: int, k: nat, t: int)
    requires n > 0 && EndsInTie(next, n, time, k) && next == m - Since(m, t)
    ensures time < t
  {
    assert Since(next, time) != {};
    var row :| row in Since(next, time);
    assert row in m && row !in Since(m, t);
  }

  lemma Shift(m: Table, first: Table, next: Table, time: int, t: int)
    requires AllFinished(m) && first == Since(m, t) && next == m - first && time < t
    ensures |After(m, time)| == |After(next, time)| + |first|
    ensures |Since(m, time)| == |Since(next, time)| + |first|
  {
    assert After(m, time) == After(next, time) + first && After(next, time) !! first;
    assert Since(m, time) == Since(next, time) + first && Since(next, time) !! first;
  }

  lemma {:induction false} WalkLosesTies(table: Table, player: Uuid, cursor: Option<int>, limit: int, pages: seq<Page>)
    requires IsWalk(table, player, cursor, limit, pages)
    ensures NeverCutsTie(table, player, cursor, pages) <==>
            !TieAcrossPages(Matching(table, player, cursor), Clamped(limit))
    decreases |pages|
  {
    var page, m, n := pages[0], Matching(table, player, cursor), Clamped(limit);
    NoDupSize(page.races);
    assert Rows(page.races) == Elements(page.races);
    if page.nextCursor.None? {
      assert pages[1..] == [] && |m| < n;
      forall time: int, k: nat
        ensures !EndsInTie(m, n, time, k)
      {
        SubsetSize(Since(m, time), m);
        if 0 < k < n {
          Quotient(k, n, 0, k);
        }
      }
    } else {
      CutIsTooMany(table, player, cursor, limit, page);
      var t := page.nextCursor.value;
      if CutsTie(table, player, cursor, page) {
        Quotient(n, n, 1, 0);
        assert EndsInTie(m, n, t, n);
      } else {
        var next := Matching(table, player, page.nextCursor);
        assert next == m - Since(m, t);
        TiesGoOn(m, Rows(page.races), next, n, t);
        WalkLosesTies(table, player, page.nextCursor, limit, pages[1..]);
      }
    }
  }

  /**
   * A walk brings every race if and only if no page boundary lies in a tie: with the player's finished races
   * counted from the latest, no multiple of the page size falls strictly inside the places of one time.
   */
  lemma WalkComplete(table: Table, player: Uuid, limit: int, pages: seq<Page>)
    requires IsWalk(table, player, None, limit, pages)
    ensures Rows(Races(pages)) == Matching(table, player, None) <==>
            !TieAcrossPages(Matching(table, player, None), Clamped(limit))
  {
    WalkExact(table, player, None, limit, pages);
    WalkLosesTies(table, player, None, limit, pages);
  }

  ghost predicate DistinctTimes(table: Table) {
    forall a, b :: a in table && b in table && a != b && a.playerId == b.playerId && a.finishedAt.Some? ==>
      a.finishedAt != b.finishedAt
  }

  lemma {:induction false} DistinctNeverCuts(table: Table, player: Uuid, cursor: Option<int>, limit: int,
                                             pages: seq<Page>)
    requires DistinctTimes(table) && IsWalk(table, player, cursor, limit, pages)
    ensures NeverCutsTie(table, player, cursor, pages)
    decreases |pages|
  {
    var page := pages[0];
    if page.nextCursor.Some? {
      DistinctNeverCuts(table, player, page.nextCursor, limit, pages[1..]);
      var last := page.races[|page.races| - 1];
      assert last in Rows(page.races);
    } else {
      assert pages[1..] == [];
    }
  }

  /** With distinct finishing times a walk brings each finished race exactly once, latest first, at every limit. */
  lemma WalkBringsAll(table: Table, player: Uuid, limit: int, pages: seq<Page>)
    requires DistinctTimes(table) && IsWalk(table, player, None, limit, pages)
    ensures var all := Races(pages);
            && NoDup(all) && Descending(all)
            && (forall row :: row in all <==> row in table && row.playerId == player && row.finishedAt.Some?)
  {
    WalkExact(table, player, None, limit, pages);
    DistinctNeverCuts(table, player, None, limit, pages);
    var all := Races(pages);
    forall row
      ensures row in all <==> row in Matching(table, player, None)
    {
      assert row in all <==> row in Rows(all);
    }
  }

  /** Two races of one player that finished at the same time, asked for one by one: only one is brought. */
  lemma TieCounterexample(a: Row, b: Row, pages: seq<Page>)
    requires a != b && a.playerId == b.playerId && a.finishedAt == b.finishedAt == Some(5)
    requires IsWalk({a, b}, a.playerId, None, 1, pages)
    ensures Rows(Races(pages)) != Matching({a, b}, a.playerId, None)
  {
    var m := Matching({a, b}, a.playerId, None);
    assert m == {a, b};
    var page := pages[0];
    WalkExact({a, b}, a.playerId, None, 1, pages);
    assert a in m && page.races != [];
    var other := if page.races[0] == a then b else a;
    assert page.races[0] in Rows(page.races);
    assert other in m && other !in page.races;
    assert CutsTie({a, b}, a.playerId, None, page);
  }
}
