/** The subscription table of internal/networking/broadcast.go: a map and a list of the same entries. */
module Subscribers {
  import opened Base

  type Addr = string

  class Subscription {
    const playerId: Uuid
    const addr: Option<Addr>

    constructor (playerId: Uuid, addr: Option<Addr>)
      ensures this.playerId == playerId && this.addr == addr
    {
      this.playerId := playerId;
      this.addr := addr;
    }
  }

  // ----- the table as a map and a sequence -----

  /** The list holds exactly the entries of the map, each once. */
  ghost predicate Agree(byId: map<Uuid, Subscription>, list: seq<Subscription?>) {
    && (forall i :: 0 <= i < |list| ==>
          list[i] != null && list[i].playerId in byId && byId[list[i].playerId] == list[i])
    && (forall i, j :: 0 <= i < j < |list| ==> list[i] != list[j])
    && (forall id :: id in byId ==> byId[id].playerId == id && byId[id] in list)
  }

  function Filter(list: seq<Subscription?>, id: Uuid): seq<Subscription?> {
    if list == [] then []
    else
      var last := list[|list| - 1];
      Filter(list[..|list| - 1], id) + if last != null && last.playerId == id then [] else [last]
  }

  /**
   * Filter drops the entries of one player and keeps all others in their order: its k-th element is
   * the element at pos[k], pos rises, and pos names every place that holds another player.
   */
  lemma {:induction false} FilterMeaning(list: seq<Subscription?>, id: Uuid) returns (pos: seq<nat>)
    requires forall i :: 0 <= i < |list| ==> list[i] != null
    ensures |pos| == |Filter(list, id)|
    ensures forall k :: 0 <= k < |pos| ==>
              pos[k] < |list| && Filter(list, id)[k] == list[pos[k]] && list[pos[k]].playerId != id
    ensures forall k, l :: 0 <= k < l < |pos| ==> pos[k] < pos[l]
    ensures forall i :: 0 <= i < |list| && list[i].playerId != id ==> i in pos
  {
    if list == [] {
      pos := [];
    } else {
      var n := |list| - 1;
      var before := FilterMeaning(list[..n], id);
      pos := before + if list[n].playerId == id then [] else [n];
      forall i | 0 <= i < |list| && list[i].playerId != id
        ensures i in pos
      {
        assert i < n ==> list[..n][i].playerId != id;
        assert i == n ==> pos[|pos| - 1] == n;
      }
    }
  }

  lemma AgreeAdd(byId: map<Uuid, Subscription>, list: seq<Subscription?>, sub: Subscription)
    requires Agree(byId, list) && sub.playerId !in byId
    ensures Agree(byId[sub.playerId := sub], list + [sub])
  {
  }

  lemma AgreeRemove(byId: map<Uuid, Subscription>, list: seq<Subscription?>, id: Uuid)
    requires Agree(byId, list)
    ensures Agree(byId - {id}, Filter(list, id))
  {
    var pos := FilterMeaning(list, id);
    var byId', list' := byId - {id}, Filter(list, id);
    forall i | i in byId'
      ensures byId'[i].playerId == i && byId'[i] in list'
    {
      var j :| 0 <= j < |list| && list[j] == byId[i];
      var k :| 0 <= k < |pos| && pos[k] == j;
      assert list'[k] == byId[i];
    }
    forall i, j | 0 <= i < j < |list'|
      ensures list'[i] != list'[j]
    {
      assert list[pos[i]] != list[pos[j]];
    }
  }

  /** One call, as seen by the table; Join carries the entry that Add would make. */
  datatype Call = Join(sub: Subscription) | Leave(id: Uuid)

  function After(byId: map<Uuid, Subscription>, list: seq<Subscription?>, calls: seq<Call>)
    : (map<Uuid, Subscription>, seq<Subscription?>)
  {
    if calls == [] then (byId, list)
    else
      var (b, l) := After(byId, list, calls[..|calls| - 1]);
      match calls[|calls| - 1]
      case Join(sub) => if sub.playerId in b then (b, l) else (b[sub.playerId := sub], l + [sub])
      case Leave(id) => (b - {id}, Filter(l, id))
  }

  /** Map and list agree after any calls. */
  lemma {:induction false} AlwaysAgree(calls: seq<Call>)
    ensures var (byId, list) := After(map[], [], calls); Agree(byId, list)
  {
    if calls != [] {
      AlwaysAgree(calls[..|calls| - 1]);
      var (byId, list) := After(map[], [], calls[..|calls| - 1]);
      match calls[|calls| - 1]
      case Join(sub) =>
        if sub.playerId !in byId {
          AgreeAdd(byId, list, sub);
        }
      case Leave(id) => AgreeRemove(byId, list, id);
    }
  }

  // ----- the code -----

  class Subscriptions {
    var byId: map<Uuid, Subscription>
    var all: array<Subscription?>  // the slice: its backing array,
    var len: nat                   // and its length

    ghost predicate Valid()
      reads this, all
    {
      len <= all.Length && Agree(byId, List())
    }

    ghost function List(): seq<Subscription?>
      reads this, all
    {
      if len <= all.Length then all[..len] else []
    }

    constructor ()
      ensures Valid() && fresh(all) && byId == map[] && List() == []
    {
      byId, len := map[], 0;
      all := new Subscription?[0];
    }

    method Add(playerId: Uuid, addr: Option<Addr>) returns (added: bool)
      requires Valid()
      modifies this, all
      ensures Valid() && (all == old(all) || fresh(all))
      ensures added == (playerId !in old(byId))
      ensures !added ==> byId == old(byId) && List() == old(List())
      ensures added ==> playerId in byId && fresh(byId[playerId]) && byId[playerId].addr == addr &&
                        byId == old(byId)[playerId := byId[playerId]] && List() == old(List()) + [byId[playerId]]
    {
      if playerId in byId {
        return false;
      }
      var sub := new Subscription(playerId, addr);
      AgreeAdd(byId, List(), sub);
      byId := byId[playerId := sub];
      Append(sub);
      added := true;
    }

    /** append: in place while there is room, else into a larger array. */
    method Append(sub: Subscription)
      requires len <= all.Length
      modifies this`all, this`len, all
      ensures len <= all.Length && (all == old(all) || fresh(all))
      ensures List() == old(List()) + [sub]
    {
      if len == all.Length {
        var larger := new Subscription?[2 * len + 1];
        for i := 0 to len
          invariant all == old(all) && len == old(len) && all[..] == old(all[..]) && larger[..i] == all[..i]
        {
          larger[i] := all[i];
        }
        all := larger;
      }
      all[len] := sub;
      len := len + 1;
    }

    method Remove(playerId: Uuid)
      requires Valid()
      modifies this, all
      ensures Valid() && all == old(all)
      ensures byId == old(byId) - {playerId} && List() == Filter(old(List()), playerId)
    {
      AgreeRemove(byId, List(), playerId);
      byId := byId - {playerId};
      len := Compact(playerId);
    }

    /** The filter into s.all[:0]: survivors move down over the entries already read. */
    method Compact(playerId: Uuid) returns (kept: nat)
      requires len <= all.Length && forall i :: 0 <= i < len ==> all[i] != null
      modifies all
      ensures kept <= len && all[..kept] == Filter(old(all[..len]), playerId)
    {
      ghost var list := all[..len];
      kept := 0;
      for i := 0 to len
        invariant kept <= i
        invariant all[..kept] == Filter(list[..i], playerId)
        invariant forall k :: i <= k < len ==> all[k] == list[k]
      {
        assert list[..i + 1][..i] == list[..i];
        var sub := all[i];
        if sub.playerId != playerId {
          all[kept] := sub;
          kept := kept + 1;
        }
      }
      assert list[..len] == list;
    }

    method All() returns (out: array<Subscription?>)
      requires Valid()
      ensures fresh(out) && out[..] == List()
    {
      out := new Subscription?[len];
      for i := 0 to len
        invariant out[..i] == all[..i]
      {
        out[i] := all[i];
      }
    }
  }

  // ----- what clients see -----

  datatype Request = Subscribe(id: Uuid, addr: Option<Addr>) | Unsubscribe(id: Uuid)

  /** The list as clients see it: players and addresses, in order. */
  function Shown(list: seq<Subscription?>): seq<(Uuid, Option<Addr>)>
    requires forall i :: 0 <= i < |list| ==> list[i] != null
  {
    seq(|list|, i requires 0 <= i < |list| => (list[i].playerId, list[i].addr))
  }

  function Without(shown: seq<(Uuid, Option<Addr>)>, id: Uuid): seq<(Uuid, Option<Addr>)> {
    if shown == [] then []
    else
      var last := shown[|shown| - 1];
      Without(shown[..|shown| - 1], id) + if last.0 == id then [] else [last]
  }

  predicate Knows(shown: seq<(Uuid, Option<Addr>)>, id: Uuid) {
    exists i :: 0 <= i < |shown| && shown[i].0 == id
  }

  /** What a request makes of a list: a new player goes to the end, a leaving one is cut out. */
  function ServedOne(shown: seq<(Uuid, Option<Addr>)>, request: Request): seq<(Uuid, Option<Addr>)> {
    match request
    case Subscribe(id, addr) => if Knows(shown, id) then shown else shown + [(id, addr)]
    case Unsubscribe(id) => Without(shown, id)
  }

  function Served(shown: seq<(Uuid, Option<Addr>)>, requests: seq<Request>): seq<(Uuid, Option<Addr>)> {
    if requests == [] then shown
    else ServedOne(Served(shown, requests[..|requests| - 1]), requests[|requests| - 1])
  }

  lemma {:induction false} ShownFilter(list: seq<Subscription?>, id: Uuid)
    requires forall i :: 0 <= i < |list| ==> list[i] != null
    ensures forall i :: 0 <= i < |Filter(list, id)| ==> Filter(list, id)[i] != null
    ensures Shown(Filter(list, id)) == Without(Shown(list), id)
  {
    if list != [] {
      var n := |list| - 1;
      ShownFilter(list[..n], id);
      assert Shown(list)[..n] == Shown(list[..n]);
    }
  }

  lemma KnowsItsPlayers(byId: map<Uuid, Subscription>, list: seq<Subscription?>, id: Uuid)
    requires Agree(byId, list)
    ensures Knows(Shown(list), id) <==> id in byId
  {
    if id in byId {
      var i :| 0 <= i < |list| && list[i] == byId[id];
      assert Shown(list)[i].0 == id;
    }
  }

  /** One request, served by Add or Remove. */
  method Serve(s: Subscriptions, request: Request)
    requires s.Valid()
    modifies s, s.all
    ensures s.Valid() && (s.all == old(s.all) || fresh(s.all))
    ensures Shown(s.List()) == ServedOne(old(Shown(s.List())), request)
  {
    ghost var before := s.List();
    match request
    case Subscribe(id, addr) =>
      KnowsItsPlayers(s.byId, before, id);
      var added := s.Add(id, addr);
      assert added ==> Shown(s.List()) == Shown(before) + [(id, addr)];
    case Unsubscribe(id) =>
      ShownFilter(before, id);
      s.Remove(id);
  }

  /**
   * A list returned by All is a snapshot: later calls change the table, as Served says, and never the
   * list.
   */
  method SnapshotsStay(s: Subscriptions, later: seq<Request>) returns (list: array<Subscription?>)
    requires s.Valid()
    modifies s, s.all
    ensures s.Valid() && fresh(list) && list[..] == old(s.List())
    ensures Shown(s.List()) == Served(old(Shown(s.List())), later)
  {
    list := s.All();
    ghost var begun := Shown(s.List());
    for i := 0 to |later|
      invariant s.Valid() && list != s.all && (s.all == old(s.all) || fresh(s.all))
      invariant list[..] == old(s.List())
      invariant Shown(s.List()) == Served(begun, later[..i])
    {
      assert later[..i + 1][..i] == later[..i];
      Serve(s, later[i]);
    }
    assert later[..|later|] == later;
  }
}
