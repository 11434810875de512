/** The routes a node has learned: from a peer, to a target, through which neighbours and how far. */
module RouteTables {
  import opened Collections
  import opened Peers

  datatype Relay = Relay(hash: Peer, session: int, expireAt: Option<nat>, distance: int)
  {
    predicate Live() {
      expireAt.None?
    }
  }

  const MAX_ROUTE_DISTANCE := 0x1f_ffff_ffff_fffe

  datatype RouteInfo = RouteInfo(remoteSession: int, session: int, list: seq<Relay>)

  type Table = map<Peer, map<Peer, RouteInfo>>

  // ---------- What every route list keeps ----------

  ghost predicate SortedByDistance(list: seq<Relay>) {
    forall i, j :: 0 <= i < j < |list| ==> list[i].distance <= list[j].distance
  }

  /** At most one live route goes through a neighbour, and it is of the latest session. */
  ghost predicate LiveOnce(info: RouteInfo) {
    && (forall i :: 0 <= i < |info.list| && info.list[i].Live() ==> info.list[i].session == info.session)
    && (forall i, j :: 0 <= i < j < |info.list| && info.list[i].Live() && info.list[j].Live() ==>
        info.list[i].hash != info.list[j].hash)
  }

  ghost predicate Good(info: RouteInfo) {
    |info.list| > 0 && SortedByDistance(info.list) && LiveOnce(info)
  }

  ghost predicate GoodTable(t: Table) {
    forall f, g :: f in t && g in t[f] ==> Good(t[f][g])
  }

  // ---------- Sorting ----------

  /** `a` goes before `b`: it is nearer, or as near and live while `b` is not. */
  predicate Precedes(a: Relay, b: Relay) {
    a.distance < b.distance || (a.distance == b.distance && a.Live() && !b.Live())
  }

  /** Puts `r` behind all that it does not precede. */
  function Insert(list: seq<Relay>, r: Relay): seq<Relay> {
    if |list| == 0 || !Precedes(r, list[|list| - 1]) then list + [r]
    else Insert(list[..|list| - 1], r) + [list[|list| - 1]]
  }

  /** A stable sort. */
  function SortRoutes(list: seq<Relay>): seq<Relay> {
    if |list| == 0 then [] else Insert(SortRoutes(list[..|list| - 1]), list[|list| - 1])
  }

  ghost predicate Ordered(list: seq<Relay>) {
    forall i, j :: 0 <= i < j < |list| ==> !Precedes(list[j], list[i])
  }

  lemma {:induction false} InsertHas(list: seq<Relay>, r: Relay)
    ensures multiset(Insert(list, r)) == multiset(list) + multiset{r} && |Insert(list, r)| == |list| + 1
    ensures forall x :: x in Insert(list, r) <==> x in list || x == r
  {
    if |list| > 0 && Precedes(r, list[|list| - 1]) {
      InsertHas(list[..|list| - 1], r);
      assert list == list[..|list| - 1] + [list[|list| - 1]];
    }
  }

  lemma {:induction false} InsertOrders(list: seq<Relay>, r: Relay)
    requires Ordered(list)
    ensures Ordered(Insert(list, r))
  {
    if |list| > 0 && Precedes(r, list[|list| - 1]) {
      var init, last := list[..|list| - 1], list[|list| - 1];
      InsertOrders(init, r);
      InsertHas(init, r);
      assert forall x :: x in init ==> !Precedes(last, x);
    } else if |list| > 0 {
      forall i | 0 <= i < |list|
        ensures !Precedes(r, list[i])
      {
        assert i < |list| - 1 ==> !Precedes(list[|list| - 1], list[i]);
      }
    }
  }

  lemma {:induction false} SortOrders(list: seq<Relay>)
    ensures Ordered(SortRoutes(list)) && multiset(SortRoutes(list)) == multiset(list) && |SortRoutes(list)| == |list|
  {
    if |list| > 0 {
      SortOrders(list[..|list| - 1]);
      InsertOrders(SortRoutes(list[..|list| - 1]), list[|list| - 1]);
      InsertHas(SortRoutes(list[..|list| - 1]), list[|list| - 1]);
      assert list == list[..|list| - 1] + [list[|list| - 1]];
    }
  }

  lemma OrderedIsSorted(list: seq<Relay>)
    requires Ordered(list)
    ensures SortedByDistance(list)
  {
    forall i, j | 0 <= i < j < |list|
      ensures list[i].distance <= list[j].distance
    {
      assert !Precedes(list[j], list[i]);
    }
  }

  /** What holds of the relays of a list, and of each two of them, does not depend on their order. */
  lemma SortKeepsLiveOnce(info: RouteInfo)
    requires LiveOnce(info)
    ensures LiveOnce(info.(list := SortRoutes(info.list)))
  {
    var list, sorted := info.list, SortRoutes(info.list);
    SortOrders(list);
    forall i | 0 <= i < |sorted| && sorted[i].Live()
      ensures sorted[i].session == info.session
    {
      assert sorted[i] in multiset(list);
    }
    forall i, j | 0 <= i < j < |sorted| && sorted[i].Live() && sorted[j].Live()
      ensures sorted[i].hash != sorted[j].hash
    {
      if sorted[i].hash == sorted[j].hash {
        Twice(list, sorted, i, j);
      }
    }
  }

  /** Two places of a permutation come from two places. */
  lemma Twice(list: seq<Relay>, sorted: seq<Relay>, i: nat, j: nat)
    requires multiset(list) == multiset(sorted) && i < j < |sorted|
    ensures exists k, l :: 0 <= k < |list| && 0 <= l < |list| && k != l && list[k] == sorted[i] && list[l] == sorted[j]
  {
    assert sorted[i] in multiset(list) && sorted[j] in multiset(list);
    if sorted[i] != sorted[j] {
      var k :| 0 <= k < |list| && list[k] == sorted[i];
      var l :| 0 <= l < |list| && list[l] == sorted[j];
    } else {
      assert sorted == sorted[..j] + [sorted[j]] + sorted[j + 1..];
      assert sorted[..j][i] == sorted[i] && sorted[i] in multiset(sorted[..j]);
      assert multiset(sorted)[sorted[i]] >= 2;
      var k :| 0 <= k < |list| && list[k] == sorted[i];
      assert list == list[..k] + [list[k]] + list[k + 1..];
      assert multiset(list[..k])[sorted[i]] + multiset(list[k + 1..])[sorted[i]] >= 1;
      if sorted[i] in multiset(list[..k]) {
        var l :| 0 <= l < k && list[..k][l] == sorted[i];
        assert list[l] == sorted[i];
      } else {
        assert sorted[i] in multiset(list[k + 1..]);
        var l :| 0 <= l < |list| - k - 1 && list[k + 1..][l] == sorted[i];
        assert list[l + k + 1] == sorted[i];
      }
    }
  }

  // ---------- Leaving routes out ----------

  function Keep(list: seq<Relay>, keep: Relay -> bool): seq<Relay> {
    if |list| == 0 then []
    else
      var init := Keep(list[..|list| - 1], keep);
      if keep(list[|list| - 1]) then init + [list[|list| - 1]] else init
  }

  lemma {:induction false} KeepHas(list: seq<Relay>, keep: Relay -> bool)
    ensures forall r :: r in Keep(list, keep) <==> r in list && keep(r)
  {
    if |list| > 0 {
      KeepHas(list[..|list| - 1], keep);
      assert list == list[..|list| - 1] + [list[|list| - 1]];
    }
  }

  lemma {:induction false} KeepCounts(list: seq<Relay>, keep: Relay -> bool, r: Relay)
    ensures multiset(Keep(list, keep))[r] == if keep(r) then multiset(list)[r] else 0
  {
    if |list| > 0 {
      KeepCounts(list[..|list| - 1], keep, r);
      assert list == list[..|list| - 1] + [list[|list| - 1]];
    }
  }

  lemma {:induction false} KeepSorted(list: seq<Relay>, keep: Relay -> bool)
    requires SortedByDistance(list)
    ensures SortedByDistance(Keep(list, keep))
  {
    if |list| > 0 {
      var init, last := list[..|list| - 1], list[|list| - 1];
      KeepSorted(init, keep);
      KeepHas(init, keep);
      var kept := Keep(init, keep);
      assert forall i :: 0 <= i < |kept| ==> kept[i] in init;
      assert forall r :: r in init ==> r.distance <= last.distance;
    }
  }

  lemma {:induction false} KeepLiveOnce(info: RouteInfo, keep: Relay -> bool)
    requires LiveOnce(info)
    ensures LiveOnce(info.(list := Keep(info.list, keep)))
    decreases |info.list|
  {
    var list := info.list;
    if |list| > 0 {
      var init, last := list[..|list| - 1], list[|list| - 1];
      KeepLiveOnce(info.(list := init), keep);
      KeepHas(init, keep);
      var kept := Keep(init, keep);
      assert forall i :: 0 <= i < |kept| ==> kept[i] in init;
      assert forall r :: r in init && r.Live() && last.Live() ==> r.hash != last.hash;
    }
  }

  lemma KeepGood(info: RouteInfo, keep: Relay -> bool)
    requires SortedByDistance(info.list) && LiveOnce(info)
    ensures SortedByDistance(Keep(info.list, keep)) && LiveOnce(info.(list := Keep(info.list, keep)))
  {
    KeepSorted(info.list, keep);
    KeepLiveOnce(info, keep);
  }

  // ---------- Adding ----------

  datatype Change = New | Updated | Restart

  /** A session that is not set, or 0, counts as -1. */
  function OrNone(session: int): int {
    if session == 0 then -1 else session
  }

  function Max(a: int, b: int): int {
    if a > b then a else b
  }

  function ExpireAll(list: seq<Relay>, at: nat): seq<Relay> {
    seq(|list|, i requires 0 <= i < |list| => if list[i].Live() then list[i].(expireAt := Some(at)) else list[i])
  }

  /** The place of the first route through a neighbour, or the length of the list. */
  function FirstThrough(list: seq<Relay>, hash: Peer): (k: nat)
    ensures k <= |list| && (k < |list| ==> list[k].hash == hash)
    ensures forall i :: 0 <= i < k ==> list[i].hash != hash
  {
    if |list| == 0 then 0
    else
      var k := FirstThrough(list[..|list| - 1], hash);
      if k < |list| - 1 || list[|list| - 1].hash == hash then k else |list|
  }

  /** The list with one more route, or one that has become better. */
  function AddedList(list: seq<Relay>, neighbour: Peer, distance: int, session: int, isNewSession: bool,
                     expireAt: Option<nat>): seq<Relay> {
    var k := FirstThrough(list, neighbour);
    if k < |list| && isNewSession && list[k].distance >= distance then
      var updated := list[k := Relay(neighbour, session, None, distance)];
      if list[k].distance > distance then SortRoutes(updated) else updated
    else if k == |list| || isNewSession then SortRoutes(list + [Relay(neighbour, session, expireAt, distance)])
    else list
  }

  /** To a neighbour of one's own the way is always the shortest. */
  function Distance(me: Peer, from: Peer, neighbour: Peer, target: Peer, distance: int): int {
    if neighbour == target && from == me then -1 else distance
  }

  function AddedInfo(prev: Option<RouteInfo>, neighbour: Peer, distance: int, session: int, remoteSession: int,
                     expireAt: nat): RouteInfo {
    match prev
    case None => RouteInfo(remoteSession, session, AddedList([], neighbour, distance, session, true, None))
    case Some(p) =>
      RouteInfo(Max(remoteSession, OrNone(p.remoteSession)), Max(session, p.session),
                AddedList(if session > p.session then ExpireAll(p.list, expireAt) else p.list, neighbour, distance,
                          session,
                          session > p.session, if session < p.session then Some(expireAt) else None))
  }

  function ChangeOf(prev: Option<RouteInfo>, neighbour: Peer, remoteSession: int): Change {
    if prev.None? || FirstThrough(prev.value.list, neighbour) == |prev.value.list| then New
    else if remoteSession > OrNone(prev.value.remoteSession) then Restart else Updated
  }

  lemma ExpireAllFirst(list: seq<Relay>, at: nat, hash: Peer)
    ensures FirstThrough(ExpireAll(list, at), hash) == FirstThrough(list, hash) && |ExpireAll(list, at)| == |list|
  {
    var k, l := FirstThrough(ExpireAll(list, at), hash), FirstThrough(list, hash);
    assert k < |list| ==> list[k].hash == ExpireAll(list, at)[k].hash;
    assert l < |list| ==> list[l].hash == ExpireAll(list, at)[l].hash;
  }

  /** Whatever is added, the list stays sorted and not empty, with one live route a neighbour. */
  lemma AddedIsGood(prev: Option<RouteInfo>, neighbour: Peer, distance: int, session: int, remoteSession: int,
                    expireAt: nat)
    requires prev.Some? ==> Good(prev.value)
    ensures Good(AddedInfo(prev, neighbour, distance, session, remoteSession, expireAt))
  {
    hide SortRoutes, FirstThrough;
    var r := Relay(neighbour, session, None, distance);
    match prev
    case None =>
      GoodSort(RouteInfo(remoteSession, session, [] + [r]));
      assert FirstThrough([], neighbour) == 0;
    case Some(p) =>
      var at := if session < p.session then Some(expireAt) else None;
      var list := if session > p.session then ExpireAll(p.list, expireAt) else p.list;
      var k := FirstThrough(list, neighbour);
      var info := AddedInfo(prev, neighbour, distance, session, remoteSession, expireAt);
      if k < |list| && session > p.session && list[k].distance >= distance {
        if list[k].distance > distance {
          GoodSort(info.(list := list[k := r]));
        }
      } else if k == |list| || session > p.session {
        GoodSort(info.(list := list + [Relay(neighbour, session, at, distance)]));
      }
  }

  lemma GoodSort(info: RouteInfo)
    requires |info.list| > 0 && LiveOnce(info)
    ensures Good(info.(list := SortRoutes(info.list)))
  {
    SortOrders(info.list);
    OrderedIsSorted(SortRoutes(info.list));
    SortKeepsLiveOnce(info);
  }

  /** There is a way through the neighbour that is no longer than `distance`. */
  ghost predicate HasWay(list: seq<Relay>, neighbour: Peer, distance: int) {
    exists r :: r in list && r.hash == neighbour && r.distance <= distance
  }

  lemma SortHas(list: seq<Relay>)
    ensures forall r :: r in SortRoutes(list) <==> r in list
  {
    SortOrders(list);
    forall r
      ensures r in SortRoutes(list) <==> r in list
    {
      assert r in multiset(SortRoutes(list)) <==> r in multiset(list);
    }
  }

  /** What the list holds when a route has been added, in whatever order. */
  lemma AddedListHas(list: seq<Relay>, neighbour: Peer, distance: int, session: int, isNewSession: bool,
                     expireAt: Option<nat>, r: Relay)
    ensures var l, k := AddedList(list, neighbour, distance, session, isNewSession, expireAt),
            FirstThrough(list, neighbour);
            && (r.hash != neighbour ==> (r in l <==> r in list))
            && (isNewSession ==> HasWay(l, neighbour, distance))
            && (k == |list| ==> HasWay(l, neighbour, distance))
            && (k < |list| && !isNewSession ==> l == list)
  {
    var l, k := AddedList(list, neighbour, distance, session, isNewSession, expireAt), FirstThrough(list, neighbour);
    if k < |list| && isNewSession && list[k].distance >= distance {
      var way := Relay(neighbour, session, None, distance);
      var updated := list[k := way];
      assert updated[k] in updated;
      SortHas(updated);
      assert way in l;
      if r.hash != neighbour {
        UpdatedHas(list, k, way, r);
      }
    } else if k == |list| || isNewSession {
      var way := Relay(neighbour, session, expireAt, distance);
      SortHas(list + [way]);
      assert way in list + [way];
      assert way in l;
    }
  }

  lemma UpdatedHas(list: seq<Relay>, k: nat, way: Relay, r: Relay)
    requires k < |list| && r != way && r != list[k]
    ensures r in list[k := way] <==> r in list
  {
    if r in list {
      var i :| 0 <= i < |list| && list[i] == r;
      assert list[k := way][i] == r;
    }
  }

  /** Afterwards there is a way through the neighbour as short as the one that is added, exactly
      unless a longer one was known and the session is not new: a shorter way is not heeded then. */
  lemma AddedIsThere(prev: Option<RouteInfo>, neighbour: Peer, distance: int, session: int, remoteSession: int,
                     expireAt: nat)
    requires prev.Some? ==> Good(prev.value)
    ensures HasWay(AddedInfo(prev, neighbour, distance, session, remoteSession, expireAt).list, neighbour,
                   distance) <==>
            (prev.Some? && session <= prev.value.session
             && FirstThrough(prev.value.list, neighbour) < |prev.value.list| ==>
               prev.value.list[FirstThrough(prev.value.list, neighbour)].distance <= distance)
  {
    hide AddedList;
    match prev
    case None => AddedListHas([], neighbour, distance, session, true, None, Relay(neighbour, 0, None, 0));
    case Some(p) =>
      var list := if session > p.session then ExpireAll(p.list, expireAt) else p.list;
      AddedListHas(list, neighbour, distance, session, session > p.session,
                   if session < p.session then Some(expireAt) else None,
                   Relay(neighbour, 0, None, 0));
      var k := FirstThrough(p.list, neighbour);
      if session <= p.session && k < |p.list| {
        assert p.list[k] in p.list;
        forall i | 0 <= i < |p.list| && p.list[i].hash == neighbour
          ensures p.list[k].distance <= p.list[i].distance
        {
          assert k <= i;
        }
      }
  }

  /** The other routes are kept; those that were live expire, if the session is new. */
  lemma OthersAreKept(p: RouteInfo, neighbour: Peer, distance: int, session: int, remoteSession: int, expireAt: nat,
                      r: Relay)
    requires r.hash != neighbour
    ensures var list := AddedInfo(Some(p), neighbour, distance, session, remoteSession, expireAt).list;
            r in list <==>
            if session > p.session
            then exists q :: q in p.list && r == if q.Live() then q.(expireAt := Some(expireAt)) else q
            else r in p.list
  {
    hide AddedList;
    var list := if session > p.session then ExpireAll(p.list, expireAt) else p.list;
    AddedListHas(list, neighbour, distance, session, session > p.session,
                 if session < p.session then Some(expireAt) else None, r);
    var q' := (q: Relay) => if q.Live() then q.(expireAt := Some(expireAt)) else q;
    assert forall i :: 0 <= i < |p.list| ==> ExpireAll(p.list, expireAt)[i] == q'(p.list[i]);
    if session > p.session {
      if r in list {
        var i :| 0 <= i < |list| && list[i] == r;
        assert p.list[i] in p.list;
      }
      if q :| q in p.list && r == q'(q) {
        var i :| 0 <= i < |p.list| && p.list[i] == q;
        assert list[i] == r;
      }
    }
  }

  /** What a new session confirms without making it shorter is not moved: the list is then in its
      full order only if no other route is as near and before it, for that one has expired. */
  lemma ConfirmedIsNotMoved(p: RouteInfo, neighbour: Peer, session: int, remoteSession: int, expireAt: nat)
    requires Good(p) && Ordered(p.list) && session > p.session
    requires var k := FirstThrough(p.list, neighbour); k < |p.list|
    ensures var k := FirstThrough(p.list, neighbour);
            Ordered(AddedInfo(Some(p), neighbour, p.list[k].distance, session, remoteSession, expireAt).list) <==>
            forall i :: 0 <= i < k ==> p.list[i].distance < p.list[k].distance
  {
    ExpireAllFirst(p.list, expireAt, neighbour);
    var k := FirstThrough(p.list, neighbour);
    var list := AddedInfo(Some(p), neighbour, p.list[k].distance, session, remoteSession, expireAt).list;
    assert forall i :: 0 <= i < |list| ==> list[i].distance == p.list[i].distance && (list[i].Live() <==> i == k);
    if Ordered(list) {
      forall i | 0 <= i < k
        ensures p.list[i].distance < p.list[k].distance
      {
        assert !Precedes(list[k], list[i]);
      }
    }
  }

  /** What is in a list once a route has been added: nothing else is new. */
  lemma AddedListIs(list: seq<Relay>, neighbour: Peer, distance: int, session: int, isNewSession: bool,
                    expireAt: Option<nat>, r: Relay)
    requires r in AddedList(list, neighbour, distance, session, isNewSession, expireAt)
    ensures r in list || (isNewSession && r == Relay(neighbour, session, None, distance))
                      || r == Relay(neighbour, session, expireAt, distance)
  {
    var k := FirstThrough(list, neighbour);
    if k < |list| && isNewSession && list[k].distance >= distance {
      var updated := list[k := Relay(neighbour, session, None, distance)];
      SortHas(updated);
      assert r in updated;
    } else if k == |list| || isNewSession {
      SortHas(list + [Relay(neighbour, session, expireAt, distance)]);
    }
  }

  /** The route that is added, in a new session or through a neighbour that was no way so far: it has the
      distance and the session given, and it expires if the session is an old one. */
  lemma AddedRelay(prev: Option<RouteInfo>, neighbour: Peer, distance: int, session: int, remoteSession: int,
                   expireAt: nat)
    requires IsNewWay(prev, neighbour, session)
    ensures Relay(neighbour, session, if prev.Some? && session < prev.value.session then Some(expireAt) else None,
                  distance)
            in AddedInfo(prev, neighbour, distance, session, remoteSession, expireAt).list
  {
    var at := if prev.Some? && session < prev.value.session then Some(expireAt) else None;
    var list := if prev.None? then [] else if session > prev.value.session then ExpireAll(prev.value.list, expireAt)
                else prev.value.list;
    var isNew := prev.None? || session > prev.value.session;
    var k, way := FirstThrough(list, neighbour), Relay(neighbour, session, at, distance);
    assert k < |list| ==> list[k] in list;
    if k < |list| && isNew && list[k].distance >= distance {
      assert list[k := way][k] == way;
      SortHas(list[k := way]);
    } else {
      assert (list + [way])[|list|] == way;
      SortHas(list + [way]);
    }
  }

  /** The session is new, or nothing goes through the neighbour so far. */
  ghost predicate IsNewWay(prev: Option<RouteInfo>, neighbour: Peer, session: int) {
    prev.Some? ==> session > prev.value.session || forall r :: r in prev.value.list ==> r.hash != neighbour
  }

  /** What a node knows of a target: to a neighbour directly, at -1, and to others at no less than 0; and
      nothing of a later session. */
  ghost predicate Direct(target: Peer, info: RouteInfo) {
    forall r :: r in info.list ==>
                  r.session <= info.session && if r.hash == target then r.distance == -1 else r.distance >= 0
  }

  /** The routes from a peer are direct to its neighbours, and to no one else. */
  ghost predicate DirectFrom(t: Table, me: Peer) {
    forall g :: HasRoute(t, me, g) ==> Direct(g, t[me][g])
  }

  /** Adding keeps it so, when ways to the target itself are at -1 and others are not negative. */
  lemma AddedIsDirect(prev: Option<RouteInfo>, target: Peer, neighbour: Peer, distance: int, session: int,
                      remoteSession: int, expireAt: nat)
    requires prev.Some? ==> Direct(target, prev.value)
    requires if neighbour == target then distance == -1 else distance >= 0
    ensures Direct(target, AddedInfo(prev, neighbour, distance, session, remoteSession, expireAt))
  {
    hide AddedList;
    var info := AddedInfo(prev, neighbour, distance, session, remoteSession, expireAt);
    var list := if prev.None? then [] else if session > prev.value.session then ExpireAll(prev.value.list, expireAt)
                else prev.value.list;
    forall r | r in info.list
      ensures r.session <= info.session && if r.hash == target then r.distance == -1 else r.distance >= 0
    {
      AddedListIs(list, neighbour, distance, session, prev.None? || session > prev.value.session,
                  if prev.Some? && session < prev.value.session then Some(expireAt) else None, r);
      if r in list {
        var i :| 0 <= i < |list| && list[i] == r;
        assert prev.value.list[i] in prev.value.list;
      }
    }
  }

  lemma DirectIsFirst(target: Peer, list: seq<Relay>)
    requires SortedByDistance(list) && exists r :: r in list && r.hash == target
    requires forall r :: r in list ==> if r.hash == target then r.distance == -1 else r.distance >= 0
    ensures |list| > 0 && list[0].hash == target && list[0].distance == -1 && FirstThrough(list, target) == 0
  {
    var r :| r in list && r.hash == target;
    var i :| 0 <= i < |list| && list[i] == r;
    assert list[0] in list && list[0].distance <= list[i].distance;
  }

  /** The direct way is the first of the list; and the one that is added, unless one is known already and
      the session is not new. */
  lemma AddedDirectIsFirst(list: seq<Relay>, target: Peer, session: int, isNewSession: bool, at: Option<nat>)
    requires SortedByDistance(list) && (isNewSession ==> at.None?)
    requires forall r :: r in list ==> if r.hash == target then r.distance == -1 else r.distance >= 0
    ensures var l := AddedList(list, target, -1, session, isNewSession, at);
            && |l| > 0 && l[0].hash == target && l[0].distance == -1
            && (isNewSession || (forall r :: r in list ==> r.hash != target) ==> l[0] == Relay(target, session, at, -1))
  {
    hide SortRoutes;
    var k, way := FirstThrough(list, target), Relay(target, session, at, -1);
    if k < |list| {
      assert list[k] in list;
      DirectIsFirst(target, list);
    } else {
      var l := SortRoutes(list + [way]);
      SortOrders(list + [way]);
      OrderedIsSorted(l);
      SortHas(list + [way]);
      assert way in list + [way];
      DirectIsFirst(target, l);
      assert l[0] in list + [way];
    }
  }

  /** What is recorded of a target when a route has been added: the later of the sessions, and of the remote
      sessions, where one that is 0 counts as -1; the route with the distance and the session given, if it is a
      new way, expiring if the session is an old one; and what has changed. */
  ghost predicate Records(info: RouteInfo, change: Change, prev: Option<RouteInfo>, neighbour: Peer, distance: int,
                          session: int, remoteSession: int, at: nat)
  {
    && (prev.None? ==> info.session == session && info.remoteSession == remoteSession)
    && (prev.Some? ==>
          var known := if prev.value.remoteSession == 0 then -1 else prev.value.remoteSession;
          && info.session == (if session > prev.value.session then session else prev.value.session)
          && info.remoteSession == (if remoteSession > known then remoteSession else known)
          && (change == Restart <==> remoteSession > known && exists r :: r in prev.value.list && r.hash == neighbour))
    && (change == New <==> prev.None? || forall r :: r in prev.value.list ==> r.hash != neighbour)
    && (IsNewWay(prev, neighbour, session) ==>
          Relay(neighbour, session, if prev.Some? && session < prev.value.session then Some(at) else None, distance)
          in info.list)
  }

  lemma AddedRecords(prev: Option<RouteInfo>, neighbour: Peer, distance: int, session: int, remoteSession: int, at: nat)
    ensures Records(AddedInfo(prev, neighbour, distance, session, remoteSession, at),
                    ChangeOf(prev, neighbour, remoteSession), prev, neighbour, distance, session, remoteSession, at)
  {
    hide AddedList;
    if IsNewWay(prev, neighbour, session) {
      AddedRelay(prev, neighbour, distance, session, remoteSession, at);
    }
    if prev.Some? {
      var list, k := prev.value.list, FirstThrough(prev.value.list, neighbour);
      assert k < |list| ==> list[k] in list;
    }
  }

  /** The first route to a neighbour is the direct one; if that is a new way it is of the session, and live
      unless the session is an old one. */
  ghost predicate FirstIsDirect(info: RouteInfo, prev: Option<RouteInfo>, neighbour: Peer, session: int, at: nat) {
    && |info.list| > 0 && info.list[0].hash == neighbour && info.list[0].distance == -1
    && (IsNewWay(prev, neighbour, session) ==>
          && info.list[0].session == session
          && info.list[0].expireAt == if prev.Some? && session < prev.value.session then Some(at) else None)
  }

  lemma AddedFirst(prev: Option<RouteInfo>, target: Peer, session: int, remoteSession: int, at: nat)
    requires prev.Some? ==> Good(prev.value) && Direct(target, prev.value)
    ensures FirstIsDirect(AddedInfo(prev, target, -1, session, remoteSession, at), prev, target, session, at)
  {
    hide AddedList;
    var isNew := prev.None? || session > prev.value.session;
    var list := if prev.None? then [] else if isNew then ExpireAll(prev.value.list, at) else prev.value.list;
    forall r | r in list
      ensures if r.hash == target then r.distance == -1 else r.distance >= 0
    {
      var i :| 0 <= i < |list| && list[i] == r;
      assert prev.value.list[i] in prev.value.list;
    }
    AddedDirectIsFirst(list, target, session, isNew,
                       if prev.Some? && session < prev.value.session then Some(at) else None);
  }

  // ---------- Removing ----------

  function Without(list: seq<Relay>, hash: Peer): seq<Relay> {
    Keep(list, (r: Relay) => r.hash != hash)
  }

  /** The routes from one peer, without those to or through another. */
  function Purged(m: map<Peer, RouteInfo>, gone: Peer): map<Peer, RouteInfo> {
    map t | t in m && t != gone && Without(m[t].list, gone) != [] :: m[t].(list := Without(m[t].list, gone))
  }

  function RemovedTable(t: Table, gone: Peer): Table {
    map f | f in t && f != gone && Purged(t[f], gone) != map[] :: Purged(t[f], gone)
  }

  predicate HasRoute(t: Table, from: Peer, target: Peer) {
    from in t && target in t[from]
  }

  /** Afterwards the peer is nowhere: nothing goes from it, to it or through it; every other route is kept. */
  lemma RemovedIsGone(t: Table, gone: Peer)
    requires GoodTable(t)
    ensures GoodTable(RemovedTable(t, gone))
    ensures forall f, g :: HasRoute(RemovedTable(t, gone), f, g) <==>
              HasRoute(t, f, g) && f != gone && g != gone && exists r :: r in t[f][g].list && r.hash != gone
    ensures forall f, g :: HasRoute(RemovedTable(t, gone), f, g) ==>
              && (forall r :: multiset(RemovedTable(t, gone)[f][g].list)[r] ==
                                if r.hash != gone then multiset(t[f][g].list)[r] else 0)
              && RemovedTable(t, gone)[f][g].session == t[f][g].session
              && RemovedTable(t, gone)[f][g].remoteSession == t[f][g].remoteSession
  {
    var t' := RemovedTable(t, gone);
    hide Without, Good;
    forall f, g | f in t && g in t[f]
      ensures Without(t[f][g].list, gone) != [] ==> Good(t[f][g].(list := Without(t[f][g].list, gone)))
      ensures Without(t[f][g].list, gone) != [] <==> exists r :: r in t[f][g].list && r.hash != gone
      ensures forall r :: multiset(Without(t[f][g].list, gone))[r] ==
                            if r.hash != gone then multiset(t[f][g].list)[r] else 0
    {
      WithoutHas(t[f][g], gone);
    }
    forall f, g
      ensures HasRoute(t', f, g) <==> HasRoute(t, f, g) && f != gone && g != gone && Without(t[f][g].list, gone) != []
      ensures HasRoute(t', f, g) ==> t'[f][g] == t[f][g].(list := Without(t[f][g].list, gone))
    {
      assert f in t && g in Purged(t[f], gone) ==> Purged(t[f], gone) != map[];
    }
  }

  lemma WithoutHas(info: RouteInfo, hash: Peer)
    requires Good(info)
    ensures var kept := Without(info.list, hash);
            && (kept != [] ==> Good(info.(list := kept)))
            && (kept != [] <==> exists r :: r in info.list && r.hash != hash)
            && (forall r :: multiset(kept)[r] == if r.hash != hash then multiset(info.list)[r] else 0)
  {
    var keep := (r: Relay) => r.hash != hash;
    KeepGood(info, keep);
    KeepHas(info.list, keep);
    var kept := Without(info.list, hash);
    if kept != [] {
      assert kept[0] in kept;
    }
    forall r
      ensures multiset(kept)[r] == if r.hash != hash then multiset(info.list)[r] else 0
    {
      KeepCounts(info.list, keep, r);
    }
  }

  lemma RemovedDirect(t: Table, gone: Peer, me: Peer)
    requires GoodTable(t) && DirectFrom(t, me)
    ensures DirectFrom(RemovedTable(t, gone), me)
  {
    hide RemovedTable, GoodTable, Direct;
    RemovedIsGone(t, gone);
    var t' := RemovedTable(t, gone);
    forall g | HasRoute(t', me, g)
      ensures Direct(g, t'[me][g])
    {
      assert HasRoute(t, me, g);
      FewerIsDirect(g, t[me][g], t'[me][g]);
    }
  }

  lemma FewerIsDirect(target: Peer, info: RouteInfo, info': RouteInfo)
    requires Direct(target, info) && info'.session == info.session
    requires forall r :: multiset(info'.list)[r] <= multiset(info.list)[r]
    ensures Direct(target, info')
  {
    forall r | r in info'.list
      ensures r in info.list
    {
      assert r in multiset(info'.list) && r in multiset(info.list);
    }
  }

  // ---------- Cleaning up ----------

  function Unexpired(list: seq<Relay>, now: nat): seq<Relay> {
    Keep(list, (r: Relay) => !(r.expireAt.Some? && r.expireAt.value < now))
  }

  /** Leaves out what has expired. A target that has no routes left goes, and with it, if only one
      other target is left, all that goes from the same peer. */
  function CleanedUp(t: Table, from: Peer, target: Peer, now: nat): Table {
    if !HasRoute(t, from, target) then t
    else
      var kept := Unexpired(t[from][target].list, now);
      if |kept| > 0 then t[from := t[from][target := t[from][target].(list := kept)]]
      else if |t[from] - {target}| == 1 then t - {from}
      else t[from := t[from] - {target}]
  }

  /** What is left of the target itself are its routes that have not expired, each as often as it was there,
      if there are any; its sessions stay, and so does all that goes from other peers. */
  lemma CleanupLeaves(t: Table, from: Peer, target: Peer, now: nat)
    requires GoodTable(t)
    ensures var t' := CleanedUp(t, from, target, now);
            && GoodTable(t')
            && (HasRoute(t', from, target) <==>
                  HasRoute(t, from, target)
                  && exists r :: r in t[from][target].list && (r.expireAt.None? || now <= r.expireAt.value))
            && (HasRoute(t', from, target) ==>
                  && t'[from][target].session == t[from][target].session
                  && t'[from][target].remoteSession == t[from][target].remoteSession
                  && forall r :: multiset(t'[from][target].list)[r] ==
                       if r.expireAt.None? || now <= r.expireAt.value then multiset(t[from][target].list)[r] else 0)
            && (forall f :: f != from ==> (f in t' <==> f in t) && (f in t ==> t'[f] == t[f]))
  {
    if HasRoute(t, from, target) {
      var info, keep := t[from][target], (r: Relay) => !(r.expireAt.Some? && r.expireAt.value < now);
      KeepGood(info, keep);
      KeepHas(info.list, keep);
      var kept := Unexpired(info.list, now);
      assert kept != [] ==> kept[0] in kept;
      forall r
        ensures multiset(kept)[r] ==
                if r.expireAt.None? || now <= r.expireAt.value then multiset(info.list)[r] else 0
      {
        KeepCounts(info.list, keep, r);
      }
    }
  }

  lemma CleanedDirect(t: Table, from: Peer, target: Peer, now: nat, me: Peer)
    requires DirectFrom(t, me)
    ensures DirectFrom(CleanedUp(t, from, target, now), me)
  {
    if HasRoute(t, from, target) {
      KeepHas(t[from][target].list, (r: Relay) => !(r.expireAt.Some? && r.expireAt.value < now));
    }
  }

  /** So it happens that the routes to another target are lost, though they have not expired:
      exactly if the two are the only targets from that peer, and all routes to the first have expired. */
  lemma CleanupLosesOther(t: Table, from: Peer, target: Peer, now: nat, other: Peer)
    requires HasRoute(t, from, target) && HasRoute(t, from, other) && other != target
    ensures HasRoute(CleanedUp(t, from, target, now), from, other) <==>
            !(&& t[from].Keys == {target, other}
              && forall r :: r in t[from][target].list ==> r.expireAt.Some? && r.expireAt.value < now)
    ensures HasRoute(CleanedUp(t, from, target, now), from, other) ==>
              CleanedUp(t, from, target, now)[from][other] == t[from][other]
  {
    var list := t[from][target].list;
    KeepHas(list, (r: Relay) => !(r.expireAt.Some? && r.expireAt.value < now));
    var kept := Unexpired(list, now);
    if |kept| > 0 {
      assert kept[0] in kept;
    } else {
      assert forall r :: r in list ==> r.expireAt.Some? && r.expireAt.value < now;
    }
    var rest := t[from] - {target};
    assert other in rest && rest.Keys == t[from].Keys - {target};
    assert |rest| == |rest.Keys|;
    if |rest| == 1 {
      OnlyOne(rest.Keys, other);
      assert t[from].Keys == rest.Keys + {target};
    }
    assert t[from].Keys == {target, other} ==> rest.Keys == {other};
  }

  lemma OnlyOne(s: set<Peer>, x: Peer)
    requires |s| == 1 && x in s
    ensures s == {x}
  {
    assert |s - {x}| == 0;
    assert s == (s - {x}) + {x};
  }

  // ---------- Fanout ----------

  /** The places of the routes that are taken, and whether one of them is as good as it gets. */
  datatype Picked = Picked(places: seq<nat>, closest: bool)

  /** Which routes a message takes: from the nearest on, `redundancy` live ones, but none as far as
      that; and no other once the direct one has been found. Expired ones are taken as well, unless
      the message starts here and a live one as near has been found. */
  function Picks(info: RouteInfo, redundancy: nat, relaying: bool, i: nat, found: int, added: nat): Picked
    requires i <= |info.list|
    decreases |info.list| - i
  {
    if i == |info.list| then Picked([], false)
    else
      var r := info.list[i];
      if !r.Live() && !relaying && found == r.distance then Picks(info, redundancy, relaying, i + 1, found, added)
      else if r.distance >= redundancy then Picked([], false)
      else
        var closest := r.distance <= 0 && r.session <= info.session;
        if (closest && r.distance == -1) || (r.Live() && added + 1 >= redundancy) then Picked([i], closest)
        else
          var rest := Picks(info, redundancy, relaying, i + 1, if r.Live() then r.distance else found,
                            if r.Live() then added + 1 else added);
          Picked([i] + rest.places, closest || rest.closest)
  }

  ghost function LiveCount(list: seq<Relay>, places: seq<nat>): nat {
    if |places| == 0 then 0
    else (if places[0] < |list| && list[places[0]].Live() then 1 else 0) + LiveCount(list, places[1..])
  }

  /** One step: the route is taken or not, and it goes on or not. */
  lemma PicksStep(info: RouteInfo, redundancy: nat, relaying: bool, i: nat, found: int, added: nat)
    returns (found': int, added': nat, takes: bool, goesOn: bool)
    requires i < |info.list| && added < redundancy
    ensures var r, places := info.list[i], Picks(info, redundancy, relaying, i, found, added).places;
            && added' == added + (if takes && r.Live() then 1 else 0)
            && places == (if takes then [i] else []) +
                         (if goesOn then Picks(info, redundancy, relaying, i + 1, found', added').places else [])
            && (goesOn ==> added' < redundancy)
            && (takes ==> r.distance < redundancy)
            && (!takes && goesOn ==> !r.Live())
            && (!takes && !goesOn ==> r.distance >= redundancy)
            && (takes && !goesOn ==> r.distance == -1 || added' == redundancy)
  {
    var r := info.list[i];
    if !r.Live() && !relaying && found == r.distance {
      found', added', takes, goesOn := found, added, false, true;
    } else {
      found', takes := if r.Live() then r.distance else found, r.distance < redundancy;
      added' := if takes && r.Live() then added + 1 else added;
      var closest := r.distance <= 0 && r.session <= info.session;
      goesOn := takes && !((closest && r.distance == -1) || (r.Live() && added + 1 >= redundancy));
    }
  }

  lemma LiveCountCons(list: seq<Relay>, i: nat, rest: seq<nat>)
    ensures LiveCount(list, [i] + rest) == (if i < |list| && list[i].Live() then 1 else 0) + LiveCount(list, rest)
    ensures LiveCount(list, []) == 0
  {
    assert ([i] + rest)[1..] == rest;
  }

  /** Places from `i` on, in order, none as far as the redundancy, that pass over no live route. */
  ghost predicate FirstPart(list: seq<Relay>, places: seq<nat>, i: nat, redundancy: nat) {
    && (forall p :: p in places ==> i <= p < |list| && list[p].distance < redundancy)
    && (forall a, b :: 0 <= a < b < |places| ==> places[a] < places[b])
    && (forall p, q :: p in places && i <= q < p && list[q].Live() ==> q in places)
  }

  lemma OneMore(list: seq<Relay>, rest: seq<nat>, i: nat, redundancy: nat, takes: bool)
    requires i < |list| && FirstPart(list, rest, i + 1, redundancy)
    requires takes ==> list[i].distance < redundancy
    requires !takes && rest != [] ==> !list[i].Live()
    ensures FirstPart(list, (if takes then [i] else []) + rest, i, redundancy)
  {
    var places := (if takes then [i] else []) + rest;
    assert forall p :: p in places <==> p in rest || (takes && p == i);
    forall a, b | 0 <= a < b < |places|
      ensures places[a] < places[b]
    {
      assert places[b] in rest;
    }
    forall p, q | p in places && i <= q < p && list[q].Live()
      ensures q in places
    {
      assert p in rest;
    }
  }

  /** Of the live routes a first part is picked, none as far as the redundancy. */
  lemma {:induction false} PicksAreFirst(info: RouteInfo, redundancy: nat, relaying: bool, i: nat, found: int,
                                         added: nat)
    requires i <= |info.list| && added < redundancy
    ensures FirstPart(info.list, Picks(info, redundancy, relaying, i, found, added).places, i, redundancy)
    decreases |info.list| - i
  {
    if i < |info.list| {
      var found', added', takes, goesOn := PicksStep(info, redundancy, relaying, i, found, added);
      var rest := [];
      if goesOn {
        PicksAreFirst(info, redundancy, relaying, i + 1, found', added');
        rest := Picks(info, redundancy, relaying, i + 1, found', added').places;
      }
      hide Picks, FirstPart;
      NothingIsFirst(info.list, i + 1, redundancy);
      OneMore(info.list, rest, i, redundancy, takes);
    }
  }

  lemma NothingIsFirst(list: seq<Relay>, i: nat, redundancy: nat)
    ensures FirstPart(list, [], i, redundancy)
  {
  }

  /** No more live routes are picked than the redundancy asks for. */
  lemma {:induction false} PicksAreBounded(info: RouteInfo, redundancy: nat, relaying: bool, i: nat, found: int,
                                           added: nat)
    requires i <= |info.list| && added < redundancy
    ensures added + LiveCount(info.list, Picks(info, redundancy, relaying, i, found, added).places) <= redundancy
    decreases |info.list| - i
  {
    if i < |info.list| {
      var found', added', takes, goesOn := PicksStep(info, redundancy, relaying, i, found, added);
      var rest := [];
      if goesOn {
        PicksAreBounded(info, redundancy, relaying, i + 1, found', added');
        rest := Picks(info, redundancy, relaying, i + 1, found', added').places;
      }
      hide Picks, LiveCount;
      LiveCountCons(info.list, i, rest);
      assert [] + rest == rest;
    } else {
      assert LiveCount(info.list, []) == 0;
    }
  }

  /** The picking has stopped no earlier than it must: at the full redundancy, at the direct route,
      or when no live route is left that is near enough. */
  ghost predicate Enough(list: seq<Relay>, places: seq<nat>, i: nat, redundancy: nat, added: nat) {
    || added + LiveCount(list, places) == redundancy
    || (exists p :: p in places && p < |list| && list[p].distance == -1)
    || (forall q :: i <= q < |list| && list[q].Live() && list[q].distance < redundancy ==> q in places)
  }

  lemma EnoughMore(list: seq<Relay>, rest: seq<nat>, i: nat, redundancy: nat, added: nat, takes: bool)
    requires i < |list| && Enough(list, rest, i + 1, redundancy, added + if takes && list[i].Live() then 1 else 0)
    requires !takes ==> !list[i].Live()
    ensures Enough(list, (if takes then [i] else []) + rest, i, redundancy, added)
  {
    hide LiveCount;
    var places := (if takes then [i] else []) + rest;
    LiveCountCons(list, i, rest);
    assert [] + rest == rest;
    assert forall p :: p in places <==> p in rest || (takes && p == i);
  }

  lemma TooFar(list: seq<Relay>, i: nat, redundancy: nat, added: nat)
    requires i <= |list| && SortedByDistance(list) && (i < |list| ==> list[i].distance >= redundancy)
    ensures Enough(list, [], i, redundancy, added)
  {
  }

  lemma StopsThere(list: seq<Relay>, i: nat, redundancy: nat, added: nat)
    requires i < |list| && (list[i].distance == -1 || added + (if list[i].Live() then 1 else 0) == redundancy)
    ensures Enough(list, [i], i, redundancy, added)
  {
    LiveCountCons(list, i, []);
    assert [i] + [] == [i];
    assert i in [i];
  }

  lemma {:induction false} PicksAreEnough(info: RouteInfo, redundancy: nat, relaying: bool, i: nat, found: int,
                                          added: nat)
    requires i <= |info.list| && SortedByDistance(info.list) && added < redundancy
    ensures Enough(info.list, Picks(info, redundancy, relaying, i, found, added).places, i, redundancy, added)
    decreases |info.list| - i
  {
    hide Enough, LiveCount, SortedByDistance;
    if i < |info.list| {
      var found', added', takes, goesOn := PicksStep(info, redundancy, relaying, i, found, added);
      hide Picks;
      if goesOn {
        PicksAreEnough(info, redundancy, relaying, i + 1, found', added');
        EnoughMore(info.list, Picks(info, redundancy, relaying, i + 1, found', added').places, i, redundancy, added,
                   takes);
      } else if takes {
        StopsThere(info.list, i, redundancy, added);
        assert [i] + [] == [i];
      } else {
        TooFar(info.list, i, redundancy, added);
      }
    } else {
      TooFar(info.list, i, redundancy, added);
    }
  }

  /** The closest has been found exactly if a direct or nearest route, of no later session, is picked. */
  lemma {:induction false} ClosestIsPicked(info: RouteInfo, redundancy: nat, relaying: bool, i: nat, found: int,
                                           added: nat)
    requires i <= |info.list|
    ensures var pick := Picks(info, redundancy, relaying, i, found, added);
            && (forall p :: p in pick.places ==> i <= p < |info.list|)
            && (pick.closest <==> exists p ::
                  p in pick.places && p < |info.list| && info.list[p].distance <= 0
                  && info.list[p].session <= info.session)
    decreases |info.list| - i
  {
    if i < |info.list| {
      var r := info.list[i];
      var pick := Picks(info, redundancy, relaying, i, found, added);
      if !r.Live() && !relaying && found == r.distance {
        ClosestIsPicked(info, redundancy, relaying, i + 1, found, added);
      } else if r.distance < redundancy {
        var found', added' := if r.Live() then r.distance else found, if r.Live() then added + 1 else added;
        ClosestIsPicked(info, redundancy, relaying, i + 1, found', added');
        var rest := Picks(info, redundancy, relaying, i + 1, found', added').places;
        assert i in pick.places && (pick.places == [i] || pick.places == [i] + rest);
        assert forall p :: p in [i] + rest <==> p == i || p in rest;
      }
    }
  }

  /** Which routes are passed over on the way to a picked one: exactly, in messages from here, those that have
      expired while a live one as near comes before them. */
  lemma {:induction false} PassedOver(info: RouteInfo, redundancy: nat, relaying: bool, i: nat, found: int, added: nat,
                                      p: nat, last: nat)
    requires i <= p <= last < |info.list| && SortedByDistance(info.list) && found <= info.list[i].distance
    requires last in Picks(info, redundancy, relaying, i, found, added).places
    ensures p !in Picks(info, redundancy, relaying, i, found, added).places <==>
            && !info.list[p].Live() && !relaying
            && (|| found == info.list[p].distance
                || exists q :: i <= q < p && info.list[q].Live() && info.list[q].distance == info.list[p].distance)
    decreases |info.list| - i
  {
    var r := info.list[i];
    var skips := !r.Live() && !relaying && found == r.distance;
    var found' := if !skips && r.Live() then r.distance else found;
    var added' := if !skips && r.Live() then added + 1 else added;
    var places := Picks(info, redundancy, relaying, i, found, added).places;
    var rest := Picks(info, redundancy, relaying, i + 1, found', added').places;
    ClosestIsPicked(info, redundancy, relaying, i + 1, found', added');
    assert places == rest || places == [i] || places == [i] + rest || places == [];
    assert i in [i] + rest && forall x :: x in [i] + rest <==> x == i || x in rest;
    if p > i {
      PassedOver(info, redundancy, relaying, i + 1, found', added', p, last);
    }
  }

  // ---------- The table of a node ----------

  type Fanout = map<Peer, map<Peer, int>>

  /** Marks the neighbours of the picked routes as ways to `to`, with the sessions of the routes. */
  function Mark(fanout: Fanout, list: seq<Relay>, places: seq<nat>, to: Peer): Fanout {
    if |places| == 0 then fanout
    else
      var rest, p := Mark(fanout, list, places[..|places| - 1], to), places[|places| - 1];
      if p >= |list| then rest
      else rest[list[p].hash := (if list[p].hash in rest then rest[list[p].hash] else map[])[to := list[p].session]]
  }

  predicate Through(fanout: Fanout, neighbour: Peer, to: Peer) {
    neighbour in fanout && to in fanout[neighbour]
  }

  lemma {:induction false} MarkThrough(fanout: Fanout, list: seq<Relay>, places: seq<nat>, to: Peer, n: Peer, t: Peer)
    ensures Through(Mark(fanout, list, places, to), n, t) <==>
              Through(fanout, n, t) || (t == to && exists p :: p in places && p < |list| && list[p].hash == n)
  {
    if |places| > 0 {
      var init, last := places[..|places| - 1], places[|places| - 1];
      MarkThrough(fanout, list, init, to, n, t);
      assert forall p :: p in places <==> p in init || p == last;
    }
  }

  /** The session by which a neighbour is marked is that of a picked route through it. */
  lemma {:induction false} MarkSession(fanout: Fanout, list: seq<Relay>, places: seq<nat>, to: Peer, n: Peer)
    requires Through(Mark(fanout, list, places, to), n, to)
    ensures || (Through(fanout, n, to) && Mark(fanout, list, places, to)[n][to] == fanout[n][to])
            || IsSessionOf(list, places, n, Mark(fanout, list, places, to)[n][to])
  {
    if |places| > 0 {
      var init, last := places[..|places| - 1], places[|places| - 1];
      if last < |list| && list[last].hash == n {
        assert last in places;
      } else {
        MarkSession(fanout, list, init, to, n);
        assert forall p :: p in init ==> p in places;
      }
    }
  }

  ghost predicate IsSessionOf(list: seq<Relay>, places: seq<nat>, n: Peer, session: int) {
    exists p :: p in places && p < |list| && list[p].hash == n && list[p].session == session
  }

  /** Nothing else is marked anew, and nothing is marked as a way to nobody. */
  lemma {:induction false} MarkOthers(fanout: Fanout, list: seq<Relay>, places: seq<nat>, to: Peer)
    ensures forall n, t :: t != to && Through(fanout, n, t) ==>
              Through(Mark(fanout, list, places, to), n, t) && Mark(fanout, list, places, to)[n][t] == fanout[n][t]
    ensures (forall n :: n in fanout ==> fanout[n] != map[]) ==>
              forall n :: n in Mark(fanout, list, places, to) ==> Mark(fanout, list, places, to)[n] != map[]
  {
    if |places| > 0 {
      MarkOthers(fanout, list, places[..|places| - 1], to);
      var rest, p := Mark(fanout, list, places[..|places| - 1], to), places[|places| - 1];
      if p < |list| {
        var m := (if list[p].hash in rest then rest[list[p].hash] else map[])[to := list[p].session];
        assert to in m;
      }
    }
  }

  function TargetsFrom(t: Table, from: Peer): set<Peer> {
    if from in t then t[from].Keys else {}
  }

  /** The targets that lose all their routes. */
  function LostFrom(m: map<Peer, RouteInfo>, gone: Peer): set<Peer> {
    m.Keys - Purged(m, gone).Keys
  }

  /** The table when the routes from `done` have been gone through. */
  ghost predicate PartlyRemoved(t: Table, t': Table, gone: Peer, done: set<Peer>) {
    && (forall f :: f in t' <==> f in t && f != gone && (f in done ==> Purged(t[f], gone) != map[]))
    && (forall f :: f in t' ==> t'[f] == if f in done then Purged(t[f], gone) else t[f])
  }

  lemma PartlyRemovedStep(t: Table, t': Table, gone: Peer, done: set<Peer>, f: Peer)
    requires PartlyRemoved(t, t', gone, done) && f in t' && f !in done
    ensures PartlyRemoved(t, if Purged(t[f], gone) == map[] then t' - {f} else t'[f := Purged(t[f], gone)], gone,
                          done + {f})
    ensures t'[f] == t[f]
  {
    hide Purged;
  }

  lemma RemovedStart(t: Table, gone: Peer)
    ensures PartlyRemoved(t, t - {gone}, gone, {})
  {
  }

  lemma RemovedEnd(t: Table, t': Table, gone: Peer, done: set<Peer>)
    requires PartlyRemoved(t, t', gone, done) && (forall f :: f in t && f != gone ==> f in done)
    ensures t' == RemovedTable(t, gone)
  {
    hide Purged;
  }

  lemma LostTargets(t: Table, gone: Peer, me: Peer)
    requires me != gone && me in t
    ensures LostFrom(t[me], gone) == set x | x in TargetsFrom(t, me) && x !in TargetsFrom(RemovedTable(t, gone), me)
  {
    hide Purged;
  }

  function AddedTable(t: Table, from: Peer, target: Peer, info: RouteInfo): Table {
    t[from := (if from in t then t[from] else map[])[target := info]]
  }

  /** What is known of other targets, or by messages from others, stays. */
  ghost predicate OthersStay(t: Table, t': Table, from: Peer, target: Peer) {
    forall f, g :: f != from || g != target ==>
                     (HasRoute(t', f, g) <==> HasRoute(t, f, g)) && (HasRoute(t, f, g) ==> t'[f][g] == t[f][g])
  }

  lemma AddedTableKeeps(t: Table, from: Peer, target: Peer, info: RouteInfo)
    requires GoodTable(t) && Good(info)
    ensures GoodTable(AddedTable(t, from, target, info))
            && OthersStay(t, AddedTable(t, from, target, info), from, target)
  {
    hide Good;
  }

  class Routes {
    const me: Peer
    const routeMaxRetentionPeriod: nat
    var routes: Table
    /** The session of each peer that is known. */
    var remoteInfo: map<Peer, int>

    ghost predicate Valid()
      reads this
    {
      GoodTable(routes)
    }

    ghost predicate KnowsDirect()
      reads this
    {
      DirectFrom(routes, me)
    }

    constructor (me: Peer, retention: nat)
      ensures Valid() && KnowsDirect() && this.me == me && routes == map[] && remoteInfo == map[]
              && routeMaxRetentionPeriod == retention
    {
      this.me, routeMaxRetentionPeriod := me, retention;
      routes, remoteInfo := map[], map[];
    }

    function FindNeighbor(from: Peer, target: Peer): Option<RouteInfo>
      reads this
    {
      if HasRoute(routes, from, target) then Some(routes[from][target]) else None
    }

    method Add(from: Peer, neighbour: Peer, target: Peer, distance0: int, session: int, remoteSession: int, now: nat)
      returns (change: Change)
      requires Valid()
      modifies this`routes
      ensures Valid()
      ensures routes == AddedTable(old(routes), from, target,
                                   AddedInfo(old(FindNeighbor(from, target)), neighbour,
                                             Distance(me, from, neighbour, target, distance0),
                                             session, remoteSession, now + routeMaxRetentionPeriod))
      ensures change == ChangeOf(old(FindNeighbor(from, target)), neighbour, remoteSession)
      ensures HasRoute(routes, from, target) && OthersStay(old(routes), routes, from, target)
      ensures Records(routes[from][target], change, old(FindNeighbor(from, target)), neighbour,
                      if from == me && neighbour == target then -1 else distance0,
                      session, remoteSession, now + routeMaxRetentionPeriod)
      ensures old(KnowsDirect()) && (from == me && neighbour != target ==> distance0 >= 0) ==> KnowsDirect()
      ensures old(KnowsDirect()) && from == me && neighbour == target ==>
                FirstIsDirect(routes[me][target], old(FindNeighbor(me, target)), target, session,
                              now + routeMaxRetentionPeriod)
    {
      hide SortRoutes, Good, ExpireAll, FirstThrough, AddedList, Direct, Records, FirstIsDirect, GoodTable,
           OthersStay;
      GoodAt(routes, from, target);
      ghost var known := FindNeighbor(from, target);
      var expireAt := now + routeMaxRetentionPeriod;
      var fromMap := if from in routes then routes[from] else map[];
      var routeDidExist := target in fromMap;
      var prev := if routeDidExist then fromMap[target] else RouteInfo(remoteSession, session, []);
      var isNewSession := !routeDidExist || session > prev.session;
      var isOldSession := routeDidExist && session < prev.session;
      var distance := distance0;
      if neighbour == target && from == me {
        distance := -1;
      }
      var isNewRemoteSession := false;
      if routeDidExist {
        isNewRemoteSession := remoteSession > OrNone(prev.remoteSession);
        prev := prev.(remoteSession := Max(remoteSession, OrNone(prev.remoteSession)));
      }
      prev := prev.(session := Max(session, prev.session));
      var list := prev.list;
      if isNewSession {
        list := Expire(list, expireAt);
        ExpireAllFirst(prev.list, expireAt, neighbour);
      }
      NoRoutes(expireAt, neighbour);
      var exist;
      list, exist := Place(list, neighbour, distance, session, isNewSession,
                           if isOldSession then Some(expireAt) else None);
      AddedIsGood(known, neighbour, distance, session, remoteSession, expireAt);
      AddedTableKeeps(routes, from, target, prev.(list := list));
      AddedRecords(known, neighbour, distance, session, remoteSession, expireAt);
      if KnowsDirect() && from == me && (neighbour != target ==> distance0 >= 0) {
        AddedIsDirect(known, target, neighbour, distance, session, remoteSession, expireAt);
        if neighbour == target {
          AddedFirst(known, target, session, remoteSession, expireAt);
        }
      }
      routes := routes[from := fromMap[target := prev.(list := list)]];
      change := if !exist then New else if isNewRemoteSession then Restart else Updated;
    }

    static lemma GoodAt(t: Table, from: Peer, target: Peer)
      requires GoodTable(t)
      ensures HasRoute(t, from, target) ==> Good(t[from][target])
    {
    }

    static lemma NoRoutes(at: nat, hash: Peer)
      ensures ExpireAll([], at) == [] && FirstThrough([], hash) == 0
    {
    }

    /** Changes the route through the neighbour, or adds one. */
    static method Place(routes: seq<Relay>, neighbour: Peer, distance: int, session: int, isNewSession: bool,
                        expireAt: Option<nat>)
      returns (list: seq<Relay>, exist: bool)
      ensures list == AddedList(routes, neighbour, distance, session, isNewSession, expireAt)
      ensures exist == (FirstThrough(routes, neighbour) < |routes|)
    {
      hide SortRoutes;
      list := routes;
      var i := Find(list, neighbour);
      exist := i < |list|;
      if exist && isNewSession && list[i].distance >= distance {
        var shorter := list[i].distance > distance;
        list := list[i := list[i].(distance := distance, session := session, expireAt := None)];
        if shorter {
          list := SortRoutes(list);
        }
        return;
      }
      if !exist || isNewSession {
        list := SortRoutes(list + [Relay(neighbour, session, expireAt, distance)]);
      }
    }

    static method Expire(list: seq<Relay>, expireAt: nat) returns (r: seq<Relay>)
      ensures r == ExpireAll(list, expireAt)
    {
      r := list;
      for i := 0 to |list|
        invariant |r| == |list|
        invariant forall k :: 0 <= k < i ==> r[k] == ExpireAll(list, expireAt)[k]
        invariant forall k :: i <= k < |list| ==> r[k] == list[k]
      {
        if r[i].Live() {
          r := r[i := r[i].(expireAt := Some(expireAt))];
        }
      }
    }

    static method Find(list: seq<Relay>, hash: Peer) returns (i: nat)
      ensures i == FirstThrough(list, hash)
    {
      i := 0;
      while i < |list| && list[i].hash != hash
        invariant i <= |list| && forall k :: 0 <= k < i ==> list[k].hash != hash
      {
        i := i + 1;
      }
    }

    /** What is known of the peer is newer than the route, or the route is too long. */
    predicate IsReachable(from: Peer, target: Peer, maxDistance: int)
      reads this
    {
      && target in remoteInfo && HasRoute(routes, from, target)
      && routes[from][target].remoteSession >= remoteInfo[target]
      && |routes[from][target].list| > 0 && routes[from][target].list[0].distance <= maxDistance
    }

    /** The first route is the nearest: a peer is reachable exactly if some route to it is near
        enough and not older than what is known of the peer. */
    lemma ReachableByAny(from: Peer, target: Peer, maxDistance: int)
      requires Valid()
      ensures IsReachable(from, target, maxDistance) <==>
              && target in remoteInfo && HasRoute(routes, from, target)
              && routes[from][target].remoteSession >= remoteInfo[target]
              && exists r :: r in routes[from][target].list && r.distance <= maxDistance
    {
      if HasRoute(routes, from, target) {
        assert Good(routes[from][target]);
        var list := routes[from][target].list;
        assert list[0] in list;
      }
    }

    method Cleanup(from: Peer, target: Peer, now: nat)
      requires Valid()
      modifies this`routes
      ensures Valid() && routes == CleanedUp(old(routes), from, target, now)
      ensures old(KnowsDirect()) ==> KnowsDirect()
    {
      hide GoodTable, DirectFrom;
      ghost var t := routes;
      CleanupLeaves(t, from, target, now);
      if KnowsDirect() {
        CleanedDirect(routes, from, target, now, me);
      }
      if HasRoute(routes, from, target) {
        var fromMap := routes[from];
        var info := fromMap[target];
        var keepRoutes := [];
        for i := 0 to |info.list|
          invariant keepRoutes == Unexpired(info.list[..i], now)
        {
          assert info.list[..i + 1][..i] == info.list[..i];
          if !(info.list[i].expireAt.Some? && info.list[i].expireAt.value < now) {
            keepRoutes := keepRoutes + [info.list[i]];
          }
        }
        assert info.list[..|info.list|] == info.list;
        if |keepRoutes| > 0 {
          routes := routes[from := fromMap[target := info.(list := keepRoutes)]];
        } else {
          fromMap := fromMap - {target};
          routes := routes[from := fromMap];
          if |fromMap| == 1 {
            routes := routes - {from};
            assert routes == old(routes) - {from};
          }
        }
      }
    }

    static method Purge(m: map<Peer, RouteInfo>, target: Peer) returns (purged: map<Peer, RouteInfo>, lost: set<Peer>)
      ensures purged == Purged(m, target) && lost == LostFrom(m, target)
    {
      hide Without;
      lost := if target in m then {target} else {};
      purged := m - {target};
      var remotes := purged.Keys;
      while remotes != {}
        invariant remotes <= purged.Keys <= m.Keys - {target}
        invariant lost == m.Keys - purged.Keys
        invariant forall t :: t in m && t != target && t !in purged ==> Without(m[t].list, target) == []
        invariant forall t :: t in purged && t in remotes ==> purged[t] == m[t]
        invariant forall t :: t in purged && t !in remotes ==>
                    Without(m[t].list, target) != [] && purged[t] == m[t].(list := Without(m[t].list, target))
      {
        var remote :| remote in remotes;
        remotes := remotes - {remote};
        var filtered := Filter(purged[remote].list, target);
        if |filtered| == 0 {
          purged := purged - {remote};
          lost := lost + {remote};
        } else {
          purged := purged[remote := purged[remote].(list := filtered)];
        }
      }
    }

    static method Filter(list: seq<Relay>, hash: Peer) returns (filtered: seq<Relay>)
      ensures filtered == Without(list, hash)
    {
      filtered := [];
      for i := 0 to |list|
        invariant filtered == Without(list[..i], hash)
      {
        assert list[..i + 1][..i] == list[..i];
        if list[i].hash != hash {
          filtered := filtered + [list[i]];
        }
      }
      assert list[..|list|] == list;
    }

    /** Removes a peer, and says which of the targets from here have lost all their routes. */
    method Remove(target: Peer) returns (unreachable: set<Peer>)
      requires Valid()
      modifies this
      ensures Valid() && routes == RemovedTable(old(routes), target) && remoteInfo == old(remoteInfo) - {target}
      ensures unreachable == if target == me then {}
                             else set t | t in TargetsFrom(old(routes), me) && t !in TargetsFrom(routes, me)
      ensures old(KnowsDirect()) ==> KnowsDirect()
    {
      hide PartlyRemoved, Purged, LostFrom, RemovedTable, GoodTable, DirectFrom;
      ghost var t := routes;
      RemovedIsGone(t, target);
      if KnowsDirect() {
        RemovedDirect(t, target, me);
      }
      var maybeUnreachable := {};
      routes := routes - {target};
      ghost var all := routes.Keys;
      RemovedStart(t, target);
      var froms := routes.Keys;
      assert all - froms == {};
      while froms != {}
        invariant froms <= all && froms <= routes.Keys && remoteInfo == old(remoteInfo)
        invariant PartlyRemoved(t, routes, target, all - froms)
        invariant maybeUnreachable == if me in all - froms then LostFrom(t[me], target) else {}
      {
        var from :| from in froms;
        PartlyRemovedStep(t, routes, target, all - froms, from);
        assert all - froms + {from} == all - (froms - {from});
        froms := froms - {from};
        var purged, lost := Purge(routes[from], target);
        if purged == map[] {
          routes := routes - {from};
        } else {
          routes := routes[from := purged];
        }
        if from == me {
          maybeUnreachable := maybeUnreachable + lost;
        }
      }
      assert all - froms == all;
      RemovedEnd(t, routes, target, all);
      if me != target && me in t {
        LostTargets(t, target, me);
      }
      remoteInfo := remoteInfo - {target};
      unreachable := set x | x in maybeUnreachable && !IsReachable(me, x, MAX_ROUTE_DISTANCE);
    }

    // ---------- Fanout ----------

    /** What a message from one peer to another takes. */
    ghost function PicksFor(from: Peer, to: Peer, redundancy: nat): Picked
      reads this
      requires HasRoute(routes, from, to)
    {
      Picks(routes[from][to], redundancy, from != me, 0, -2, 0)
    }

    /** The table is enough for a receiver: there is a route, and for messages from here one of the
        picked is as short as it gets. */
    ghost predicate Suffices(from: Peer, to: Peer, redundancy: nat)
      reads this
    {
      to == me || to == from || (HasRoute(routes, from, to) && (from == me ==> PicksFor(from, to, redundancy).closest))
    }

    ghost predicate IsWay(from: Peer, to: Peer, redundancy: nat, n: Peer)
      reads this
    {
      && to != me && to != from && HasRoute(routes, from, to)
      && exists p ::
           && p in PicksFor(from, to, redundancy).places && p < |routes[from][to].list|
           && routes[from][to].list[p].hash == n
    }

    /** A picked route to the receiver goes through the neighbour and is of the session. */
    ghost predicate IsWayOf(from: Peer, to: Peer, redundancy: nat, n: Peer, session: int)
      reads this
    {
      && HasRoute(routes, from, to)
      && IsSessionOf(routes[from][to].list, PicksFor(from, to, redundancy).places, n, session)
    }

    static method FanoutTo(fanout0: Fanout, info: RouteInfo, to: Peer, redundancy: nat, relaying: bool)
      returns (fanout: Fanout, foundClosest: bool)
      ensures var pick := Picks(info, redundancy, relaying, 0, -2, 0);
              fanout == Mark(fanout0, info.list, pick.places, to) && foundClosest == pick.closest
    {
      hide Picks, Mark;
      fanout, foundClosest := fanout0, false;
      ghost var places: seq<nat> := [];
      var added, found, i := 0, -2, 0;
      ghost var pick := Picks(info, redundancy, relaying, 0, -2, 0);
      NoPicks(fanout0, info, redundancy, relaying, to);
      while i < |info.list|
        invariant i <= |info.list|
        invariant pick.places == places + Picks(info, redundancy, relaying, i, found, added).places
        invariant pick.closest == (foundClosest || Picks(info, redundancy, relaying, i, found, added).closest)
        invariant fanout == Mark(fanout0, info.list, places, to)
      {
        PicksUnfold(info, redundancy, relaying, i, found, added, places);
        var route := info.list[i];
        if !route.Live() {
          if !relaying && found == route.distance {
            i := i + 1;
            continue;
          }
        } else {
          found := route.distance;
        }
        if route.distance >= redundancy {
          return;
        }
        MarkStep(fanout0, info.list, places, i, to);
        places := places + [i];
        fanout := fanout[route.hash := (if route.hash in fanout then fanout[route.hash]
                                        else map[])[to := route.session]];
        if route.distance <= 0 && route.session <= info.session {
          foundClosest := true;
          if route.distance == -1 {
            return;
          }
        }
        if route.Live() {
          added := added + 1;
          if added >= redundancy {
            return;
          }
        }
        i := i + 1;
      }
      PicksEnd(info, redundancy, relaying, found, added, places);
    }

    static lemma NoPicks(fanout: Fanout, info: RouteInfo, redundancy: nat, relaying: bool, to: Peer)
      ensures Mark(fanout, info.list, [], to) == fanout
      ensures [] + Picks(info, redundancy, relaying, 0, -2, 0).places ==
              Picks(info, redundancy, relaying, 0, -2, 0).places
    {
    }

    static lemma PicksEnd(info: RouteInfo, redundancy: nat, relaying: bool, found: int, added: nat, places: seq<nat>)
      ensures var pick := Picks(info, redundancy, relaying, |info.list|, found, added);
              places + pick.places == places && !pick.closest
    {
    }

    /** The ways one step may go. */
    static lemma PicksUnfold(info: RouteInfo, redundancy: nat, relaying: bool, i: nat, found: int, added: nat,
                             places: seq<nat>)
      requires i < |info.list|
      ensures var r, pick := info.list[i], Picks(info, redundancy, relaying, i, found, added);
              if !r.Live() && !relaying && found == r.distance
              then pick == Picks(info, redundancy, relaying, i + 1, found, added)
              else if r.distance >= redundancy then places + pick.places == places && !pick.closest
              else
                var closest := r.distance <= 0 && r.session <= info.session;
                if (closest && r.distance == -1) || (r.Live() && added + 1 >= redundancy)
                then places + pick.places == places + [i] && pick.closest == closest
                else
                  var rest := Picks(info, redundancy, relaying, i + 1, if r.Live() then r.distance else found,
                                    if r.Live() then added + 1 else added);
                  places + pick.places == places + [i] + rest.places && pick.closest == (closest || rest.closest)
    {
    }

    static lemma MarkStep(fanout: Fanout, list: seq<Relay>, places: seq<nat>, p: nat, to: Peer)
      requires p < |list|
      ensures var rest := Mark(fanout, list, places, to);
              Mark(fanout, list, places + [p], to) ==
              rest[list[p].hash := (if list[p].hash in rest then rest[list[p].hash] else map[])[to := list[p].session]]
    {
      assert (places + [p])[..|places|] == places;
    }

    /** Through which neighbours a message goes, and to whom through each. There is no answer - the
        message then goes to all - exactly if there are no receivers, or the table does not suffice
        for one of them; from here, each receiver has a neighbour in every answer. */
    method GetFanout(from: Peer, tos: seq<Peer>, redundancy: nat) returns (r: Option<Fanout>)
      ensures r.None? <==> |tos| == 0 || exists t :: t in tos && !Suffices(from, t, redundancy)
      ensures r.Some? ==> forall n, t :: Through(r.value, n, t) <==> t in tos && IsWay(from, t, redundancy, n)
      ensures r.Some? ==> forall n, t :: Through(r.value, n, t) ==> IsWayOf(from, t, redundancy, n, r.value[n][t])
      ensures r.Some? ==> forall n :: n in r.value ==> r.value[n] != map[]
      ensures r.Some? && from == me ==> forall t :: t in tos && t != me ==> exists n :: Through(r.value, n, t)
    {
      hide Picks, Mark;
      if |tos| == 0 {
        return None;
      }
      var fanout := map[];
      for i := 0 to |tos|
        invariant forall t :: t in tos[..i] ==> Suffices(from, t, redundancy)
        invariant forall n, t :: Through(fanout, n, t) <==> t in tos[..i] && IsWay(from, t, redundancy, n)
        invariant forall n, t :: Through(fanout, n, t) ==> IsWayOf(from, t, redundancy, n, fanout[n][t])
        invariant forall n :: n in fanout ==> fanout[n] != map[]
      {
        var to := tos[i];
        assert tos[..i + 1] == tos[..i] + [to];
        if to == me || to == from {
          continue;
        }
        if !HasRoute(routes, from, to) {
          assert !Suffices(from, to, redundancy);
          return None;
        }
        ghost var before := fanout;
        ghost var places := PicksFor(from, to, redundancy).places;
        var foundClosest;
        fanout, foundClosest := FanoutTo(fanout, routes[from][to], to, redundancy, from != me);
        MarkOthers(before, routes[from][to].list, places, to);
        forall n, t
          ensures Through(fanout, n, t) <==> t in tos[..i + 1] && IsWay(from, t, redundancy, n)
        {
          MarkThrough(before, routes[from][to].list, places, to, n, t);
        }
        forall n, t | Through(fanout, n, t)
          ensures IsWayOf(from, t, redundancy, n, fanout[n][t])
        {
          MarkThrough(before, routes[from][to].list, places, to, n, t);
          if t == to {
            MarkSession(before, routes[from][to].list, places, to, n);
          }
        }
        if !foundClosest && from == me {
          assert !Suffices(from, to, redundancy);
          return None;
        }
      }
      assert tos[..|tos|] == tos;
      if from == me {
        forall t | t in tos && t != me
          ensures exists n :: Through(fanout, n, t)
        {
          WayFromHere(t, redundancy);
          var n :| IsWay(from, t, redundancy, n);
          assert Through(fanout, n, t);
        }
      }
      r := Some(fanout);
    }

    /** A direct route that is the first is the only one that is picked, whatever the redundancy. */
    lemma DirectSuffices(to: Peer, redundancy: nat)
      requires to != me && HasRoute(routes, me, to) && |routes[me][to].list| > 0
      requires var first := routes[me][to].list[0];
               first.hash == to && first.distance == -1 && first.session <= routes[me][to].session
      ensures Suffices(me, to, redundancy)
      ensures forall n :: IsWay(me, to, redundancy, n) <==> n == to
      ensures forall n, s :: IsWayOf(me, to, redundancy, n, s) ==> n == to && s == routes[me][to].list[0].session
    {
      var places := PicksFor(me, to, redundancy).places;
      assert places == [0];
      assert forall p :: p in places <==> p == 0;
    }

    lemma WayFromHere(to: Peer, redundancy: nat)
      requires to != me && Suffices(me, to, redundancy)
      ensures exists n :: IsWay(me, to, redundancy, n)
    {
      var info := routes[me][to];
      ClosestIsPicked(info, redundancy, false, 0, -2, 0);
      var p :| p in PicksFor(me, to, redundancy).places && p < |info.list|;
      assert IsWay(me, to, redundancy, info.list[p].hash);
    }
  }

  /** A neighbour that is recorded with whatever distance is reached directly, through itself and no other. */
  method ReachDirectly(routes: Routes, target: Peer, distance: int, session: int, remoteSession: int, now: nat,
                       redundancy: nat)
    returns (fanout: Option<Fanout>)
    requires routes.Valid() && routes.KnowsDirect() && target != routes.me
    modifies routes`routes
    ensures HasRoute(routes.routes, routes.me, target) && |routes.routes[routes.me][target].list| > 0
    ensures fanout == Some(map[target := map[target := routes.routes[routes.me][target].list[0].session]])
  {
    hide Direct, DirectFrom, GoodTable, Records, OthersStay, AddedInfo, AddedTable;
    hide Routes.PicksFor, Routes.IsWay, Routes.IsWayOf, Routes.Suffices;
    var change := routes.Add(routes.me, target, target, distance, session, remoteSession, now);
    ghost var info := routes.routes[routes.me][target];
    DirectGoesBack(routes.routes, routes.me, target);
    routes.DirectSuffices(target, redundancy);
    fanout := routes.GetFanout(routes.me, [target], redundancy);
    assert [target] == [target][..0] + [target];
    OneWay(fanout.value, target, info.list[0].session);
  }

  lemma DirectGoesBack(t: Table, me: Peer, target: Peer)
    requires DirectFrom(t, me) && HasRoute(t, me, target) && |t[me][target].list| > 0
    ensures t[me][target].list[0].session <= t[me][target].session
  {
    assert t[me][target].list[0] in t[me][target].list;
  }

  lemma OneWay(fanout: Fanout, target: Peer, session: int)
    requires forall n, t :: Through(fanout, n, t) <==> n == target && t == target
    requires Through(fanout, target, target) && fanout[target][target] == session
    requires forall n :: n in fanout ==> fanout[n] != map[]
    ensures fanout == map[target := map[target := session]]
  {
    forall n | n in fanout
      ensures n == target
    {
      var t :| t in fanout[n];
      assert Through(fanout, n, t);
    }
    assert Through(fanout, target, target);
    forall t | t in fanout[target]
      ensures t == target
    {
      assert Through(fanout, target, t);
    }
    assert fanout[target] == map[target := session];
  }
}
