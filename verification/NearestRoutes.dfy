/** Following the nearest stored routes after a flood: they are those of the first acknowledgements. */
module NearestRoutes {
  import opened Collections
  import opened Peers
  import opened Flooding
  import RouteTables

  ghost predicate SameKey(r: Route, q: Route) {
    r.at == q.at && r.from == q.from && r.target == q.target
  }

  /** `r` is stored, and nothing shorter is for what comes the same way for the same target. */
  ghost predicate Nearest(routes: set<Route>, r: Route) {
    r in routes && forall q :: q in routes && SameKey(q, r) ==> r.distance <= q.distance
  }

  ghost predicate NearestFor(routes: set<Route>, r: Route, from: Peer, at: Peer, target: Peer) {
    r.from == from && r.at == at && r.target == target && Nearest(routes, r)
  }

  /** What comes from `from` to `at` for `target` has a nearest route; and whichever of the nearest
      routes is taken at every hop, it is at the target after at most `k` of them. */
  ghost predicate Arrives(routes: set<Route>, from: Peer, at: Peer, target: Peer, k: nat)
    decreases k
  {
    && k > 0
    && (exists r :: NearestFor(routes, r, from, at, target))
    && (forall r :: NearestFor(routes, r, from, at, target) ==>
          r.distance <= 0 && (r.via == target || Arrives(routes, at, r.via, target, k - 1)))
  }

  // ---------- The first acknowledgement of a target ----------

  function Following(p: seq<Peer>, t: Peer, j: nat): Peer
    requires j < |p|
  {
    (p + [t])[j + 1]
  }

  function Preceding(p: seq<Peer>, j: nat): Peer
    requires j < |p|
  {
    if j > 0 then p[j - 1] else p[j]
  }

  /** What the first acknowledgement of `t`, which walks `p` back, stores at the index `j` of it. */
  function FirstRoute(p: seq<Peer>, t: Peer, j: nat): Route
    requires j < |p|
  {
    Route(p[j], Preceding(p, j), t, Following(p, t, j), 0)
  }

  /** The first acknowledgement of `t` before it is at the index `k - 1` of `p`. */
  function FirstAck(p: seq<Peer>, t: Peer, k: nat): Ack
    requires 0 < k <= |p|
  {
    Ack(p[k - 1], Following(p, t, k - 1), AckId(t, 0, p))
  }

  ghost predicate IsFirstRoute(p: seq<Peer>, t: Peer, k: nat, r: Route) {
    exists j :: k <= j < |p| && r == FirstRoute(p, t, j)
  }

  ghost predicate About(a: Ack, t: Peer) {
    a.id.target == t && a.id.seenCounter == 0
  }

  /** Only one acknowledgement of `t` is the first: it has walked `p` back to the index `k`, where it
      has stored all the routes to `t` that it should, and nobody else any at its distance. */
  ghost predicate FirstOk(net: Network, st: State, t: Peer, p: seq<Peer>, k: nat) {
    && k <= |p| && |p| > 0 && Path(net, p + [t])
    && (forall j :: k <= j < |p| ==> FirstRoute(p, t, j) in st.routes)
    && (k > 0 ==> FirstAck(p, t, k) in st.acks)
    && (forall a :: a in st.acks && About(a, t) ==> k > 0 && a == FirstAck(p, t, k))
    && (forall r :: r in st.routes && r.target == t && r.distance == 0 ==> IsFirstRoute(p, t, k, r))
  }

  ghost predicate NoFirst(st: State, t: Peer) {
    && (forall a :: a in st.acks ==> !About(a, t))
    && (forall r :: r in st.routes && r.target == t ==> r.distance != 0)
  }

  ghost predicate HasFirst(net: Network, st: State, t: Peer) {
    exists p, k :: FirstOk(net, st, t, p, k)
  }

  ghost predicate FirstsOk(net: Network, st: State) {
    forall t :: t != net.origin ==> if Count(st.seen, t) == 0 then NoFirst(st, t) else HasFirst(net, st, t)
  }

  /** Negative distances are those of neighbours, as targets of one's own messages. */
  ghost predicate Learned(st: State) {
    forall r :: r in st.routes && r.distance < 0 ==> r.distance == -1 && r.from == r.at && r.via == r.target
  }

  // Delivering a copy

  /** The first acknowledgement of somebody else, or a later one, changes nothing about the first of `t`. */
  lemma OtherAckSent(net: Network, st: State, st': State, a: Ack, t: Peer)
    requires st'.routes == st.routes && (st'.acks == st.acks || st'.acks == st.acks + multiset{a}) && !About(a, t)
    ensures NoFirst(st, t) ==> NoFirst(st', t)
    ensures HasFirst(net, st, t) ==> HasFirst(net, st', t)
  {
    assert forall b :: b in st'.acks && About(b, t) ==> b in st.acks;
    if HasFirst(net, st, t) {
      var p, k :| FirstOk(net, st, t, p, k);
      assert FirstOk(net, st', t, p, k);
    }
  }

  lemma FirstAckSent(net: Network, st: State, st': State, p: seq<Peer>, t: Peer)
    requires NoFirst(st, t) && |p| > 0 && Path(net, p + [t])
    requires st'.routes == st.routes && st'.acks == st.acks + multiset{Ack(p[|p| - 1], t, AckId(t, 0, p))}
    ensures HasFirst(net, st', t)
  {
    assert FirstAck(p, t, |p|) == Ack(p[|p| - 1], t, AckId(t, 0, p));
    assert FirstOk(net, st', t, p, |p|);
  }

  lemma CopyKeepsFirsts(net: Network, st: State, c: Copy)
    requires net.Valid() && CopiesOk(net, st) && FirstsOk(net, st) && Learned(st) && c in st.copies
    ensures |c.signers| > 0 && c.dest in net.peers
    ensures FirstsOk(net, DeliverCopy(net, st, c)) && Learned(DeliverCopy(net, st, c))
  {
    hide DeliverCopy, Path, NoFirst, HasFirst;
    NeverMine(net, st, c);
    CopiesAfter(net, st, c);
    AcksAfter(net, st, c);
    var n, st' := c.dest, DeliverCopy(net, st, c);
    var mine := Ack(c.signers[|c.signers| - 1], n, AckId(n, Count(st.seen, n), c.signers));
    forall t | t != net.origin
      ensures if Count(st'.seen, t) == 0 then NoFirst(st', t) else HasFirst(net, st', t)
    {
      BumpCount(st.seen, n, t);
      if About(mine, t) {
        FirstAckSent(net, st, st', c.signers, t);
      } else {
        OtherAckSent(net, st, st', mine, t);
      }
    }
  }

  // Delivering an acknowledgement

  /** Delivering another acknowledgement changes nothing about the first of `t`. */
  lemma OtherAckDelivered(net: Network, st: State, a: Ack, t: Peer)
    requires net.Valid() && AckOk(net, st, a) && !About(a, t) && a.dest in net.peers
    ensures NoFirst(st, t) ==> NoFirst(DeliverAck(net, st, a), t)
    ensures HasFirst(net, st, t) ==> HasFirst(net, DeliverAck(net, st, a), t)
  {
    hide DeliverAck, AckOk, Path;
    AckAfter(net, st, a);
    var st' := DeliverAck(net, st, a);
    assert forall b :: b in st'.acks && About(b, t) ==> b in st.acks;
    assert forall b :: b in st.acks && About(b, t) ==> b in st'.acks;
    assert forall r :: r in st'.routes && r.target == t && r.distance == 0 ==> r in st.routes;
    if HasFirst(net, st, t) {
      var p, k :| FirstOk(net, st, t, p, k);
      assert FirstOk(net, st', t, p, k);
    }
  }

  /** The first acknowledgement of `t` is one hop further back, and its route is stored. */
  lemma FirstGoesBack(net: Network, st: State, st': State, t: Peer, p: seq<Peer>, k: nat)
    requires FirstOk(net, st, t, p, k) && 0 < k && st.acks[FirstAck(p, t, k)] == 1
    requires st'.routes == st.routes + {FirstRoute(p, t, k - 1)}
    requires st'.acks == st.acks - multiset{FirstAck(p, t, k)} +
                         if k > 1 then multiset{FirstAck(p, t, k - 1)} else multiset{}
    ensures FirstOk(net, st', t, p, k - 1)
  {
    hide Path;
    assert forall b :: b in st'.acks && About(b, t) ==> k > 1 && b == FirstAck(p, t, k - 1);
    hide FirstAck;
    forall r | r in st'.routes && r.target == t && r.distance == 0
      ensures IsFirstRoute(p, t, k - 1, r)
    {
      if r in st.routes {
        var j :| k <= j < |p| && r == FirstRoute(p, t, j);
      }
    }
  }

  /** That is what delivering it does. */
  lemma FirstAckDelivered(net: Network, st: State, a: Ack, t: Peer, p: seq<Peer>, k: nat)
    requires net.Valid() && AckOk(net, st, a) && st.acks[a] == 1 && a.dest in net.peers
    requires FirstOk(net, st, t, p, k) && 0 < k && a == FirstAck(p, t, k)
    ensures FirstOk(net, DeliverAck(net, st, a), t, p, k - 1)
  {
    AckAfter(net, st, a);
    hide DeliverAck, AckOk;
    PathPrefix(net, p, t);
    IndexIn(p, k - 1);
    hide Path, IndexOf, FirstOk;
    FirstGoesBack(net, st, DeliverAck(net, st, a), t, p, k);
  }

  lemma AckKeepsFirsts(net: Network, st: State, a: Ack)
    requires net.Valid() && AcksOk(net, st) && FirstsOk(net, st) && Learned(st) && a in st.acks
    ensures a.dest in net.peers && FirstsOk(net, DeliverAck(net, st, a)) && Learned(DeliverAck(net, st, a))
  {
    hide DeliverAck, AckOk, FirstOk;
    assert AckOk(net, st, a);
    AckAfter(net, st, a);
    var st' := DeliverAck(net, st, a);
    forall t | t != net.origin
      ensures if Count(st'.seen, t) == 0 then NoFirst(st', t) else HasFirst(net, st', t)
    {
      if !About(a, t) {
        hide NoFirst, HasFirst;
        OtherAckDelivered(net, st, a, t);
      } else {
        var p, k :| FirstOk(net, st, t, p, k);
        FirstIsThis(net, st, t, p, k, a);
        FirstAckDelivered(net, st, a, t, p, k);
      }
    }
  }

  lemma FirstIsThis(net: Network, st: State, t: Peer, p: seq<Peer>, k: nat, a: Ack)
    requires FirstOk(net, st, t, p, k) && a in st.acks && About(a, t)
    ensures 0 < k <= |p| && a == FirstAck(p, t, k)
  {
  }

  // ---------- Every run ----------

  lemma InitFirsts(net: Network)
    requires net.Valid()
    ensures FirstsOk(net, Init(net)) && Learned(Init(net))
  {
  }

  lemma NextKeepsFirsts(net: Network, st: State, st': State)
    requires net.Valid() && Inv(net, st) && FirstsOk(net, st) && Learned(st) && Next(net, st, st')
    ensures FirstsOk(net, st') && Learned(st')
  {
    hide DeliverCopy, DeliverAck, FirstsOk, Learned, CopiesOk, AcksOk, CountsOk, Covered, OnlyConnected, RoutesOk,
         Answered;
    if c :| c in st.copies && c.dest in net.peers && |c.signers| > 0 && st' == DeliverCopy(net, st, c) {
      CopyKeepsFirsts(net, st, c);
    } else {
      var a :| a in st.acks && a.dest in net.peers && st' == DeliverAck(net, st, a);
      AckKeepsFirsts(net, st, a);
    }
  }

  lemma {:induction false} RunKeepsFirsts(net: Network, states: seq<State>, i: nat)
    requires Run(net, states) && i < |states|
    ensures FirstsOk(net, states[i]) && Learned(states[i])
  {
    hide Inv, Next, Init, FirstsOk, Learned;
    if i == 0 {
      InitFirsts(net);
    } else {
      RunKeepsFirsts(net, states, i - 1);
      Flooding.RunKeeps(net, states, i - 1);
      NextKeepsFirsts(net, states[i - 1], states[i]);
    }
  }

  // ---------- The main results ----------

  /** At an index of `p` the nearest route is the one that the first acknowledgement has stored; the
      origin may have its neighbour nearer. */
  lemma NearestIsFirst(net: Network, st: State, t: Peer, p: seq<Peer>, j: nat, r: Route)
    requires FirstOk(net, st, t, p, 0) && Learned(st) && j < |p|
    requires NearestFor(st.routes, r, Preceding(p, j), p[j], t)
    ensures r.distance <= 0 && (r.via == t || r == FirstRoute(p, t, j))
  {
    var first := FirstRoute(p, t, j);
    assert first in st.routes && SameKey(first, r);
    PathPrefix(net, p, t);
    if r.distance == 0 {
      assert IsFirstRoute(p, t, 0, r);
      var i :| 0 <= i < |p| && r == FirstRoute(p, t, i);
      assert p[i] == p[j];
    }
  }

  /** There is a nearest one. */
  lemma SomeNearest(net: Network, st: State, t: Peer, p: seq<Peer>, j: nat) returns (r: Route)
    requires FirstOk(net, st, t, p, 0) && Learned(st) && j < |p|
    ensures NearestFor(st.routes, r, Preceding(p, j), p[j], t)
  {
    r := FirstRoute(p, t, j);
    assert r in st.routes;
    if q :| q in st.routes && SameKey(q, r) && q.distance < 0 {
      r := q;
    }
  }

  lemma {:induction false} FollowsFirst(net: Network, st: State, t: Peer, p: seq<Peer>, j: nat)
    requires FirstOk(net, st, t, p, 0) && Learned(st) && j < |p|
    ensures Arrives(st.routes, Preceding(p, j), p[j], t, |p| - j)
    decreases |p| - j
  {
    hide Nearest;
    var r0 := SomeNearest(net, st, t, p, j);
    forall r | NearestFor(st.routes, r, Preceding(p, j), p[j], t)
      ensures r.distance <= 0 && (r.via == t || Arrives(st.routes, p[j], r.via, t, |p| - j - 1))
    {
      NearestIsFirst(net, st, t, p, j, r);
      if r.via != t {
        assert j + 1 < |p|;
        FollowsFirst(net, st, t, p, j + 1);
      }
    }
  }
  lemma {:induction false} ArrivesMore(routes: set<Route>, from: Peer, at: Peer, target: Peer, k: nat, k': nat)
    requires Arrives(routes, from, at, target, k) && k <= k'
    ensures Arrives(routes, from, at, target, k')
    decreases k
  {
    hide NearestFor;
    forall r | NearestFor(routes, r, from, at, target)
      ensures r.distance <= 0 && (r.via == target || Arrives(routes, at, r.via, target, k' - 1))
    {
      if r.via != target {
        ArrivesMore(routes, at, r.via, target, k - 1, k' - 1);
      }
    }
  }

  /** When nothing is on its way any more, what the origin sends to a peer it is connected to arrives,
      whichever of the nearest routes is taken at every hop, in fewer hops than there are peers. */
  lemma NearestArrives(net: Network, states: seq<State>, x: Peer)
    requires Run(net, states) && Quiescent(states[|states| - 1]) && x != net.origin && Connected(net, x)
    ensures |net.peers| > 1 && Arrives(states[|states| - 1].routes, net.origin, net.origin, x, |net.peers| - 1)
  {
    hide Next, Init, Connected, Arrives, Learned;
    var st := states[|states| - 1];
    RunKeepsFirsts(net, states, |states| - 1);
    Flooding.RunKeeps(net, states, |states| - 1);
    FloodIsComplete(net, states, x);
    assert HasFirst(net, st, x);
    var p, k :| FirstOk(net, st, x, p, k);
    PathIsShort(net, p + [x]);
    FollowsFirst(net, st, x, p, 0);
    ArrivesMore(st.routes, net.origin, net.origin, x, |p|, |net.peers| - 1);
  }

  // ---------- In the table ----------

  /** A list of live routes, all of them stored ones for its key. */
  ghost predicate OnlyStored(info: RouteTables.RouteInfo, routes: set<Route>, from: Peer, at: Peer, target: Peer) {
    forall e :: e in info.list ==> e.Live() && Route(at, from, target, e.hash, e.distance) in routes
  }

  ghost predicate AsShort(info: RouteTables.RouteInfo, q: Route) {
    exists i :: 0 <= i < |info.list| && info.list[i].hash == q.via && info.list[i].distance <= q.distance
  }

  /** A list of live routes that holds, of the stored ones for its key, the shortest through each neighbour. */
  ghost predicate Lists(info: RouteTables.RouteInfo, routes: set<Route>, from: Peer, at: Peer, target: Peer) {
    && RouteTables.Good(info) && OnlyStored(info, routes, from, at, target)
    && (forall q :: q in routes && q.from == from && q.at == at && q.target == target ==> AsShort(info, q))
  }

  /** The list of a key after these routes have been added to it in one session, in that order. */
  function InOrder(rs: seq<Route>, session: int, remoteSession: int): Option<RouteTables.RouteInfo> {
    if |rs| == 0 then None
    else
      var r := rs[|rs| - 1];
      Some(RouteTables.AddedInfo(InOrder(rs[..|rs| - 1], session, remoteSession), r.via, r.distance, session,
                                 remoteSession, 0))
  }

  /** The first of the routes through its neighbour. */
  predicate FirstOfItsWay(rs: seq<Route>, i: nat)
    requires i < |rs|
  {
    forall j :: 0 <= j < i ==> rs[j].via != rs[i].via
  }

  ghost predicate Comes(rs: seq<Route>, session: int, e: RouteTables.Relay) {
    exists i :: 0 <= i < |rs| && FirstOfItsWay(rs, i)
                && e == RouteTables.Relay(rs[i].via, session, None, rs[i].distance)
  }

  lemma ComesMore(rs: seq<Route>, session: int, e: RouteTables.Relay)
    requires |rs| > 0
    ensures var init, r := rs[..|rs| - 1], rs[|rs| - 1];
            Comes(rs, session, e) <==>
            Comes(init, session, e) || (e == RouteTables.Relay(r.via, session, None, r.distance)
                                        && FirstOfItsWay(rs, |rs| - 1))
  {
    var init := rs[..|rs| - 1];
    assert forall i :: 0 <= i < |init| ==> (FirstOfItsWay(rs, i) <==> FirstOfItsWay(init, i));
  }

  /** The list is good, and holds the first of the routes through each neighbour. */
  lemma {:induction false} InOrderHas(rs: seq<Route>, session: int, remoteSession: int)
    requires |rs| > 0
    ensures var info := InOrder(rs, session, remoteSession).value;
            RouteTables.Good(info) && info.session == session && forall e :: e in info.list <==> Comes(rs, session, e)
  {
    var init, r := rs[..|rs| - 1], rs[|rs| - 1];
    var e := RouteTables.Relay(r.via, session, None, r.distance);
    hide RouteTables.Good, RouteTables.SortRoutes, RouteTables.FirstThrough, Comes, FirstOfItsWay;
    forall x
      ensures Comes(rs, session, x) <==> Comes(init, session, x) || (x == e && FirstOfItsWay(rs, |rs| - 1))
    {
      ComesMore(rs, session, x);
    }
    if |init| == 0 {
      RouteTables.AddedIsGood(None, r.via, r.distance, session, remoteSession, 0);
      RouteTables.SortHas([e]);
      OnlyRoute(rs, init, session);
    } else {
      InOrderHas(init, session, remoteSession);
      var p := InOrder(init, session, remoteSession).value;
      RouteTables.AddedIsGood(Some(p), r.via, r.distance, session, remoteSession, 0);
      RouteTables.SortHas(p.list + [e]);
      FirstWayIs(rs, init, session, p.list);
    }
  }

  lemma OnlyRoute(rs: seq<Route>, init: seq<Route>, session: int)
    requires |rs| == 1 && init == []
    ensures FirstOfItsWay(rs, 0) && forall x :: !Comes(init, session, x)
    ensures RouteTables.FirstThrough([], rs[0].via) == 0
  {
  }

  /** A route is the first through its neighbour exactly if the list has none through it. */
  lemma FirstWayIs(rs: seq<Route>, init: seq<Route>, session: int, list: seq<RouteTables.Relay>)
    requires |rs| > 0 && init == rs[..|rs| - 1] && forall e :: e in list <==> Comes(init, session, e)
    ensures FirstOfItsWay(rs, |rs| - 1) <==> RouteTables.FirstThrough(list, rs[|rs| - 1].via) == |list|
  {
    var via, k := rs[|rs| - 1].via, RouteTables.FirstThrough(list, rs[|rs| - 1].via);
    if k < |list| {
      assert list[k] in list;
      var i :| 0 <= i < |init| && FirstOfItsWay(init, i)
               && list[k] == RouteTables.Relay(init[i].via, session, None, init[i].distance);
      assert rs[i].via == via;
    }
    if !FirstOfItsWay(rs, |rs| - 1) {
      var j :| 0 <= j < |rs| - 1 && rs[j].via == via;
      var i := FirstWay(init, j);
      var e := RouteTables.Relay(init[i].via, session, None, init[i].distance);
      assert e in list;
    }
  }

  lemma {:induction false} FirstWay(rs: seq<Route>, j: nat) returns (i: nat)
    requires j < |rs|
    ensures i <= j && rs[i].via == rs[j].via && FirstOfItsWay(rs, i)
  {
    if FirstOfItsWay(rs, j) {
      i := j;
    } else {
      var k :| 0 <= k < j && rs[k].via == rs[j].via;
      i := FirstWay(rs, k);
    }
  }

  /** The first route through each neighbour has been the shortest. */
  ghost predicate ShortestFirst(rs: seq<Route>) {
    forall i, j :: 0 <= i < j < |rs| && FirstOfItsWay(rs, i) && rs[i].via == rs[j].via ==>
      rs[i].distance <= rs[j].distance
  }

  /** A list that has had all the stored routes of its key added in one session is as it should be
      exactly if the first route through each neighbour was the shortest: later ones are not heeded. */
  lemma ListsInOrder(rs: seq<Route>, session: int, remoteSession: int, routes: set<Route>, from: Peer, at: Peer,
                     target: Peer)
    requires |rs| > 0 && forall r :: r in rs <==> r in routes && r.from == from && r.at == at && r.target == target
    ensures Lists(InOrder(rs, session, remoteSession).value, routes, from, at, target) <==> ShortestFirst(rs)
  {
    InOrderHas(rs, session, remoteSession);
    var info := InOrder(rs, session, remoteSession).value;
    hide InOrder, RouteTables.Good;
    ComingIsStored(rs, session, info, routes, from, at, target);
    forall j | 0 <= j < |rs|
      ensures AsShort(info, rs[j]) <==> forall i :: 0 <= i < j && FirstOfItsWay(rs, i) && rs[i].via == rs[j].via ==>
                rs[i].distance <= rs[j].distance
    {
      AsShortIs(rs, session, info, j);
    }
    hide OnlyStored, AsShort, FirstOfItsWay, Comes;
    assert forall j :: 0 <= j < |rs| ==> rs[j] in rs;
  }

  lemma ComingIsStored(rs: seq<Route>, session: int, info: RouteTables.RouteInfo, routes: set<Route>, from: Peer,
                       at: Peer, target: Peer)
    requires forall r :: r in rs ==> r in routes && r.from == from && r.at == at && r.target == target
    requires forall e :: e in info.list <==> Comes(rs, session, e)
    ensures OnlyStored(info, routes, from, at, target)
  {
    forall e | e in info.list
      ensures e.Live() && Route(at, from, target, e.hash, e.distance) in routes
    {
      var i :| 0 <= i < |rs| && FirstOfItsWay(rs, i)
               && e == RouteTables.Relay(rs[i].via, session, None, rs[i].distance);
      assert rs[i] in rs;
    }
  }

  lemma AsShortIs(rs: seq<Route>, session: int, info: RouteTables.RouteInfo, j: nat)
    requires j < |rs| && forall e :: e in info.list <==> Comes(rs, session, e)
    ensures AsShort(info, rs[j]) <==>
            forall i :: 0 <= i < j && FirstOfItsWay(rs, i) && rs[i].via == rs[j].via ==>
              rs[i].distance <= rs[j].distance
  {
    var i := FirstWay(rs, j);
    var e := RouteTables.Relay(rs[i].via, session, None, rs[i].distance);
    assert e in info.list;
    if AsShort(info, rs[j]) {
      var k :| 0 <= k < |info.list| && info.list[k].hash == rs[j].via && info.list[k].distance <= rs[j].distance;
      assert Comes(rs, session, info.list[k]);
    }
  }

  /** Then its first route is a nearest one. */
  lemma FirstIsNearest(info: RouteTables.RouteInfo, routes: set<Route>, from: Peer, at: Peer, target: Peer)
    requires Lists(info, routes, from, at, target)
    ensures |info.list| > 0
    ensures NearestFor(routes, Route(at, from, target, info.list[0].hash, info.list[0].distance), from, at, target)
  {
    var r := Route(at, from, target, info.list[0].hash, info.list[0].distance);
    assert info.list[0] in info.list;
    assert r in routes;
    hide OnlyStored;
    forall q | q in routes && SameKey(q, r)
      ensures r.distance <= q.distance
    {
      assert AsShort(info, q);
    }
  }

  lemma PicksTheFirst(info: RouteTables.RouteInfo, relaying: bool)
    requires |info.list| > 0 && info.list[0].Live() && info.list[0].distance <= 0
    ensures RouteTables.Picks(info, 1, relaying, 0, -2, 0).places == [0]
  {
  }

  /** And what comes from `from` to `at` for `target`, sent without redundancy, goes along a nearest
      route and no other way; from there it arrives. */
  lemma PickArrives(info: RouteTables.RouteInfo, routes: set<Route>, from: Peer, at: Peer, target: Peer,
                    relaying: bool, k: nat)
    requires Lists(info, routes, from, at, target) && Arrives(routes, from, at, target, k)
    ensures RouteTables.Picks(info, 1, relaying, 0, -2, 0).places == [0]
    ensures k > 0 && |info.list| > 0
    ensures info.list[0].hash == target || Arrives(routes, at, info.list[0].hash, target, k - 1)
  {
    FirstIsNearest(info, routes, from, at, target);
    assert info.list[0] in info.list;
    NearestIsNear(routes, Route(at, from, target, info.list[0].hash, info.list[0].distance), from, at, target, k);
    hide Arrives, Lists, NearestFor, RouteTables.Picks;
    PicksTheFirst(info, relaying);
  }

  lemma NearestIsNear(routes: set<Route>, r: Route, from: Peer, at: Peer, target: Peer, k: nat)
    requires Arrives(routes, from, at, target, k) && NearestFor(routes, r, from, at, target)
    ensures r.distance <= 0 && (r.via == target || Arrives(routes, at, r.via, target, k - 1))
  {
  }
}
