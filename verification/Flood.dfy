/** A seek message without receivers, flooded over a network of peers: what one peer does with a copy
    of the message and with an acknowledgement, and the transition system the peers make together. */
module Flooding {
  import opened Collections
  import opened Peers

  /** A copy of the message on its way to `dest`. The last of its signers has sent it. */
  datatype Copy = Copy(dest: Peer, signers: seq<Peer>)

  /** What identifies an acknowledgement: the bytes that its signer has signed. */
  datatype AckId = AckId(target: Peer, seenCounter: nat, trace: seq<Peer>)

  /** An acknowledgement on its way to `dest`, sent by `through`. */
  datatype Ack = Ack(dest: Peer, through: Peer, id: AckId)

  /** A stored route: at `at`, what comes from `from` for `target` can be sent to the neighbour `via`. */
  datatype Route = Route(at: Peer, from: Peer, target: Peer, via: Peer, distance: int)

  // ---------- What one peer does ----------

  predicate ShouldIgnore(me: Peer, signers: seq<Peer>, redundancy: nat, seenBefore: nat) {
    me in signers || seenBefore >= redundancy
  }

  /** The peers a copy is relayed to. */
  function Receivers(peers: set<Peer>, signers: seq<Peer>): set<Peer> {
    set x | x in peers && x !in signers
  }

  function CopiesTo(dests: set<Peer>, signers: seq<Peer>): set<Copy> {
    set x | x in dests :: Copy(x, signers)
  }

  /** What a peer does with a copy: raise `data`, acknowledge it, relay it. */
  datatype Reaction = Reaction(raise: bool, ack: Option<Ack>, copies: set<Copy>)

  function React(me: Peer, peers: set<Peer>, canRelay: bool, redundancy: nat, seenBefore: nat,
                 signers: seq<Peer>): Reaction
    requires |signers| > 0
  {
    if ShouldIgnore(me, signers, redundancy, seenBefore) then Reaction(false, None, {})
    else
      Reaction(
        seenBefore == 0,
        Some(Ack(signers[|signers| - 1], me, AckId(me, seenBefore, signers))),
        if canRelay then CopiesTo(Receivers(peers, signers), signers + [me]) else {})
  }

  function IndexOf(trace: seq<Peer>, x: Peer): (i: int)
    ensures -1 <= i < |trace|
    ensures i >= 0 ==> trace[i] == x && x !in trace[..i]
    ensures i == -1 <==> x !in trace
  {
    if |trace| == 0 then -1
    else if trace[0] == x then 0
    else
      var i := IndexOf(trace[1..], x);
      if i == -1 then -1 else i + 1
  }

  /** The peer an acknowledgement is handed back to. */
  function Previous(me: Peer, peers: set<Peer>, trace: seq<Peer>): Option<Peer> {
    var i := IndexOf(trace, me);
    if i >= 1 && trace[i - 1] in peers then Some(trace[i - 1]) else None
  }

  // ---------- The network ----------

  datatype Network = Network(peers: map<Peer, set<Peer>>, relays: set<Peer>, origin: Peer, redundancy: nat) {
    ghost predicate Valid() {
      && origin in peers && redundancy >= 1
      && (forall u, v :: u in peers && v in peers[u] ==> v in peers && v != u && u in peers[v])
    }
  }

  /** `seen` is the seen cache of every peer, for this message; `raised` and `relayed` count `data`
      events and calls of `relayMessage`; `callbacks` are the peers that await acknowledgements. */
  datatype State = State(
    seen: map<Peer, nat>, raised: map<Peer, nat>, relayed: map<Peer, nat>, callbacks: set<Peer>,
    copies: multiset<Copy>, acks: multiset<Ack>, ackSeen: set<(Peer, AckId)>, routes: set<Route>)

  function Count(m: map<Peer, nat>, x: Peer): nat {
    if x in m then m[x] else 0
  }

  function Bump(m: map<Peer, nat>, x: Peer): map<Peer, nat> {
    m[x := Count(m, x) + 1]
  }

  /** The origin has published: every neighbour is known to be reached directly. */
  ghost function Init(net: Network): State
    requires net.Valid()
  {
    State(
      map[net.origin := 1], map[], map[], {net.origin},
      multiset(CopiesTo(net.peers[net.origin], [net.origin])), multiset{}, {},
      set u, v | u in net.peers && v in net.peers[u] :: Route(u, u, v, v, -1))
  }

  function DeliverCopy(net: Network, st: State, c: Copy): State
    requires c.dest in net.peers && |c.signers| > 0
  {
    var n := c.dest;
    var r := React(n, net.peers[n], n in net.relays, net.redundancy, Count(st.seen, n), c.signers);
    st.(seen := Bump(st.seen, n),
        raised := if r.raise then Bump(st.raised, n) else st.raised,
        relayed := if r.copies != {} then Bump(st.relayed, n) else st.relayed,
        callbacks := if r.copies != {} then st.callbacks + {n} else st.callbacks,
        copies := st.copies - multiset{c} + multiset(r.copies),
        acks := if r.ack.Some? then st.acks + multiset{r.ack.value} else st.acks)
  }

  function DeliverAck(net: Network, st: State, a: Ack): State
    requires a.dest in net.peers
  {
    var me := a.dest;
    var st' := st.(acks := st.acks - multiset{a}, ackSeen := st.ackSeen + {(me, a.id)});
    if (me, a.id) in st.ackSeen then st'
    else
      var prev := Previous(me, net.peers[me], a.id.trace);
      st'.(routes := if me in st.callbacks
                     then st.routes + {Route(me, if prev.Some? then prev.value else me, a.id.target, a.through,
                                             a.id.seenCounter)}
                     else st.routes,
           acks := if prev.Some? && prev.value != a.id.target
                   then st'.acks + multiset{Ack(prev.value, me, a.id)}
                   else st'.acks)
  }

  ghost predicate Next(net: Network, st: State, st': State) {
    || (exists c :: c in st.copies && c.dest in net.peers && |c.signers| > 0 && st' == DeliverCopy(net, st, c))
    || (exists a :: a in st.acks && a.dest in net.peers && st' == DeliverAck(net, st, a))
  }

  ghost predicate CanStep(net: Network, st: State) {
    exists st' {:trigger Next(net, st, st')} :: Next(net, st, st')
  }

  ghost predicate Run(net: Network, states: seq<State>) {
    && net.Valid() && |states| > 0 && states[0] == Init(net)
    && forall i :: 0 <= i < |states| - 1 ==> Next(net, states[i], states[i + 1])
  }

  ghost predicate Quiescent(st: State) {
    st.copies == multiset{} && st.acks == multiset{}
  }

  // ---------- Invariants ----------

  /** A simple path of the network that starts at the origin. */
  ghost predicate Path(net: Network, s: seq<Peer>) {
    && |s| > 0 && s[0] == net.origin && Distinct(s)
    && (forall i :: 0 <= i < |s| ==> s[i] in net.peers)
    && (forall i :: 0 < i < |s| ==> s[i] in net.peers[s[i - 1]])
  }

  ghost predicate InFlight(copies: multiset<Copy>, x: Peer) {
    exists c :: c in copies && c.dest == x
  }

  /** Every copy has walked a simple path, on which everybody has seen the message and awaits the
      acknowledgements. */
  ghost predicate CopiesOk(net: Network, st: State) {
    forall c :: c in st.copies ==> CopyOk(net, st, c)
  }

  ghost predicate CopyOk(net: Network, st: State, c: Copy) {
    && |c.signers| > 0 && Path(net, c.signers + [c.dest])
    && (forall x :: x in c.signers ==> Count(st.seen, x) > 0 && x in st.callbacks)
  }

  /** Whoever has seen the message, and only they, have raised `data`, once; relaying is bounded. */
  ghost predicate CountsOk(net: Network, st: State) {
    && Count(st.seen, net.origin) > 0
    && (forall x :: Count(st.raised, x) == if x != net.origin && Count(st.seen, x) > 0 then 1 else 0)
    && (forall x :: Count(st.relayed, x) <= Count(st.seen, x) && Count(st.relayed, x) <= net.redundancy)
  }

  ghost predicate Spreads(net: Network, st: State, u: Peer) {
    u == net.origin || (u in net.relays && Count(st.seen, u) > 0)
  }

  /** The neighbours of whoever has relayed the message have seen it, or a copy is on its way to them. */
  ghost predicate Covered(net: Network, st: State) {
    forall u, v :: u in net.peers && v in net.peers[u] && Spreads(net, st, u) ==>
      Count(st.seen, v) > 0 || InFlight(st.copies, v)
  }

  lemma PathPrefix(net: Network, s: seq<Peer>, x: Peer)
    requires Path(net, s + [x]) && |s| > 0
    ensures Path(net, s) && x !in s && x in net.peers && x in net.peers[s[|s| - 1]]
  {
    var t := s + [x];
    assert t[|s|] == x && t[|s| - 1] == s[|s| - 1];
    forall i | 0 <= i < |s|
      ensures s[i] == t[i] && s[i] != x
    {
      assert t[i] != t[|s|];
    }
    forall i, j | 0 <= i < j < |s|
      ensures s[i] != s[j]
    {
      assert t[i] != t[j];
    }
  }

  lemma PathStart(net: Network, s: seq<Peer>)
    requires Path(net, s)
    ensures |s| > 0 && s[0] == net.origin
  {
  }

  lemma PathExtends(net: Network, s: seq<Peer>, x: Peer)
    requires Path(net, s) && x in net.peers[s[|s| - 1]] && x in net.peers && x !in s
    ensures Path(net, s + [x])
  {
  }

  lemma BumpCount(m: map<Peer, nat>, x: Peer, y: Peer)
    ensures Count(Bump(m, x), y) == Count(m, y) + if x == y then 1 else 0
  {
  }

  /** Copies are never sent to one of their signers, so what a peer reacts to is the redundancy alone. */
  lemma NeverMine(net: Network, st: State, c: Copy)
    requires CopiesOk(net, st) && c in st.copies
    ensures |c.signers| > 0 && c.dest in net.peers && c.dest !in c.signers
    ensures ShouldIgnore(c.dest, c.signers, net.redundancy, Count(st.seen, c.dest)) <==>
              Count(st.seen, c.dest) >= net.redundancy
  {
    PathPrefix(net, c.signers, c.dest);
  }

  /** The copies after `c` has been delivered: the others, and those its receiver relays. */
  lemma CopiesAfter(net: Network, st: State, c: Copy)
    requires c.dest in net.peers && |c.signers| > 0 && c.dest !in c.signers
    ensures var st', n := DeliverCopy(net, st, c), c.dest;
            && st'.seen == Bump(st.seen, n) && st.callbacks <= st'.callbacks
            && (forall d :: d in st.copies && d != c ==> d in st'.copies)
            && (forall d :: d in st'.copies && d !in st.copies ==>
                  n in st'.callbacks && d.signers == c.signers + [n] && d.dest in net.peers[n] && d.dest !in c.signers)
            && (forall v ::
                  v in net.peers[n] && v !in c.signers && n in net.relays && Count(st.seen, n) < net.redundancy ==>
                  Copy(v, c.signers + [n]) in st'.copies)
  {
    var n := c.dest;
    var r := React(n, net.peers[n], n in net.relays, net.redundancy, Count(st.seen, n), c.signers);
    var st' := DeliverCopy(net, st, c);
    assert forall d :: d in st'.copies && d !in st.copies ==> d in r.copies;
    forall v | v in net.peers[n] && v !in c.signers && n in net.relays && Count(st.seen, n) < net.redundancy
      ensures Copy(v, c.signers + [n]) in st'.copies
    {
      assert v in Receivers(net.peers[n], c.signers);
      assert Copy(v, c.signers + [n]) in r.copies;
    }
  }

  lemma OldCopyOk(net: Network, st: State, st': State, d: Copy)
    requires CopyOk(net, st, d) && st.callbacks <= st'.callbacks
    requires forall x :: Count(st'.seen, x) >= Count(st.seen, x)
    ensures CopyOk(net, st', d)
  {
  }

  lemma NewCopyOk(net: Network, st': State, signers: seq<Peer>, n: Peer, v: Peer)
    requires net.Valid() && Path(net, signers + [n]) && |signers| > 0
    requires forall x :: x in signers ==> Count(st'.seen, x) > 0 && x in st'.callbacks
    requires Count(st'.seen, n) > 0 && n in st'.callbacks
    requires n in net.peers && v in net.peers[n] && v !in signers
    ensures CopyOk(net, st', Copy(v, signers + [n]))
  {
    PathExtends(net, signers + [n], v);
  }

  lemma CopyKeepsCopies(net: Network, st: State, c: Copy)
    requires net.Valid() && CopiesOk(net, st) && c in st.copies
    ensures |c.signers| > 0 && c.dest in net.peers
    ensures CopiesOk(net, DeliverCopy(net, st, c))
  {
    hide DeliverCopy, Path;
    NeverMine(net, st, c);
    CopiesAfter(net, st, c);
    var n, st' := c.dest, DeliverCopy(net, st, c);
    forall d | d in st'.copies
      ensures CopyOk(net, st', d)
    {
      if d in st.copies {
        OldCopyOk(net, st, st', d);
      } else {
        NewCopyOk(net, st', c.signers, n, d.dest);
        assert d == Copy(d.dest, c.signers + [n]);
      }
    }
  }

  lemma CopyKeepsCounts(net: Network, st: State, c: Copy)
    requires net.Valid() && CopiesOk(net, st) && CountsOk(net, st) && c in st.copies
    ensures |c.signers| > 0 && c.dest in net.peers
    ensures CountsOk(net, DeliverCopy(net, st, c))
  {
    NeverMine(net, st, c);
    assert (c.signers + [c.dest])[0] == c.signers[0] && c.signers[0] in c.signers;
    var n, st' := c.dest, DeliverCopy(net, st, c);
    forall x
      ensures Count(st'.raised, x) == if x != net.origin && Count(st'.seen, x) > 0 then 1 else 0
      ensures Count(st'.relayed, x) <= Count(st'.seen, x) && Count(st'.relayed, x) <= net.redundancy
    {
      BumpCount(st.seen, n, x);
      BumpCount(st.raised, n, x);
      BumpCount(st.relayed, n, x);
      assert Count(st.relayed, x) <= Count(st.seen, x);
    }
  }

  lemma CopyKeepsCovered(net: Network, st: State, c: Copy)
    requires net.Valid() && CopiesOk(net, st) && CountsOk(net, st) && Covered(net, st) && c in st.copies
    ensures |c.signers| > 0 && c.dest in net.peers
    ensures Covered(net, DeliverCopy(net, st, c))
  {
    hide DeliverCopy, Path;
    NeverMine(net, st, c);
    CopiesAfter(net, st, c);
    var n, st' := c.dest, DeliverCopy(net, st, c);
    forall u, v | u in net.peers && v in net.peers[u] && Spreads(net, st', u)
      ensures Count(st'.seen, v) > 0 || InFlight(st'.copies, v)
    {
      if v != n && Count(st.seen, v) == 0 {
        if Spreads(net, st, u) {
          var d :| d in st.copies && d.dest == v;
          assert d in st'.copies;
        } else {
          assert u == n && Count(st.seen, n) == 0;
          assert Copy(v, c.signers + [n]) in st'.copies;
        }
      }
    }
  }

  // ---------- Acknowledgements and routes ----------

  ghost predicate Stored(routes: set<Route>, from: Peer, at: Peer, target: Peer, via: Peer) {
    exists r :: r in routes && r.at == at && r.from == from && r.target == target && r.via == via
  }

  /** What comes from `from` to `at` for `target` can follow stored routes to the target in at most `k` hops. */
  ghost predicate Leads(routes: set<Route>, from: Peer, at: Peer, target: Peer, k: nat)
    decreases k
  {
    && k > 0
    && exists via ::
         Stored(routes, from, at, target, via) && (via == target || Leads(routes, at, via, target, k - 1))
  }

  lemma {:induction false} LeadsMore(routes: set<Route>, routes': set<Route>, from: Peer, at: Peer, target: Peer,
                                     k: nat, k': nat)
    requires Leads(routes, from, at, target, k) && routes <= routes' && k <= k'
    ensures Leads(routes', from, at, target, k')
    decreases k
  {
    var via :| Stored(routes, from, at, target, via) && (via == target || Leads(routes, at, via, target, k - 1));
    assert Stored(routes', from, at, target, via);
    if via != target {
      LeadsMore(routes, routes', at, via, target, k - 1, k' - 1);
    }
  }

  /** The neighbour `via` of `at` is the target, or knows in at most `k` hops how to go on. */
  ghost predicate GoesOn(routes: set<Route>, at: Peer, via: Peer, target: Peer, k: nat) {
    via == target || Leads(routes, at, via, target, k)
  }

  /** No dead ends: wherever a stored route sends a message, it is at its target or can go on to it. */
  ghost predicate RoutesOk(net: Network, st: State) {
    forall r :: r in st.routes ==> GoesOn(st.routes, r.at, r.via, r.target, |net.peers|)
  }

  /** An acknowledgement walks the trace of signers back: it is at some index of the trace, nobody
      before that index has seen it, and everything behind it is a route to its target. */
  ghost predicate AckOk(net: Network, st: State, a: Ack) {
    var t, i := a.id.trace, IndexOf(a.id.trace, a.dest);
    && 0 <= i < |t| && a.dest == t[i] && Path(net, t + [a.id.target])
    && a.through == (t + [a.id.target])[i + 1]
    && a.id.seenCounter < Count(st.seen, a.id.target)
    && (forall j :: 0 <= j < |t| ==> t[j] in st.callbacks)
    && (forall j :: 0 <= j <= i ==> (t[j], a.id) !in st.ackSeen)
    && GoesOn(st.routes, a.dest, a.through, a.id.target, |t| - 1 - i)
  }

  ghost predicate AcksOk(net: Network, st: State) {
    && (forall a :: a in st.acks ==> AckOk(net, st, a) && st.acks[a] == 1)
    && (forall a, b :: a in st.acks && b in st.acks && a.id == b.id ==> a == b)
    && (forall x, id :: (x, id) in st.ackSeen ==> id.seenCounter < Count(st.seen, id.target))
  }

  /** How many peers an acknowledgement still has to visit. */
  function Hops(a: Ack): nat {
    IndexOf(a.id.trace, a.dest) + 1
  }

  ghost predicate AckFor(acks: multiset<Ack>, t: Peer) {
    exists a :: a in acks && a.id.target == t
  }

  ghost predicate RouteFor(routes: set<Route>, at: Peer, t: Peer) {
    exists via :: Stored(routes, at, at, t, via)
  }

  /** Whoever has seen the message is known to the origin, or an acknowledgement is on its way. */
  ghost predicate Answered(net: Network, st: State) {
    forall t :: t != net.origin && Count(st.seen, t) > 0 ==> RouteFor(st.routes, net.origin, t) || AckFor(st.acks, t)
  }

  lemma IndexIn(s: seq<Peer>, i: nat)
    requires i < |s| && Distinct(s)
    ensures IndexOf(s, s[i]) == i
  {
  }

  ghost function Elements(s: seq<Peer>): (r: set<Peer>)
    ensures forall x :: x in r <==> x in s
    ensures Distinct(s) ==> |r| == |s|
  {
    if |s| == 0 then {}
    else
      assert s == s[..|s| - 1] + [s[|s| - 1]];
      Elements(s[..|s| - 1]) + {s[|s| - 1]}
  }

  /** A simple path is not longer than the network is large. */
  lemma PathIsShort(net: Network, s: seq<Peer>)
    requires Path(net, s)
    ensures |s| <= |net.peers|
  {
    assert |net.peers.Keys| == |net.peers|;
    SubsetSize(Elements(s), net.peers.Keys);
  }

  // Delivering a copy

  /** The acknowledgements after `c` has been delivered: those before, and perhaps that of its receiver. */
  lemma AcksAfter(net: Network, st: State, c: Copy)
    requires c.dest in net.peers && |c.signers| > 0 && c.dest !in c.signers
    ensures var st', n := DeliverCopy(net, st, c), c.dest;
            var a := Ack(c.signers[|c.signers| - 1], n, AckId(n, Count(st.seen, n), c.signers));
            && st'.routes == st.routes && st'.ackSeen == st.ackSeen
            && st'.acks == if Count(st.seen, n) < net.redundancy then st.acks + multiset{a} else st.acks
  {
  }

  lemma OldAckOk(net: Network, st: State, st': State, a: Ack)
    requires AckOk(net, st, a)
    requires st.callbacks <= st'.callbacks && st'.routes == st.routes && st'.ackSeen == st.ackSeen
    requires forall x :: Count(st'.seen, x) >= Count(st.seen, x)
    ensures AckOk(net, st', a)
  {
  }

  lemma NewAckOk(net: Network, st: State, st': State, c: Copy, a: Ack)
    requires CopyOk(net, st, c) && AcksOk(net, st)
    requires st.callbacks <= st'.callbacks && st'.ackSeen == st.ackSeen && st'.seen == Bump(st.seen, c.dest)
    requires a == Ack(c.signers[|c.signers| - 1], c.dest, AckId(c.dest, Count(st.seen, c.dest), c.signers))
    ensures Hops(a) == |c.signers| && AckOk(net, st', a)
    ensures forall b :: b in st.acks ==> b.id != a.id
  {
    PathPrefix(net, c.signers, c.dest);
    IndexIn(c.signers, |c.signers| - 1);
    forall b | b in st.acks
      ensures b.id != a.id
    {
      assert AckOk(net, st, b);
    }
    forall j | 0 <= j < |c.signers|
      ensures (c.signers[j], a.id) !in st.ackSeen
      ensures c.signers[j] in st'.callbacks
    {
      assert c.signers[j] in c.signers;
    }
  }

  lemma CopyKeepsAcks(net: Network, st: State, c: Copy)
    requires net.Valid() && CopiesOk(net, st) && AcksOk(net, st) && c in st.copies
    ensures |c.signers| > 0 && c.dest in net.peers
    ensures AcksOk(net, DeliverCopy(net, st, c))
  {
    hide DeliverCopy, Path, AckOk, Hops, CopyOk;
    NeverMine(net, st, c);
    CopiesAfter(net, st, c);
    AcksAfter(net, st, c);
    var n, st' := c.dest, DeliverCopy(net, st, c);
    var mine := Ack(c.signers[|c.signers| - 1], n, AckId(n, Count(st.seen, n), c.signers));
    NewAckOk(net, st, st', c, mine);
    forall a | a in st'.acks
      ensures AckOk(net, st', a) && st'.acks[a] == 1
    {
      if a in st.acks {
        OldAckOk(net, st, st', a);
      }
    }
  }

  lemma CopyKeepsAnswered(net: Network, st: State, c: Copy)
    requires net.Valid() && CopiesOk(net, st) && Answered(net, st) && c in st.copies
    ensures |c.signers| > 0 && c.dest in net.peers
    ensures Answered(net, DeliverCopy(net, st, c))
  {
    hide DeliverCopy, Path, CopyOk, Stored;
    NeverMine(net, st, c);
    CopiesAfter(net, st, c);
    AcksAfter(net, st, c);
    var n, st' := c.dest, DeliverCopy(net, st, c);
    var mine := Ack(c.signers[|c.signers| - 1], n, AckId(n, Count(st.seen, n), c.signers));
    forall t | t != net.origin && Count(st'.seen, t) > 0
      ensures RouteFor(st'.routes, net.origin, t) || AckFor(st'.acks, t)
    {
      if Count(st.seen, t) > 0 {
        if AckFor(st.acks, t) {
          var a :| a in st.acks && a.id.target == t;
          assert a in st'.acks;
        }
      } else {
        assert mine in st'.acks;
      }
    }
  }

  // Delivering an acknowledgement

  /** Where the acknowledgement `a` is on its trace, and what delivering it there does. */
  lemma AckAfter(net: Network, st: State, a: Ack)
    requires net.Valid() && AckOk(net, st, a)
    ensures a.dest in net.peers && a.dest in st.callbacks
    ensures var st', t, i := DeliverAck(net, st, a), a.id.trace, IndexOf(a.id.trace, a.dest);
            && st'.seen == st.seen && st'.copies == st.copies && st'.callbacks == st.callbacks
            && st'.raised == st.raised && st'.relayed == st.relayed
            && st'.ackSeen == st.ackSeen + {(a.dest, a.id)}
            && st'.routes == st.routes + {Route(a.dest, if i > 0 then t[i - 1] else a.dest, a.id.target, a.through,
                                                a.id.seenCounter)}
            && st'.acks == st.acks - multiset{a} + if i > 0 then multiset{Ack(t[i - 1], a.dest, a.id)} else multiset{}
  {
    var t, i := a.id.trace, IndexOf(a.id.trace, a.dest);
    PathPrefix(net, t, a.id.target);
    if i > 0 {
      assert t[i] in net.peers[t[i - 1]];
      assert t[i - 1] in t;
    }
  }

  lemma StoredGoesOn(routes: set<Route>, r: Route, k: nat)
    requires r in routes && GoesOn(routes, r.at, r.via, r.target, k)
    ensures Leads(routes, r.from, r.at, r.target, k + 1)
  {
    assert Stored(routes, r.from, r.at, r.target, r.via);
  }

  lemma GoesOnMore(routes: set<Route>, routes': set<Route>, at: Peer, via: Peer, target: Peer, k: nat, k': nat)
    requires GoesOn(routes, at, via, target, k) && routes <= routes' && k <= k'
    ensures GoesOn(routes', at, via, target, k')
  {
    if via != target {
      LeadsMore(routes, routes', at, via, target, k, k');
    }
  }

  lemma AckKeepsRoutes(net: Network, st: State, a: Ack)
    requires net.Valid() && AckOk(net, st, a) && RoutesOk(net, st)
    ensures a.dest in net.peers && RoutesOk(net, DeliverAck(net, st, a))
  {
    hide DeliverAck, Leads, Stored;
    AckAfter(net, st, a);
    var st', k := DeliverAck(net, st, a), |net.peers|;
    var t := a.id.trace;
    PathIsShort(net, t + [a.id.target]);
    forall r | r in st'.routes
      ensures GoesOn(st'.routes, r.at, r.via, r.target, k)
    {
      if r in st.routes {
        GoesOnMore(st.routes, st'.routes, r.at, r.via, r.target, k, k);
      } else {
        GoesOnMore(st.routes, st'.routes, a.dest, a.through, a.id.target, |t| - 1 - IndexOf(t, a.dest), k);
      }
    }
  }

  /** The acknowledgement that is handed back, one hop nearer to the origin. */
  lemma BackOk(net: Network, st: State, a: Ack)
    requires net.Valid() && AckOk(net, st, a) && IndexOf(a.id.trace, a.dest) > 0
    ensures a.dest in net.peers
    ensures var b := Ack(a.id.trace[IndexOf(a.id.trace, a.dest) - 1], a.dest, a.id);
            Hops(b) == Hops(a) - 1 && AckOk(net, DeliverAck(net, st, a), b)
  {
    hide DeliverAck, Leads, Stored;
    AckAfter(net, st, a);
    var t, i, st' := a.id.trace, IndexOf(a.id.trace, a.dest), DeliverAck(net, st, a);
    PathPrefix(net, t, a.id.target);
    IndexIn(t, i - 1);
    var r := Route(a.dest, t[i - 1], a.id.target, a.through, a.id.seenCounter);
    GoesOnMore(st.routes, st'.routes, a.dest, a.through, a.id.target, |t| - 1 - i, |t| - 1 - i);
    StoredGoesOn(st'.routes, r, |t| - 1 - i);
    assert forall j :: 0 <= j < i ==> t[j] != t[i];
  }

  /** An acknowledgement with another identity does not notice. */
  lemma OtherAckOk(net: Network, st: State, a: Ack, b: Ack)
    requires net.Valid() && AckOk(net, st, a) && AckOk(net, st, b) && a.id != b.id
    ensures a.dest in net.peers && AckOk(net, DeliverAck(net, st, a), b)
  {
    hide DeliverAck, Leads, Stored, Path;
    AckAfter(net, st, a);
    var st', t := DeliverAck(net, st, a), b.id.trace;
    GoesOnMore(st.routes, st'.routes, b.dest, b.through, b.id.target, |t| - 1 - IndexOf(t, b.dest),
               |t| - 1 - IndexOf(t, b.dest));
  }

  lemma AckKeepsAcks(net: Network, st: State, a: Ack)
    requires net.Valid() && AcksOk(net, st) && a in st.acks
    ensures a.dest in net.peers && AcksOk(net, DeliverAck(net, st, a))
  {
    hide DeliverAck, AckOk;
    assert AckOk(net, st, a);
    AckAfter(net, st, a);
    var st', i := DeliverAck(net, st, a), IndexOf(a.id.trace, a.dest);
    assert a !in st.acks - multiset{a};
    forall b | b in st'.acks
      ensures AckOk(net, st', b) && st'.acks[b] == 1
    {
      if b.id == a.id {
        BackOk(net, st, a);
      } else {
        assert b in st.acks;
        OtherAckOk(net, st, a, b);
      }
    }
    AckCounter(net, st, a);
  }

  lemma AckCounter(net: Network, st: State, a: Ack)
    requires AckOk(net, st, a)
    ensures a.id.seenCounter < Count(st.seen, a.id.target)
  {
  }

  lemma AckKeepsAnswered(net: Network, st: State, a: Ack)
    requires net.Valid() && AcksOk(net, st) && Answered(net, st) && a in st.acks
    ensures a.dest in net.peers && Answered(net, DeliverAck(net, st, a))
  {
    hide DeliverAck, Path;
    assert AckOk(net, st, a);
    AckAfter(net, st, a);
    var st', i := DeliverAck(net, st, a), IndexOf(a.id.trace, a.dest);
    assert a.id.trace[0] == net.origin by {
      PathPrefix(net, a.id.trace, a.id.target);
      PathStart(net, a.id.trace);
    }
    hide AckOk, IndexOf;
    forall t | t != net.origin && Count(st'.seen, t) > 0
      ensures RouteFor(st'.routes, net.origin, t) || AckFor(st'.acks, t)
    {
      if RouteFor(st.routes, net.origin, t) {
        var via :| Stored(st.routes, net.origin, net.origin, t, via);
        assert Stored(st'.routes, net.origin, net.origin, t, via);
      } else {
        var b :| b in st.acks && b.id.target == t;
        if b != a {
          assert b in st'.acks;
        } else if i > 0 {
          assert Ack(a.id.trace[i - 1], a.dest, a.id) in st'.acks;
        } else {
          assert a.dest == net.origin;
          assert Stored(st'.routes, net.origin, net.origin, t, a.through);
        }
      }
    }
  }

  // ---------- Who is reached ----------

  /** A walk from the origin on which everybody but the last relays. */
  ghost predicate Walk(net: Network, s: seq<Peer>) {
    && |s| > 0 && s[0] == net.origin
    && (forall i :: 0 <= i < |s| ==> s[i] in net.peers)
    && (forall i :: 0 < i < |s| ==> s[i] in net.peers[s[i - 1]])
    && (forall i :: 0 < i < |s| - 1 ==> s[i] in net.relays)
  }

  ghost predicate Connected(net: Network, x: Peer) {
    exists s :: Walk(net, s) && s[|s| - 1] == x
  }

  ghost predicate OnlyConnected(net: Network, st: State) {
    && (forall x :: Count(st.seen, x) > 0 ==> Connected(net, x))
    && (forall c :: c in st.copies ==> Connected(net, c.dest))
  }

  lemma ConnectedStep(net: Network, u: Peer, v: Peer)
    requires net.Valid() && Connected(net, u) && (u in net.relays || u == net.origin) && u in net.peers
             && v in net.peers[u]
    ensures Connected(net, v)
  {
    var s :| Walk(net, s) && s[|s| - 1] == u;
    if u == net.origin {
      assert Walk(net, [u, v]);
    } else {
      assert Walk(net, s + [v]);
    }
  }

  lemma CopyKeepsConnected(net: Network, st: State, c: Copy)
    requires net.Valid() && CopiesOk(net, st) && OnlyConnected(net, st) && c in st.copies
    ensures |c.signers| > 0 && c.dest in net.peers
    ensures OnlyConnected(net, DeliverCopy(net, st, c))
  {
    NeverMine(net, st, c);
    CopiesAfter(net, st, c);
    var n, st' := c.dest, DeliverCopy(net, st, c);
    forall d | d in st'.copies
      ensures Connected(net, d.dest)
    {
      if d !in st.copies {
        assert n in net.relays;
        ConnectedStep(net, n, d.dest);
      }
    }
    hide DeliverCopy, Connected;
    forall x | Count(st'.seen, x) > 0
      ensures Connected(net, x)
    {
      BumpCount(st.seen, n, x);
    }
  }

  lemma WalkSeen(net: Network, st: State, s: seq<Peer>, i: nat)
    requires CountsOk(net, st) && Covered(net, st) && Walk(net, s) && st.copies == multiset{} && i < |s|
    ensures Count(st.seen, s[i]) > 0
  {
    if i > 0 {
      WalkSeen(net, st, s, i - 1);
      assert s[i] in net.peers[s[i - 1]] && Spreads(net, st, s[i - 1]);
    }
  }

  // ---------- Every run ----------

  ghost predicate Inv(net: Network, st: State) {
    && CopiesOk(net, st) && CountsOk(net, st) && Covered(net, st) && OnlyConnected(net, st)
    && AcksOk(net, st) && RoutesOk(net, st) && Answered(net, st)
  }

  lemma InitInv(net: Network)
    requires net.Valid()
    ensures Inv(net, Init(net))
  {
    var st := Init(net);
    forall c | c in st.copies
      ensures CopyOk(net, st, c) && Connected(net, c.dest)
    {
      assert c in CopiesTo(net.peers[net.origin], [net.origin]);
      assert Walk(net, [net.origin, c.dest]);
    }
    assert Walk(net, [net.origin]);
    forall u, v | u in net.peers && v in net.peers[u] && Spreads(net, st, u)
      ensures InFlight(st.copies, v)
    {
      assert Copy(v, [net.origin]) in CopiesTo(net.peers[net.origin], [net.origin]);
      assert Copy(v, [net.origin]) in st.copies;
    }
  }

  lemma CopyKeeps(net: Network, st: State, c: Copy)
    requires net.Valid() && Inv(net, st) && c in st.copies
    ensures |c.signers| > 0 && c.dest in net.peers
    ensures Inv(net, DeliverCopy(net, st, c))
  {
    hide DeliverCopy, CopiesOk, CountsOk, Covered, OnlyConnected, AcksOk, Answered;
    CopyKeepsCopies(net, st, c);
    CopyKeepsCounts(net, st, c);
    CopyKeepsCovered(net, st, c);
    CopyKeepsConnected(net, st, c);
    CopyKeepsAcks(net, st, c);
    CopyKeepsAnswered(net, st, c);
    CopyKeepsRoutes(net, st, c);
  }

  lemma CopyKeepsRoutes(net: Network, st: State, c: Copy)
    requires net.Valid() && CopiesOk(net, st) && RoutesOk(net, st) && c in st.copies
    ensures |c.signers| > 0 && c.dest in net.peers
    ensures RoutesOk(net, DeliverCopy(net, st, c))
  {
    NeverMine(net, st, c);
  }

  lemma AckKeeps(net: Network, st: State, a: Ack)
    requires net.Valid() && Inv(net, st) && a in st.acks
    ensures a.dest in net.peers
    ensures Inv(net, DeliverAck(net, st, a))
  {
    assert AckOk(net, st, a);
    AckAfter(net, st, a);
    hide DeliverAck, AckOk, AcksOk, Answered, RoutesOk, CopyOk, Connected;
    AckKeepsAcks(net, st, a);
    AckKeepsRoutes(net, st, a);
    AckKeepsAnswered(net, st, a);
    AckKeepsRest(net, st, DeliverAck(net, st, a));
  }

  lemma AckKeepsRest(net: Network, st: State, st': State)
    requires CopiesOk(net, st) && CountsOk(net, st) && Covered(net, st) && OnlyConnected(net, st)
    requires st'.seen == st.seen && st'.copies == st.copies && st'.callbacks == st.callbacks
    requires st'.raised == st.raised && st'.relayed == st.relayed
    ensures CopiesOk(net, st') && CountsOk(net, st') && Covered(net, st') && OnlyConnected(net, st')
  {
    AckKeepsCopies(net, st, st');
    hide CopiesOk, Path, Connected;
  }

  lemma AckKeepsCopies(net: Network, st: State, st': State)
    requires CopiesOk(net, st) && st'.seen == st.seen && st'.copies == st.copies && st'.callbacks == st.callbacks
    ensures CopiesOk(net, st')
  {
    hide Path;
    forall c | c in st'.copies
      ensures CopyOk(net, st', c)
    {
      assert CopyOk(net, st, c);
    }
  }

  lemma NextKeeps(net: Network, st: State, st': State)
    requires net.Valid() && Inv(net, st) && Next(net, st, st')
    ensures Inv(net, st')
  {
    hide Inv, DeliverCopy, DeliverAck;
    if c :| c in st.copies && c.dest in net.peers && |c.signers| > 0 && st' == DeliverCopy(net, st, c) {
      CopyKeeps(net, st, c);
    } else {
      var a :| a in st.acks && a.dest in net.peers && st' == DeliverAck(net, st, a);
      AckKeeps(net, st, a);
    }
  }

  lemma {:induction false} RunKeeps(net: Network, states: seq<State>, i: nat)
    requires Run(net, states) && i < |states|
    ensures Inv(net, states[i])
  {
    hide Inv, Next, Init;
    if i == 0 {
      InitInv(net);
    } else {
      RunKeeps(net, states, i - 1);
      NextKeeps(net, states[i - 1], states[i]);
    }
  }

  // ---------- Termination ----------

  ghost function Pick(xs: set<Peer>): (x: Peer)
    requires xs != {}
    ensures x in xs
  {
    var x :| x in xs;
    x
  }

  function Spare(seen: map<Peer, nat>, redundancy: nat, x: Peer): nat {
    if Count(seen, x) < redundancy then redundancy - Count(seen, x) else 0
  }

  /** How many more copies the peers `xs` would react to. */
  ghost function Left(seen: map<Peer, nat>, redundancy: nat, xs: set<Peer>): nat {
    if xs == {} then 0
    else
      var x := Pick(xs);
      Left(seen, redundancy, xs - {x}) + Spare(seen, redundancy, x)
  }

  lemma {:induction false} LeftSame(seen: map<Peer, nat>, redundancy: nat, xs: set<Peer>, n: Peer)
    requires n !in xs
    ensures Left(Bump(seen, n), redundancy, xs) == Left(seen, redundancy, xs)
  {
    if xs != {} {
      LeftSame(seen, redundancy, xs - {Pick(xs)}, n);
    }
  }

  lemma {:induction false} LeftLess(seen: map<Peer, nat>, redundancy: nat, xs: set<Peer>, n: Peer)
    requires n in xs
    ensures Left(seen, redundancy, xs) ==
            Left(Bump(seen, n), redundancy, xs) + if Count(seen, n) < redundancy then 1 else 0
  {
    var x := Pick(xs);
    if x == n {
      LeftSame(seen, redundancy, xs - {x}, n);
    } else {
      LeftLess(seen, redundancy, xs - {x}, n);
    }
  }

  lemma {:induction false} LeftBound(seen: map<Peer, nat>, redundancy: nat, xs: set<Peer>)
    ensures Left(seen, redundancy, xs) <= |xs| * redundancy
  {
    if xs != {} {
      var x := Pick(xs);
      LeftBound(seen, redundancy, xs - {x});
      assert |xs| == |xs - {x}| + 1;
      assert |xs| * redundancy == |xs - {x}| * redundancy + redundancy;
    }
  }

  ghost function HopSum(acks: multiset<Ack>): nat
    decreases |acks|
  {
    if |acks| == 0 then 0
    else
      var a := OneOf(acks);
      HopSum(acks - multiset{a}) + Hops(a)
  }

  lemma WithoutTwo(acks: multiset<Ack>, a: Ack, b: Ack)
    requires a in acks && b in acks && a != b
    ensures a in acks - multiset{b} && b in acks - multiset{a}
    ensures acks - multiset{a} - multiset{b} == acks - multiset{b} - multiset{a}
    ensures |acks - multiset{a}| == |acks - multiset{b}| == |acks| - 1
  {
  }

  lemma HopSumPick(acks: multiset<Ack>)
    requires |acks| > 0
    ensures OneOf(acks) in acks && HopSum(acks) == HopSum(acks - multiset{OneOf(acks)}) + Hops(OneOf(acks))
  {
  }

  lemma {:induction false} HopSumRemove(acks: multiset<Ack>, a: Ack)
    requires a in acks
    ensures HopSum(acks) == HopSum(acks - multiset{a}) + Hops(a)
    decreases |acks|
  {
    assert |acks| > 0;
    HopSumPick(acks);
    hide Hops, HopSum, OneOf;
    var b := OneOf(acks);
    if b != a {
      WithoutTwo(acks, a, b);
      HopSumRemove(acks - multiset{b}, a);
      HopSumRemove(acks - multiset{a}, b);
    }
  }

  lemma HopSumAdd(acks: multiset<Ack>, a: Ack)
    ensures HopSum(acks + multiset{a}) == HopSum(acks) + Hops(a)
  {
    HopSumRemove(acks + multiset{a}, a);
    assert acks + multiset{a} - multiset{a} == acks;
  }

  lemma {:induction false} CopiesToSize(dests: set<Peer>, signers: seq<Peer>)
    ensures |CopiesTo(dests, signers)| == |dests|
  {
    if dests != {} {
      var x := Pick(dests);
      CopiesToSize(dests - {x}, signers);
      assert CopiesTo(dests, signers) == CopiesTo(dests - {x}, signers) + {Copy(x, signers)};
    }
  }

  /** A bound on the number of deliveries that can still happen. */
  ghost function Measure(net: Network, st: State): nat {
    (2 * |net.peers| + 1) * Left(st.seen, net.redundancy, net.peers.Keys) + |st.copies| + HopSum(st.acks)
  }

  lemma RelayedSize(net: Network, st: State, c: Copy)
    requires net.Valid() && c.dest in net.peers && |c.signers| > 0 && c in st.copies && c.dest !in c.signers
    ensures |DeliverCopy(net, st, c).copies| <=
            |st.copies| - 1 + if Count(st.seen, c.dest) < net.redundancy then |net.peers| else 0
  {
    var n := c.dest;
    var dests := Receivers(net.peers[n], c.signers);
    CopiesToSize(dests, c.signers + [n]);
    assert |net.peers.Keys| == |net.peers|;
    SubsetSize(dests, net.peers.Keys);
    var r := React(n, net.peers[n], n in net.relays, net.redundancy, Count(st.seen, n), c.signers);
    assert |multiset(r.copies)| == |r.copies|;
  }

  lemma MeasureLess(w: nat, k: nat, l: nat, l': nat, c: nat, c': nat, h: nat, h': nat)
    requires w == 2 * k + 1
    requires (l == l' && c' <= c - 1 && h' == h) || (l == l' + 1 && c' <= c - 1 + k && h' <= h + k)
    ensures w * l' + c' + h' < w * l + c + h
  {
    if l == l' + 1 {
      assert w * l == w * l' + w;
    }
  }

  lemma CopyDecreases(net: Network, st: State, c: Copy)
    requires net.Valid() && CopiesOk(net, st) && c in st.copies
    ensures |c.signers| > 0 && c.dest in net.peers
    ensures Measure(net, DeliverCopy(net, st, c)) < Measure(net, st)
  {
    hide DeliverCopy, Left, HopSum;
    NeverMine(net, st, c);
    CopiesAfter(net, st, c);
    AcksAfter(net, st, c);
    RelayedSize(net, st, c);
    LeftLess(st.seen, net.redundancy, net.peers.Keys, c.dest);
    var a := Ack(c.signers[|c.signers| - 1], c.dest, AckId(c.dest, Count(st.seen, c.dest), c.signers));
    HopSumAdd(st.acks, a);
    PathIsShort(net, c.signers + [c.dest]);
    var st', k, xs := DeliverCopy(net, st, c), |net.peers|, net.peers.Keys;
    MeasureLess(2 * k + 1, k, Left(st.seen, net.redundancy, xs), Left(st'.seen, net.redundancy, xs),
                |st.copies|, |st'.copies|, HopSum(st.acks), HopSum(st'.acks));
  }

  lemma AckDecreases(net: Network, st: State, a: Ack)
    requires net.Valid() && AcksOk(net, st) && a in st.acks
    ensures a.dest in net.peers && Measure(net, DeliverAck(net, st, a)) < Measure(net, st)
  {
    hide DeliverAck, Left, HopSum;
    assert AckOk(net, st, a);
    AckAfter(net, st, a);
    var t, i, rest := a.id.trace, IndexOf(a.id.trace, a.dest), st.acks - multiset{a};
    HopSumRemove(st.acks, a);
    if i > 0 {
      var b := Ack(t[i - 1], a.dest, a.id);
      BackOk(net, st, a);
      HopSumAdd(rest, b);
    } else {
      assert rest + multiset{} == rest;
    }
  }

  lemma NextDecreases(net: Network, st: State, st': State)
    requires net.Valid() && Inv(net, st) && Next(net, st, st')
    ensures Measure(net, st') < Measure(net, st)
  {
    hide DeliverCopy, DeliverAck, Measure, CopiesOk, AcksOk;
    if c :| c in st.copies && c.dest in net.peers && |c.signers| > 0 && st' == DeliverCopy(net, st, c) {
      CopyDecreases(net, st, c);
    } else {
      var a :| a in st.acks && a.dest in net.peers && st' == DeliverAck(net, st, a);
      AckDecreases(net, st, a);
    }
  }

  lemma MulLess(w: nat, l: nat, m: nat)
    requires l <= m
    ensures w * l <= w * m
  {
  }

  lemma InitMeasure(net: Network)
    requires net.Valid()
    ensures Measure(net, Init(net)) <= (2 * |net.peers| + 1) * (|net.peers| * net.redundancy) + |net.peers|
  {
    hide Left;
    var k, st, dests := |net.peers|, Init(net), net.peers[net.origin];
    assert |net.peers.Keys| == k;
    LeftBound(st.seen, net.redundancy, net.peers.Keys);
    CopiesToSize(dests, [net.origin]);
    SubsetSize(dests, net.peers.Keys);
    assert |multiset(CopiesTo(dests, [net.origin]))| == |CopiesTo(dests, [net.origin])|;
    MulLess(2 * k + 1, Left(st.seen, net.redundancy, net.peers.Keys), k * net.redundancy);
  }

  lemma {:induction false} RunMeasure(net: Network, states: seq<State>, i: nat)
    requires Run(net, states) && i < |states|
    ensures i + Measure(net, states[i]) <= Measure(net, Init(net))
  {
    hide Measure, Inv, Init, Next;
    if i > 0 {
      RunMeasure(net, states, i - 1);
      RunKeeps(net, states, i - 1);
      NextDecreases(net, states[i - 1], states[i]);
    }
  }

  // ---------- The main results ----------

  /** Only a quiescent state has no next state: a run that cannot go on has delivered everything. */
  lemma NeverStuck(net: Network, states: seq<State>)
    requires Run(net, states)
    ensures Quiescent(states[|states| - 1]) <==> !CanStep(net, states[|states| - 1])
  {
    var st := states[|states| - 1];
    RunKeeps(net, states, |states| - 1);
    if |st.copies| > 0 {
      var c :| c in st.copies;
      NeverMine(net, st, c);
      assert Next(net, st, DeliverCopy(net, st, c));
    } else if |st.acks| > 0 {
      var a :| a in st.acks;
      assert AckOk(net, st, a);
      AckAfter(net, st, a);
      assert Next(net, st, DeliverAck(net, st, a));
    }
  }

  /** The flood ends: no run delivers more copies and acknowledgements than this. */
  lemma FloodTerminates(net: Network, states: seq<State>)
    requires Run(net, states)
    ensures |states| - 1 <= (2 * |net.peers| + 1) * (|net.peers| * net.redundancy) + |net.peers|
  {
    hide Measure, Init, Next;
    RunMeasure(net, states, |states| - 1);
    InitMeasure(net);
  }

  /** At every moment of every run: nobody raises `data` twice, the origin never does, nobody relays
      more than `redundancy` times, and whoever raises it is connected to the origin. */
  lemma FloodIsSafe(net: Network, states: seq<State>, i: nat, x: Peer)
    requires Run(net, states) && i < |states|
    ensures Count(states[i].raised, x) <= 1 && Count(states[i].relayed, x) <= net.redundancy
    ensures Count(states[i].raised, x) == 1 ==> x != net.origin && Connected(net, x)
  {
    hide Next, Init, Connected, CopiesOk, Covered, AcksOk, RoutesOk, Answered;
    RunKeeps(net, states, i);
  }

  /** When nothing is on its way any more, exactly the peers connected to the origin have raised `data`. */
  lemma FloodIsComplete(net: Network, states: seq<State>, x: Peer)
    requires Run(net, states) && states[|states| - 1].copies == multiset{} && x != net.origin
    ensures Count(states[|states| - 1].raised, x) == 1 <==> Connected(net, x)
  {
    var st := states[|states| - 1];
    RunKeeps(net, states, |states| - 1);
    if Connected(net, x) {
      var s :| Walk(net, s) && s[|s| - 1] == x;
      WalkSeen(net, st, s, |s| - 1);
    }
  }

  /** Learned routes have no dead ends: at every moment of every run, the neighbour of a stored route
      is the target, or has stored routes that lead on to it, in no more hops than there are peers. */
  lemma RoutesLeadOn(net: Network, states: seq<State>, i: nat, r: Route)
    requires Run(net, states) && i < |states| && r in states[i].routes
    ensures r.via == r.target || Leads(states[i].routes, r.at, r.via, r.target, |net.peers|)
  {
    hide Next, Init, Leads;
    RunKeeps(net, states, i);
  }

  /** When nothing is on its way any more, the origin has stored a route to every peer it is connected
      to, and stored routes lead from it to that peer. */
  lemma OriginKnowsAll(net: Network, states: seq<State>, x: Peer)
    requires Run(net, states) && Quiescent(states[|states| - 1]) && x != net.origin && Connected(net, x)
    ensures Leads(states[|states| - 1].routes, net.origin, net.origin, x, |net.peers| + 1)
  {
    hide Next, Init, Leads, Connected;
    var st := states[|states| - 1];
    RunKeeps(net, states, |states| - 1);
    FloodIsComplete(net, states, x);
    assert RouteFor(st.routes, net.origin, x);
    var via :| Stored(st.routes, net.origin, net.origin, x, via);
    var r :| r in st.routes && r.at == net.origin && r.from == net.origin && r.target == x && r.via == via;
    StoredGoesOn(st.routes, r, |net.peers|);
  }

  /** Every copy on its way has been signed along a simple path from the origin, and every
      acknowledgement is on such a path, with as many hops to go as its index says. */
  lemma TracesAreSimplePaths(net: Network, states: seq<State>, i: nat)
    requires Run(net, states) && i < |states|
    ensures forall c :: c in states[i].copies ==> Path(net, c.signers + [c.dest])
    ensures forall a :: a in states[i].acks ==>
              Path(net, a.id.trace + [a.id.target]) && 1 <= Hops(a) <= |a.id.trace| && a.dest == a.id.trace[Hops(a) - 1]
    ensures forall a :: a in states[i].acks ==> (a.dest, a.id) !in states[i].ackSeen
  {
    hide Next, Init, Path, IndexOf, Answered, Covered, CountsOk, RoutesOk, OnlyConnected;
    RunKeeps(net, states, i);
    forall a | a in states[i].acks
      ensures Path(net, a.id.trace + [a.id.target]) && 1 <= Hops(a) <= |a.id.trace| && a.dest == a.id.trace[Hops(a) - 1]
      ensures (a.dest, a.id) !in states[i].ackSeen
    {
      assert AckOk(net, states[i], a);
    }
    forall c | c in states[i].copies
      ensures Path(net, c.signers + [c.dest])
    {
      assert CopyOk(net, states[i], c);
    }
  }
}
