/** Which peers subscribe to which topics, as one node knows it. */
module PubSubs {
  import opened Peers

  datatype Topic = Topic(name: nat)

  datatype Kind = Subscribe | Unsubscribe

  datatype Message = Message(kind: Kind, sender: Peer, topics: seq<Topic>, timestamp: nat, session: nat)

  datatype Subscription = Subscription(session: nat, timestamp: nat)

  /** The three maps of subscriptions, and the last message of each peer on each topic. */
  datatype State = State(topics: map<Topic, map<Peer, Subscription>>, topicsToPeers: map<Topic, set<Peer>>,
                         peerToTopic: map<Peer, set<Topic>>, last: map<Peer, map<Topic, Message>>)

  predicate Member(s: State, t: Topic, p: Peer) {
    t in s.topics && p in s.topics[t]
  }

  predicate LastIs(s: State, p: Peer, t: Topic, m: Message) {
    p in s.last && t in s.last[p] && s.last[p][t] == m
  }

  function TopicsOf(s: State, p: Peer): set<Topic> {
    if p in s.peerToTopic then s.peerToTopic[p] else {}
  }

  /** The maps agree: the two by topic say the same, and the one by peer has all they have. */
  ghost predicate Consistent(s: State) {
    && s.topics.Keys == s.topicsToPeers.Keys
    && (forall t :: t in s.topics ==> s.topics[t].Keys == s.topicsToPeers[t])
    && (forall t, p :: Member(s, t, p) ==> t in TopicsOf(s, p))
    && (forall p :: p in s.peerToTopic ==> s.peerToTopic[p] != {})
  }

  // ---------- What messages do ----------

  /** No later message of its sender is known, on any of its topics. */
  predicate IsLatest(s: State, m: Message) {
    forall t :: t in m.topics && m.sender in s.last && t in s.last[m.sender] ==>
      s.last[m.sender][t].timestamp <= m.timestamp
  }

  /** The message is the last one of its sender on the topic. */
  function NotedOn(s: State, m: Message, t: Topic): State {
    s.(last := s.last[m.sender := (if m.sender in s.last then s.last[m.sender] else map[])[t := m]])
  }

  function Noted(s: State, m: Message, ts: seq<Topic>): State {
    if |ts| == 0 then s else NotedOn(Noted(s, m, ts[..|ts| - 1]), m, ts[|ts| - 1])
  }

  /** Subscribes the sender to a topic, if it is tracked: a newer session replaces an older one. */
  function SubscribedTo(s: State, m: Message, t: Topic): State {
    if t !in s.topics then s
    else
      var p, existing := m.sender, m.sender in s.topics[t];
      State(
        if !existing || s.topics[t][p].session < m.session
        then s.topics[t := s.topics[t][p := Subscription(m.session, m.timestamp)]] else s.topics,
        if !existing && t in s.topicsToPeers then s.topicsToPeers[t := s.topicsToPeers[t] + {p}] else s.topicsToPeers,
        s.peerToTopic[p := TopicsOf(s, p) + if existing then {} else {t}],
        s.last)
  }

  function Subscribed(s: State, m: Message, ts: seq<Topic>): State {
    if |ts| == 0 then s else SubscribedTo(Subscribed(s, m, ts[..|ts| - 1]), m, ts[|ts| - 1])
  }

  /** Takes a peer out of a topic. */
  function UnsubscribedFrom(s: State, p: Peer, t: Topic): State {
    State(
      if t in s.topics then s.topics[t := s.topics[t] - {p}] else s.topics,
      if t in s.topicsToPeers then s.topicsToPeers[t := s.topicsToPeers[t] - {p}] else s.topicsToPeers,
      if TopicsOf(s, p) - {t} == {} then s.peerToTopic - {p} else s.peerToTopic[p := TopicsOf(s, p) - {t}],
      s.last)
  }

  function Unsubscribed(s: State, p: Peer, ts: seq<Topic>): State {
    if |ts| == 0 then s else UnsubscribedFrom(Unsubscribed(s, p, ts[..|ts| - 1]), p, ts[|ts| - 1])
  }

  /** What receiving a subscription message does, the `seenBefore`th time. */
  function Received(s: State, m: Message, seenBefore: nat): State {
    match m.kind
    case Subscribe =>
      if seenBefore == 0 && IsLatest(s, m) then Subscribed(Noted(s, m, m.topics), m, m.topics) else s
    case Unsubscribe =>
      if IsLatest(s, m) then Unsubscribed(Noted(s, m, m.topics), m.sender, m.topics) else s
  }

  /** What is forgotten when a peer has restarted or cannot be reached any more. */
  function Forgotten(s: State, p: Peer): State {
    State(map t | t in s.topics :: s.topics[t] - {p}, map t | t in s.topicsToPeers :: s.topicsToPeers[t] - {p},
          s.peerToTopic - {p}, s.last - {p})
  }

  lemma {:induction false} NotedFrame(s: State, m: Message, ts: seq<Topic>)
    ensures Noted(s, m, ts) == s.(last := Noted(s, m, ts).last)
  {
    if |ts| > 0 {
      NotedFrame(s, m, ts[..|ts| - 1]);
    }
  }

  lemma NotedKeeps(s: State, m: Message, ts: seq<Topic>)
    ensures Consistent(s) ==> Consistent(Noted(s, m, ts))
    ensures forall t, p :: Member(Noted(s, m, ts), t, p) <==> Member(s, t, p)
  {
    var s' := Noted(s, m, ts);
    NotedFrame(s, m, ts);
    forall t, p
      ensures Member(s', t, p) <==> Member(s, t, p)
    {
    }
    assert forall p :: TopicsOf(s', p) == TopicsOf(s, p);
  }

  lemma {:induction false} SubscribedAt(s: State, m: Message, ts: seq<Topic>, t: Topic)
    ensures var s' := Subscribed(s, m, ts);
            && s'.last == s.last
            && (t in s'.topics <==> t in s.topics)
            && (Member(s', t, m.sender) <==> Member(s, t, m.sender) || (t in ts && t in s.topics))
            && forall p :: p != m.sender ==> (Member(s', t, p) <==> Member(s, t, p))
  {
    if |ts| > 0 {
      SubscribedAt(s, m, ts[..|ts| - 1], t);
      var s1 := Subscribed(s, m, ts[..|ts| - 1]);
      assert t in ts <==> t in ts[..|ts| - 1] || t == ts[|ts| - 1];
    }
  }

  lemma SubscribedToKeeps(s: State, m: Message, t: Topic)
    requires Consistent(s)
    ensures Consistent(SubscribedTo(s, m, t))
  {
    var s' := SubscribedTo(s, m, t);
    forall x, p
      ensures Member(s', x, p) ==> x in TopicsOf(s', p)
    {
      assert Member(s, x, p) ==> x in TopicsOf(s, p);
    }
    assert Member(s, t, m.sender) ==> t in TopicsOf(s, m.sender);
  }

  lemma {:induction false} SubscribedKeeps(s: State, m: Message, ts: seq<Topic>)
    requires Consistent(s)
    ensures Consistent(Subscribed(s, m, ts))
  {
    hide Consistent;
    if |ts| > 0 {
      SubscribedKeeps(s, m, ts[..|ts| - 1]);
      SubscribedToKeeps(Subscribed(s, m, ts[..|ts| - 1]), m, ts[|ts| - 1]);
    }
  }

  lemma {:induction false} UnsubscribedAt(s: State, p: Peer, ts: seq<Topic>, t: Topic)
    ensures var s' := Unsubscribed(s, p, ts);
            && s'.last == s.last
            && (t in s'.topics <==> t in s.topics)
            && (Member(s', t, p) <==> Member(s, t, p) && t !in ts)
            && forall q :: q != p ==> (Member(s', t, q) <==> Member(s, t, q))
  {
    if |ts| > 0 {
      UnsubscribedAt(s, p, ts[..|ts| - 1], t);
      assert t in ts <==> t in ts[..|ts| - 1] || t == ts[|ts| - 1];
    }
  }

  lemma UnsubscribedFromKeeps(s: State, p: Peer, t: Topic)
    requires Consistent(s)
    ensures Consistent(UnsubscribedFrom(s, p, t))
  {
    var s' := UnsubscribedFrom(s, p, t);
    forall x, q
      ensures Member(s', x, q) ==> x in TopicsOf(s', q)
    {
      assert Member(s, x, q) ==> x in TopicsOf(s, q);
    }
  }

  lemma {:induction false} UnsubscribedKeeps(s: State, p: Peer, ts: seq<Topic>)
    requires Consistent(s)
    ensures Consistent(Unsubscribed(s, p, ts))
  {
    hide Consistent;
    if |ts| > 0 {
      UnsubscribedKeeps(s, p, ts[..|ts| - 1]);
      UnsubscribedFromKeeps(Unsubscribed(s, p, ts[..|ts| - 1]), p, ts[|ts| - 1]);
    }
  }

  /** The maps agree in all states that messages and resets lead to. */
  lemma ReceivedKeeps(s: State, m: Message, seenBefore: nat)
    requires Consistent(s)
    ensures Consistent(Received(s, m, seenBefore))
  {
    hide Subscribed, Unsubscribed, Consistent;
    NotedKeeps(s, m, m.topics);
    SubscribedKeeps(Noted(s, m, m.topics), m, m.topics);
    UnsubscribedKeeps(Noted(s, m, m.topics), m.sender, m.topics);
  }

  /** After a reset the peer is in no topic, in none of the maps, and nothing else has changed. */
  lemma ForgottenIsGone(s: State, p: Peer)
    requires Consistent(s)
    ensures Consistent(Forgotten(s, p))
    ensures p !in Forgotten(s, p).peerToTopic && p !in Forgotten(s, p).last
    ensures forall t :: t in Forgotten(s, p).topicsToPeers ==> p !in Forgotten(s, p).topicsToPeers[t]
    ensures forall t, q :: Member(Forgotten(s, p), t, q) <==> Member(s, t, q) && q != p
  {
    var s' := Forgotten(s, p);
    forall t, q
      ensures Member(s', t, q) <==> Member(s, t, q) && q != p
      ensures Member(s', t, q) ==> t in TopicsOf(s', q)
    {
      assert Member(s, t, q) ==> t in TopicsOf(s, q);
    }
  }

  // ---------- What the node itself does ----------

  /** What is forgotten of the messages of the peers on a topic, when the node unsubscribes. */
  function Ungated(s: State, t: Topic): State {
    s.(last := if t in s.topicsToPeers then s.last - s.topicsToPeers[t] else s.last)
  }

  function Tracked(s: State, t: Topic): State {
    s.(topics := if t in s.topics then s.topics else s.topics[t := map[]],
       topicsToPeers := if t in s.topicsToPeers then s.topicsToPeers else s.topicsToPeers[t := {}])
  }

  function Untracked(s: State, t: Topic): State {
    s.(topics := s.topics - {t}, topicsToPeers := s.topicsToPeers - {t})
  }

  lemma TrackedKeeps(s: State, t: Topic)
    requires Consistent(s)
    ensures Consistent(Tracked(s, t))
    ensures forall x, p :: Member(Tracked(s, t), x, p) <==> Member(s, x, p)
  {
    var s' := Tracked(s, t);
    forall x, p
      ensures Member(s', x, p) <==> Member(s, x, p)
    {
    }
    assert forall p :: TopicsOf(s', p) == TopicsOf(s, p);
  }

  lemma UntrackedKeeps(s: State, t: Topic)
    requires Consistent(s)
    ensures Consistent(Untracked(s, t))
    ensures forall x, p :: Member(Untracked(s, t), x, p) <==> Member(s, x, p) && x != t
  {
    var s' := Untracked(s, t);
    forall x, p
      ensures Member(s', x, p) <==> Member(s, x, p) && x != t
    {
    }
    assert forall p :: TopicsOf(s', p) == TopicsOf(s, p);
  }

  lemma UngatedKeeps(s: State, t: Topic)
    requires Consistent(s)
    ensures Consistent(Ungated(s, t))
    ensures forall x, p :: Member(Ungated(s, t), x, p) <==> Member(s, x, p)
  {
    var s' := Ungated(s, t);
    forall x, p
      ensures Member(s', x, p) <==> Member(s, x, p)
    {
    }
    assert forall p :: TopicsOf(s', p) == TopicsOf(s, p);
  }

  // ---------- What one message decides ----------

  /** The message is about the peer's subscription to the topic. */
  predicate Concerns(m: Message, p: Peer, t: Topic) {
    m.sender == p && t in m.topics
  }

  lemma NotedLast(s: State, m: Message, p: Peer, t: Topic)
    ensures var s' := Noted(s, m, m.topics);
            && (p in s'.last && t in s'.last[p] <==> (p in s.last && t in s.last[p]) || Concerns(m, p, t))
            && (Concerns(m, p, t) ==> LastIs(s', p, t, m))
            && (!Concerns(m, p, t) && p in s.last && t in s.last[p] ==> LastIs(s', p, t, s.last[p][t]))
            && (t in s'.topics <==> t in s.topics)
  {
    NotedFrame(s, m, m.topics);
    NotedLasts(s, m, m.topics, p, t);
  }

  lemma {:induction false} NotedLasts(s: State, m: Message, ts: seq<Topic>, p: Peer, t: Topic)
    ensures var s' := Noted(s, m, ts);
            && (p in s'.last && t in s'.last[p] <==> (p in s.last && t in s.last[p]) || (p == m.sender && t in ts))
            && (p == m.sender && t in ts ==> LastIs(s', p, t, m))
            && (!(p == m.sender && t in ts) && p in s.last && t in s.last[p] ==> LastIs(s', p, t, s.last[p][t]))
  {
    if |ts| > 0 {
      NotedLasts(s, m, ts[..|ts| - 1], p, t);
      assert t in ts <==> t in ts[..|ts| - 1] || t == ts[|ts| - 1];
    }
  }

  /** A message that is not about the peer and the topic leaves what is known of them. */
  lemma OthersLeave(s: State, m: Message, seenBefore: nat, p: Peer, t: Topic)
    requires !Concerns(m, p, t)
    ensures var s' := Received(s, m, seenBefore);
            && (t in s'.topics <==> t in s.topics) && (Member(s', t, p) <==> Member(s, t, p))
            && (p in s'.last && t in s'.last[p] <==> p in s.last && t in s.last[p])
            && (p in s.last && t in s.last[p] ==> LastIs(s', p, t, s.last[p][t]))
  {
    hide Noted, IsLatest;
    var noted := Noted(s, m, m.topics);
    NotedLast(s, m, p, t);
    NotedKeeps(s, m, m.topics);
    SubscribedAt(noted, m, m.topics, t);
    UnsubscribedAt(noted, m.sender, m.topics, t);
    hide Subscribed, Unsubscribed;
  }

  /** A message on one topic is taken if it is not older than the last one, and then decides. */
  lemma OneDecides(s: State, m: Message, seenBefore: nat, t: Topic)
    requires t in s.topics && m.topics == [t]
    ensures var s', p := Received(s, m, seenBefore), m.sender;
            && t in s'.topics
            && if (m.kind.Subscribe? && seenBefore > 0) || (p in s.last && t in s.last[p]
                                                            && s.last[p][t].timestamp > m.timestamp)
               then s' == s
               else LastIs(s', p, t, m) && (Member(s', t, p) <==> m.kind.Subscribe?)
  {
    var noted := Noted(s, m, m.topics);
    assert t in m.topics && forall x :: x in m.topics ==> x == t;
    assert IsLatest(s, m) <==> !(m.sender in s.last && t in s.last[m.sender]
                                 && s.last[m.sender][t].timestamp > m.timestamp);
    hide Noted, IsLatest;
    NotedLast(s, m, m.sender, t);
    SubscribedAt(noted, m, m.topics, t);
    UnsubscribedAt(noted, m.sender, m.topics, t);
    hide Subscribed, Unsubscribed;
  }

  lemma {:induction false} SubscribedEntry(s: State, m: Message, ts: seq<Topic>, t: Topic, p: Peer)
    requires Member(Subscribed(s, m, ts), t, p)
    ensures var kept := Member(s, t, p) && (p != m.sender || t !in ts || m.session <= s.topics[t][p].session);
            Subscribed(s, m, ts).topics[t][p] == if kept then s.topics[t][p] else Subscription(m.session, m.timestamp)
    ensures p != m.sender || t !in ts ==> Member(s, t, p)
  {
    if |ts| > 0 {
      var init := ts[..|ts| - 1];
      assert t in ts <==> t in init || t == ts[|ts| - 1];
      if Member(Subscribed(s, m, init), t, p) {
        SubscribedEntry(s, m, init, t, p);
      }
      SubscribedAt(s, m, init, t);
    }
  }

  lemma {:induction false} UnsubscribedEntry(s: State, p: Peer, ts: seq<Topic>, t: Topic, q: Peer)
    requires Member(Unsubscribed(s, p, ts), t, q)
    ensures Member(s, t, q) && Unsubscribed(s, p, ts).topics[t][q] == s.topics[t][q]
  {
    if |ts| > 0 {
      UnsubscribedEntry(s, p, ts[..|ts| - 1], t, q);
    }
  }

  /** What is stored of a member when a message has come: what was stored before, unless the message is taken,
      subscribes the member, and is of a later session than what is stored, or there was nothing. It is then
      the session and the time of the message. */
  lemma LaterSessionReplaces(s: State, m: Message, seenBefore: nat, t: Topic, p: Peer)
    requires Member(Received(s, m, seenBefore), t, p)
    ensures var taken := && m.kind.Subscribe? && m.sender == p && t in m.topics && seenBefore == 0
                         && forall x :: x in m.topics && p in s.last && x in s.last[p] ==>
                              s.last[p][x].timestamp <= m.timestamp;
            var stored := Received(s, m, seenBefore).topics[t][p];
            && (!Member(s, t, p) ==> taken)
            && (Member(s, t, p) && !(taken && s.topics[t][p].session < m.session) ==> stored == s.topics[t][p])
            && (!Member(s, t, p) || (taken && s.topics[t][p].session < m.session) ==>
                  stored.session == m.session && stored.timestamp == m.timestamp)
  {
    var noted := Noted(s, m, m.topics);
    NotedFrame(s, m, m.topics);
    hide Noted;
    if m.kind.Subscribe? && seenBefore == 0 && IsLatest(s, m) {
      SubscribedEntry(noted, m, m.topics, t, p);
    } else if m.kind.Unsubscribe? && IsLatest(s, m) {
      UnsubscribedEntry(noted, m.sender, m.topics, t, p);
    }
    hide Subscribed, Unsubscribed;
  }

  /** A message on any number of topics decides on each of them exactly if it is old on none. */
  lemma TakenAsAWhole(s: State, m: Message, t: Topic)
    requires t in s.topics && t in m.topics && !LastIs(s, m.sender, t, m)
    ensures var s' := Received(s, m, 0);
            && (LastIs(s', m.sender, t, m) <==> IsLatest(s, m))
            && (IsLatest(s, m) ==> (Member(s', t, m.sender) <==> m.kind.Subscribe?))
  {
    var noted := Noted(s, m, m.topics);
    hide Noted;
    NotedLast(s, m, m.sender, t);
    SubscribedAt(noted, m, m.topics, t);
    UnsubscribedAt(noted, m.sender, m.topics, t);
    hide Subscribed, Unsubscribed;
  }

  /** The node unsubscribing from a topic lets old messages on another one in: a message that is
      rejected, for its sender has left the topic since, or has come back to it, is taken after that
      exactly if its sender is on the topic that the node unsubscribes from. */
  lemma UngatedLetsOldIn(s: State, a: Topic, m: Message, b: Topic)
    requires b in s.topics && m.topics == [b] && !IsLatest(s, m) && (Member(s, b, m.sender) <==> m.kind.Unsubscribe?)
    ensures Member(Received(s, m, 0), b, m.sender) <==> m.kind.Unsubscribe?
    ensures (Member(Received(Ungated(s, a), m, 0), b, m.sender) <==> m.kind.Subscribe?) <==>
            a in s.topicsToPeers && m.sender in s.topicsToPeers[a]
  {
    OneDecides(Ungated(s, a), m, 0, b);
    OneDecides(s, m, 0, b);
  }

  // ---------- Runs ----------

  /** What may happen to a node: it receives a message; it unsubscribes from a topic, for good or
      not; it begins to track a topic; or a peer has restarted or cannot be reached any more. */
  datatype Event =
    | Deliver(message: Message, seenBefore: nat)
    | Unsubscribing(topic: Topic, left: bool)
    | Tracking(topic: Topic)
    | Losing(peer: Peer)

  function Step(s: State, e: Event): State {
    match e
    case Deliver(m, seenBefore) => Received(s, m, seenBefore)
    case Unsubscribing(t, left) => if left then Untracked(Ungated(s, t), t) else Ungated(s, t)
    case Tracking(t) => Tracked(s, t)
    case Losing(p) => Forgotten(s, p)
  }

  function After(s: State, es: seq<Event>): State {
    if |es| == 0 then s else Step(After(s, es[..|es| - 1]), es[|es| - 1])
  }

  /** The last messages of the peer are forgotten. */
  predicate Forgets(s: State, e: Event, p: Peer) {
    || e == Losing(p)
    || (e.Unsubscribing? && e.topic in s.topicsToPeers && p in s.topicsToPeers[e.topic])
  }

  /** What has happened since the peer was last forgotten. */
  function Since(s: State, es: seq<Event>, p: Peer): seq<Event> {
    if |es| == 0 || Forgets(After(s, es[..|es| - 1]), es[|es| - 1], p) then []
    else Since(s, es[..|es| - 1], p) + [es[|es| - 1]]
  }

  /** Whether the peer was a member then. */
  predicate MemberThen(s: State, es: seq<Event>, p: Peer, t: Topic) {
    if |es| == 0 || Forgets(After(s, es[..|es| - 1]), es[|es| - 1], p) then Member(After(s, es), t, p)
    else MemberThen(s, es[..|es| - 1], p, t)
  }

  /** The topic has been tracked since then. */
  ghost predicate TrackedSince(s: State, es: seq<Event>, p: Peer, t: Topic) {
    && t in After(s, es).topics
    && if |es| == 0 then !(p in s.last && t in s.last[p])
       else Forgets(After(s, es[..|es| - 1]), es[|es| - 1], p) || TrackedSince(s, es[..|es| - 1], p, t)
  }

  /** A message on the topic that is not passed over: a subscription is, when it has been seen before. */
  predicate Counts(e: Event, p: Peer, t: Topic) {
    e.Deliver? && Concerns(e.message, p, t) && (e.message.kind.Subscribe? ==> e.seenBefore == 0)
  }

  /** `m` is the latest of the messages on the topic. */
  ghost predicate Latest(es: seq<Event>, p: Peer, t: Topic, m: Message) {
    && (exists e :: e in es && Counts(e, p, t) && e.message == m)
    && forall e :: e in es && Counts(e, p, t) ==> e.message.timestamp <= m.timestamp
  }

  /** The messages of the peer on the topic are on that topic alone, and no two of them have the
      same timestamp. */
  ghost predicate OneByOne(es: seq<Event>, p: Peer, t: Topic) {
    && (forall e :: e in es && e.Deliver? && Concerns(e.message, p, t) ==> e.message.topics == [t])
    && (forall e, f :: e in es && f in es && Counts(e, p, t) && Counts(f, p, t) ==>
                         e.message.timestamp == f.message.timestamp ==> e.message == f.message)
  }

  /** What is known of the peer and the topic: nothing since it was forgotten, or the latest message. */
  ghost predicate Settled(s: State, before: bool, es: seq<Event>, p: Peer, t: Topic) {
    if p in s.last && t in s.last[p]
    then Latest(es, p, t, s.last[p][t]) && (Member(s, t, p) <==> s.last[p][t].kind.Subscribe?)
    else (Member(s, t, p) <==> before) && forall e :: e in es ==> !Counts(e, p, t)
  }

  lemma ForgottenHasNoLast(s: State, e: Event, p: Peer)
    requires Forgets(s, e, p)
    ensures p !in Step(s, e).last
  {
  }

  /** What does not forget the peer, and is not about it and the topic, leaves what is known. */
  lemma StepLeaves(s: State, e: Event, p: Peer, t: Topic)
    requires !Forgets(s, e, p) && !(e.Deliver? && Concerns(e.message, p, t))
    requires t in s.topics && t in Step(s, e).topics
    ensures var s' := Step(s, e);
            && (Member(s', t, p) <==> Member(s, t, p))
            && (p in s'.last && t in s'.last[p] <==> p in s.last && t in s.last[p])
            && (p in s.last && t in s.last[p] ==> LastIs(s', p, t, s.last[p][t]))
  {
    if e.Deliver? {
      OthersLeave(s, e.message, e.seenBefore, p, t);
    }
  }

  /** One more event settles what is known again. */
  lemma EventSettles(s: State, before: bool, es: seq<Event>, e: Event, p: Peer, t: Topic)
    requires Settled(s, before, es, p, t) && OneByOne(es + [e], p, t) && !Forgets(s, e, p)
    requires t in s.topics && t in Step(s, e).topics
    ensures Settled(Step(s, e), before, es + [e], p, t)
  {
    hide Received, Member, Untracked, Ungated, Tracked, Forgotten;
    assert forall x :: x in es + [e] <==> x in es || x == e;
    if e.Deliver? && Concerns(e.message, p, t) {
      OneDecides(s, e.message, e.seenBefore, t);
    } else {
      StepLeaves(s, e, p, t);
    }
  }

  lemma OneByOnePrefix(es: seq<Event>, e: Event, p: Peer, t: Topic)
    requires OneByOne(es + [e], p, t)
    ensures OneByOne(es, p, t)
  {
    assert forall x :: x in es ==> x in es + [e];
  }

  /** After every run the last message that is noted is the latest one since its sender was last
      forgotten, and it decides whether the sender is a member. */
  lemma {:induction false} RunSettles(s: State, es: seq<Event>, p: Peer, t: Topic)
    requires TrackedSince(s, es, p, t) && OneByOne(Since(s, es, p), p, t)
    ensures Settled(After(s, es), MemberThen(s, es, p, t), Since(s, es, p), p, t)
  {
    if |es| > 0 {
      var init, e := es[..|es| - 1], es[|es| - 1];
      if Forgets(After(s, init), e, p) {
        ForgottenHasNoLast(After(s, init), e, p);
      } else {
        OneByOnePrefix(Since(s, init, p), e, p, t);
        RunSettles(s, init, p, t);
        EventSettles(After(s, init), MemberThen(s, init, p, t), Since(s, init, p), e, p, t);
      }
    }
  }

  /** Convergence: whatever the order in which messages are delivered, it is the latest of them since
      their sender was last forgotten that decides. */
  lemma LatestDecides(s: State, es: seq<Event>, p: Peer, t: Topic, m: Message)
    requires TrackedSince(s, es, p, t) && OneByOne(Since(s, es, p), p, t) && Latest(Since(s, es, p), p, t, m)
    ensures Member(After(s, es), t, p) <==> m.kind.Subscribe?
  {
    RunSettles(s, es, p, t);
  }

  /** Without any, it is what it was then. */
  lemma NothingDecides(s: State, es: seq<Event>, p: Peer, t: Topic)
    requires TrackedSince(s, es, p, t) && OneByOne(Since(s, es, p), p, t)
    requires forall e :: e in Since(s, es, p) ==> !Counts(e, p, t)
    ensures Member(After(s, es), t, p) <==> MemberThen(s, es, p, t)
  {
    RunSettles(s, es, p, t);
  }

  // ---------- Messages on several topics ----------

  /** A message on the topic, and perhaps on others, that is taken. */
  predicate Takes(s: State, e: Event, p: Peer, t: Topic) {
    Counts(e, p, t) && IsLatest(s, e.message)
  }

  /** Those that have been taken since the peer was last forgotten. */
  function TakenSince(s: State, es: seq<Event>, p: Peer, t: Topic): seq<Message> {
    if |es| == 0 then []
    else
      var init, e := es[..|es| - 1], es[|es| - 1];
      if Forgets(After(s, init), e, p) then []
      else TakenSince(s, init, p, t) + if Takes(After(s, init), e, p, t) then [e.message] else []
  }

  /** The last of the messages taken is the one that is noted, none of them is later, and it decides. */
  ghost predicate LastTaken(s: State, before: bool, ms: seq<Message>, p: Peer, t: Topic) {
    if |ms| > 0
    then
      && LastIs(s, p, t, ms[|ms| - 1]) && (forall m :: m in ms ==> m.timestamp <= ms[|ms| - 1].timestamp)
      && (Member(s, t, p) <==> ms[|ms| - 1].kind.Subscribe?)
    else !(p in s.last && t in s.last[p]) && (Member(s, t, p) <==> before)
  }

  /** A message is taken and then decides, or it changes nothing. */
  lemma TakenDecides(s: State, e: Event, p: Peer, t: Topic)
    requires e.Deliver? && Concerns(e.message, p, t) && t in s.topics
    ensures var s' := Step(s, e);
            if Takes(s, e, p, t) then LastIs(s', p, t, e.message)
              && (Member(s', t, p) <==> e.message.kind.Subscribe?) else s' == s
  {
    var m := e.message;
    var noted := Noted(s, m, m.topics);
    hide Noted, IsLatest;
    NotedLast(s, m, p, t);
    SubscribedAt(noted, m, m.topics, t);
    UnsubscribedAt(noted, p, m.topics, t);
    hide Subscribed, Unsubscribed;
  }

  lemma TakenIsNotOlder(s: State, before: bool, ms: seq<Message>, e: Event, p: Peer, t: Topic)
    requires LastTaken(s, before, ms, p, t) && Takes(s, e, p, t)
    ensures forall m :: m in ms ==> m.timestamp <= e.message.timestamp
  {
    if |ms| > 0 {
      assert t in e.message.topics;
    }
  }

  /** Any messages, on any number of topics: the last that is noted on a topic is the latest of those
      that have been taken since their sender was last forgotten, and it decides. */
  lemma {:induction false} RunTakes(s: State, es: seq<Event>, p: Peer, t: Topic)
    requires TrackedSince(s, es, p, t)
    ensures LastTaken(After(s, es), MemberThen(s, es, p, t), TakenSince(s, es, p, t), p, t)
  {
    hide Step, Takes, Member;
    if |es| > 0 {
      var init, e := es[..|es| - 1], es[|es| - 1];
      if Forgets(After(s, init), e, p) {
        ForgottenHasNoLast(After(s, init), e, p);
      } else {
        RunTakes(s, init, p, t);
        StepTakes(After(s, init), MemberThen(s, init, p, t), TakenSince(s, init, p, t), e, p, t);
      }
    }
  }

  lemma StepTakes(s: State, before: bool, ms: seq<Message>, e: Event, p: Peer, t: Topic)
    requires LastTaken(s, before, ms, p, t) && !Forgets(s, e, p) && t in s.topics && t in Step(s, e).topics
    ensures LastTaken(Step(s, e), before, ms + if Takes(s, e, p, t) then [e.message] else [], p, t)
  {
    hide Step, Member, IsLatest;
    if e.Deliver? && Concerns(e.message, p, t) {
      TakenDecides(s, e, p, t);
      if Takes(s, e, p, t) {
        TakenIsNotOlder(s, before, ms, e, p, t);
      } else {
        assert ms + [] == ms;
      }
    } else {
      StepLeaves(s, e, p, t);
      assert ms + [] == ms;
    }
  }

  lemma {:induction false} TakenHasCounted(s: State, es: seq<Event>, p: Peer, t: Topic, m: Message)
    requires m in TakenSince(s, es, p, t)
    ensures exists e :: e in Since(s, es, p) && Counts(e, p, t) && e.message == m
  {
    hide IsLatest, Forgets, Step;
    var init, e := es[..|es| - 1], es[|es| - 1];
    if m in TakenSince(s, init, p, t) {
      TakenHasCounted(s, init, p, t, m);
      var f :| f in Since(s, init, p) && Counts(f, p, t) && f.message == m;
      assert f in Since(s, es, p);
    } else {
      assert e in Since(s, es, p) && Counts(e, p, t);
    }
  }

  /** The latest message on a topic, where no other has its timestamp, is the one that is noted in the end, and
      decides, exactly if it has been taken: it was old on none of its topics when it came. */
  lemma LatestIsNoted(s: State, es: seq<Event>, p: Peer, t: Topic, m: Message)
    requires TrackedSince(s, es, p, t) && Latest(Since(s, es, p), p, t, m)
    requires forall e :: e in Since(s, es, p) && Counts(e, p, t) && e.message.timestamp == m.timestamp ==>
               e.message == m
    ensures LastIs(After(s, es), p, t, m) <==> m in TakenSince(s, es, p, t)
    ensures m in TakenSince(s, es, p, t) ==> (Member(After(s, es), t, p) <==> m.kind.Subscribe?)
  {
    RunTakes(s, es, p, t);
    hide Counts, Member, TrackedSince;
    var ms := TakenSince(s, es, p, t);
    if |ms| > 0 {
      TakenHasCounted(s, es, p, t, ms[|ms| - 1]);
    }
  }

  /** A message on several topics is rejected as a whole if it is old on one: of topic `b` it is
      the latest, and yet it does not decide. */
  lemma RejectedAsAWhole(p: Peer, a: Topic, b: Topic)
    requires a != b
    ensures var s0 := State(map[a := map[], b := map[]], map[a := {}, b := {}], map[], map[]);
            var out, both := Message(Unsubscribe, p, [a], 2, 0), Message(Subscribe, p, [a, b], 1, 0);
            var es := [Deliver(out, 0), Deliver(both, 0)];
            Latest(es, p, b, both) && !Member(After(s0, es), b, p)
  {
    var s0 := State(map[a := map[], b := map[]], map[a := {}, b := {}], map[], map[]);
    var out, both := Message(Unsubscribe, p, [a], 2, 0), Message(Subscribe, p, [a, b], 1, 0);
    var es := [Deliver(out, 0), Deliver(both, 0)];
    assert es[1] in es && b in both.topics && b !in out.topics;
    assert es[..1] == [Deliver(out, 0)] && es[..1][..0] == [];
    OneDecides(s0, out, 0, a);
    OthersLeave(s0, out, 0, p, b);
    var s1 := Received(s0, out, 0);
    assert After(s0, es[..1]) == s1 by {
      assert After(s0, []) == s0;
    }
    assert a in both.topics && s1.last[p][a].timestamp == 2;
    assert !IsLatest(s1, both);
  }

  // ---------- The node ----------

  class DirectSub {
    var topics: map<Topic, map<Peer, Subscription>>
    var topicsToPeers: map<Topic, set<Peer>>
    var peerToTopic: map<Peer, set<Topic>>
    var lastSubscriptionMessages: map<Peer, map<Topic, Message>>
    /** How often the node itself has subscribed to a topic. */
    var subscriptions: map<Topic, nat>

    function View(): State
      reads this
    {
      State(topics, topicsToPeers, peerToTopic, lastSubscriptionMessages)
    }

    ghost predicate Valid()
      reads this
    {
      && Consistent(View())
      && forall t :: t in subscriptions ==> subscriptions[t] > 0 && t in topics
    }

    constructor ()
      ensures Valid() && View() == State(map[], map[], map[], map[]) && subscriptions == map[]
    {
      topics, topicsToPeers, peerToTopic, lastSubscriptionMessages, subscriptions := map[], map[], map[], map[], map[];
    }

    method InitializeTopic(topic: Topic)
      modifies `topics, `topicsToPeers
      ensures View() == Tracked(old(View()), topic)
    {
      if topic !in topics {
        topics := topics[topic := map[]];
      }
      if topic !in topicsToPeers {
        topicsToPeers := topicsToPeers[topic := {}];
      }
    }

    /** Whether the node has to tell the others. */
    method Subscribe(topic: Topic) returns (announce: bool)
      requires Valid()
      modifies this
      ensures Valid() && announce == (topic !in old(subscriptions))
      ensures View() == if announce then Tracked(old(View()), topic) else old(View())
      ensures subscriptions == old(subscriptions)[topic := if announce then 1 else old(subscriptions)[topic] + 1]
    {
      announce := topic !in subscriptions;
      TrackedKeeps(View(), topic);
      if announce {
        subscriptions := subscriptions[topic := 1];
        InitializeTopic(topic);
      } else {
        subscriptions := subscriptions[topic := subscriptions[topic] + 1];
      }
    }

    method ForgetMessagesOf(peers: set<Peer>)
      modifies `lastSubscriptionMessages
      ensures lastSubscriptionMessages == old(lastSubscriptionMessages) - peers
    {
      var rest := peers;
      while rest != {}
        invariant rest <= peers && lastSubscriptionMessages == old(lastSubscriptionMessages) - (peers - rest)
      {
        var peer :| peer in rest;
        rest := rest - {peer};
        lastSubscriptionMessages := lastSubscriptionMessages - {peer};
      }
      assert peers - rest == peers;
    }

    /** Whether the node has left the topic: as often as it has subscribed, or by force. */
    method Unsubscribe(topic: Topic, force: bool) returns (left: bool)
      requires Valid()
      modifies this
      ensures Valid() && left == (topic in old(subscriptions) && (force || old(subscriptions)[topic] == 1))
      ensures View() == if left then Untracked(Ungated(old(View()), topic), topic) else Ungated(old(View()), topic)
      ensures subscriptions == if left then old(subscriptions) - {topic}
                               else if topic in old(subscriptions)
                                 then old(subscriptions)[topic := old(subscriptions)[topic] - 1]
                               else old(subscriptions)
    {
      hide Consistent, Member, TopicsOf;
      UngatedKeeps(View(), topic);
      UntrackedKeeps(Ungated(View(), topic), topic);
      if topic in topicsToPeers {
        ForgetMessagesOf(topicsToPeers[topic]);
      }
      if topic !in subscriptions {
        return false;
      }
      subscriptions := subscriptions[topic := subscriptions[topic] - 1];
      if subscriptions[topic] == 0 || force {
        subscriptions := subscriptions - {topic};
        topics := topics - {topic};
        topicsToPeers := topicsToPeers - {topic};
        return true;
      }
      left := false;
    }

    method DeletePeerFromTopic(topic: Topic, peer: Peer) returns (change: bool)
      modifies `topics, `topicsToPeers, `peerToTopic
      ensures View() == UnsubscribedFrom(old(View()), peer, topic)
      ensures change == Member(old(View()), topic, peer)
    {
      change := topic in topics && peer in topics[topic];
      if topic in topics {
        topics := topics[topic := topics[topic] - {peer}];
      }
      if peer in peerToTopic {
        peerToTopic := peerToTopic[peer := peerToTopic[peer] - {topic}];
      }
      if peer !in peerToTopic || peerToTopic[peer] == {} {
        peerToTopic := peerToTopic - {peer};
      }
      if topic in topicsToPeers {
        topicsToPeers := topicsToPeers[topic := topicsToPeers[topic] - {peer}];
      }
    }

    /** The peer has restarted, or cannot be reached any more. */
    method RemoveSubscriptions(peer: Peer) returns (changed: set<Topic>)
      requires Valid()
      modifies this
      ensures Valid() && View() == Forgotten(old(View()), peer) && subscriptions == old(subscriptions)
      ensures forall t :: t in changed <==> Member(old(View()), t, peer)
    {
      hide Outside, Consistent, UnsubscribedFrom, TopicsOf;
      ghost var s := View();
      ForgottenIsGone(s, peer);
      ForgottenTopics(s, peer);
      OutsideNone(s, peer);
      changed := {};
      var topics' := TopicsOf(View(), peer);
      var rest := topics';
      assert topics' - rest == {};
      MembersAreKnown(s, peer);
      while rest != {}
        invariant rest <= topics'
        invariant Outside(s, View(), peer, topics' - rest)
        invariant subscriptions == old(subscriptions)
        invariant forall t :: t in changed <==> Member(s, t, peer) && t !in rest
      {
        var topic :| topic in rest;
        OutsideMore(s, View(), peer, topics' - rest, topic);
        OutsideMember(s, View(), peer, topics' - rest, topic);
        assert topics' - rest + {topic} == topics' - (rest - {topic});
        rest := rest - {topic};
        var change := DeletePeerFromTopic(topic, peer);
        if change {
          changed := changed + {topic};
        }
      }
      assert topics' - rest == topics';
      OutsideAll(s, View(), peer);
      lastSubscriptionMessages := lastSubscriptionMessages - {peer};
    }

    method SubscriptionMessageIsLatest(message: Message) returns (latest: bool)
      modifies `lastSubscriptionMessages
      ensures latest == IsLatest(old(View()), message)
      ensures View() == if latest then Noted(old(View()), message, message.topics) else old(View())
    {
      ghost var s := View();
      var p := message.sender;
      for i := 0 to |message.topics|
        invariant View() == s
        invariant forall t :: t in message.topics[..i] && p in s.last && t in s.last[p] ==>
                    s.last[p][t].timestamp <= message.timestamp
      {
        var topic := message.topics[i];
        if p in lastSubscriptionMessages && topic in lastSubscriptionMessages[p]
           && lastSubscriptionMessages[p][topic].timestamp > message.timestamp {
          return false;
        }
      }
      assert message.topics[..|message.topics|] == message.topics;
      Note(message);
      latest := true;
    }

    method Note(message: Message)
      modifies `lastSubscriptionMessages
      ensures View() == Noted(old(View()), message, message.topics)
    {
      for i := 0 to |message.topics|
        invariant View() == Noted(old(View()), message, message.topics[..i])
      {
        assert message.topics[..i + 1][..i] == message.topics[..i];
        var p, topic := message.sender, message.topics[i];
        if p !in lastSubscriptionMessages {
          lastSubscriptionMessages := lastSubscriptionMessages[p := map[]];
        }
        lastSubscriptionMessages := lastSubscriptionMessages[p := lastSubscriptionMessages[p][topic := message]];
      }
      assert message.topics[..|message.topics|] == message.topics;
    }

    method OnSubscriptionMessage(message: Message, seenBefore: nat)
      requires Valid()
      modifies this
      ensures Valid() && View() == Received(old(View()), message, seenBefore) && subscriptions == old(subscriptions)
    {
      hide Consistent, SubscribedTo, UnsubscribedFrom, NotedOn, IsLatest, TopicsOf;
      ghost var s := View();
      ReceivedKeeps(s, message, seenBefore);
      ReceivedTopics(s, message, seenBefore);
      if message.kind.Subscribe? {
        if seenBefore == 0 {
          var latest := SubscriptionMessageIsLatest(message);
          if latest && |message.topics| > 0 {
            ghost var noted := View();
            for i := 0 to |message.topics|
              invariant View() == Subscribed(noted, message, message.topics[..i])
              invariant subscriptions == old(subscriptions)
            {
              assert message.topics[..i + 1][..i] == message.topics[..i];
              AddSubscription(message, message.topics[i]);
            }
            assert message.topics[..|message.topics|] == message.topics;
          }
        }
      } else {
        var latest := SubscriptionMessageIsLatest(message);
        if latest {
          ghost var noted := View();
          for i := 0 to |message.topics|
            invariant View() == Unsubscribed(noted, message.sender, message.topics[..i])
            invariant subscriptions == old(subscriptions)
          {
            assert message.topics[..i + 1][..i] == message.topics[..i];
            var _ := DeletePeerFromTopic(message.topics[i], message.sender);
          }
          assert message.topics[..|message.topics|] == message.topics;
        }
      }
    }

    /** What a new subscription does for one of its topics. */
    method AddSubscription(message: Message, topic: Topic)
      modifies `topics, `topicsToPeers, `peerToTopic
      ensures View() == SubscribedTo(old(View()), message, topic)
    {
      if topic !in topics {
        return;
      }
      var sender, peers := message.sender, topics[topic];
      if sender !in peerToTopic {
        peerToTopic := peerToTopic[sender := {}];
      }
      if sender !in peers || peers[sender].session < message.session {
        topics := topics[topic := peers[sender := Subscription(message.session, message.timestamp)]];
      }
      if sender !in peers {
        if topic in topicsToPeers {
          topicsToPeers := topicsToPeers[topic := topicsToPeers[topic] + {sender}];
        }
        peerToTopic := peerToTopic[sender := peerToTopic[sender] + {topic}];
      }
      assert peerToTopic.Keys == SubscribedTo(old(View()), message, topic).peerToTopic.Keys;
      assert forall q :: q in peerToTopic ==>
                           peerToTopic[q] == SubscribedTo(old(View()), message, topic).peerToTopic[q];
    }
  }

  // ---------- The loops ----------

  lemma ReceivedTopics(s: State, m: Message, seenBefore: nat)
    ensures forall t :: t in s.topics ==> t in Received(s, m, seenBefore).topics
  {
    forall t | t in s.topics
      ensures t in Received(s, m, seenBefore).topics
    {
      NotedFrame(s, m, m.topics);
      SubscribedAt(Noted(s, m, m.topics), m, m.topics, t);
      UnsubscribedAt(Noted(s, m, m.topics), m.sender, m.topics, t);
    }
  }

  /** The peer has been taken out of the topics `done`. */
  ghost predicate Outside(s: State, s': State, p: Peer, done: set<Topic>) {
    && s'.topics == (map t | t in s.topics :: if t in done then s.topics[t] - {p} else s.topics[t])
    && s'.topicsToPeers == (map t | t in s.topicsToPeers :: if t in done then s.topicsToPeers[t] - {p}
                            else s.topicsToPeers[t])
    && s'.peerToTopic == (if TopicsOf(s, p) - done == {} then s.peerToTopic - {p}
                          else s.peerToTopic[p := TopicsOf(s, p) - done])
    && s'.last == s.last
  }

  lemma OutsideNone(s: State, p: Peer)
    requires Consistent(s)
    ensures Outside(s, s, p, {})
  {
    assert TopicsOf(s, p) - {} == TopicsOf(s, p);
    if p in s.peerToTopic {
      assert s.peerToTopic[p] != {};
    } else {
      assert s.peerToTopic - {p} == s.peerToTopic;
    }
  }

  lemma OutsideMore(s: State, s': State, p: Peer, done: set<Topic>, t: Topic)
    requires Outside(s, s', p, done)
    ensures Outside(s, UnsubscribedFrom(s', p, t), p, done + {t})
  {
    assert TopicsOf(s', p) - {t} == TopicsOf(s, p) - (done + {t});
    var s'' := UnsubscribedFrom(s', p, t);
    forall x | x in s.topics
      ensures s''.topics[x] == if x in done + {t} then s.topics[x] - {p} else s.topics[x]
    {
    }
    forall x | x in s.topicsToPeers
      ensures s''.topicsToPeers[x] == if x in done + {t} then s.topicsToPeers[x] - {p} else s.topicsToPeers[x]
    {
    }
    assert s''.topics == map x | x in s.topics :: if x in done + {t} then s.topics[x] - {p} else s.topics[x];
  }

  lemma OutsideMember(s: State, s': State, p: Peer, done: set<Topic>, t: Topic)
    requires Outside(s, s', p, done) && t !in done
    ensures Member(s', t, p) <==> Member(s, t, p)
  {
  }

  lemma MembersAreKnown(s: State, p: Peer)
    requires Consistent(s)
    ensures forall t :: Member(s, t, p) ==> t in TopicsOf(s, p)
  {
  }

  lemma ForgottenTopics(s: State, p: Peer)
    ensures Forgotten(s, p).topics.Keys == s.topics.Keys
  {
  }

  lemma OutsideAll(s: State, s': State, p: Peer)
    requires Consistent(s) && Outside(s, s', p, TopicsOf(s, p))
    ensures s'.(last := s'.last - {p}) == Forgotten(s, p)
  {
    assert TopicsOf(s, p) - TopicsOf(s, p) == {};
    forall t | t in s.topics && t !in TopicsOf(s, p)
      ensures s.topics[t] - {p} == s.topics[t] && s.topicsToPeers[t] - {p} == s.topicsToPeers[t]
    {
      assert !Member(s, t, p);
      assert p !in s.topics[t].Keys;
    }
    assert s'.topics == Forgotten(s, p).topics;
    assert s'.topicsToPeers == Forgotten(s, p).topicsToPeers;
  }
}
