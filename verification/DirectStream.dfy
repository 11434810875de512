/** One peer: the handlers of `DirectStream` for seek messages without receivers. They do what the
    peers of the flooding network are taken to do. */
module DirectStreams {
  import opened Collections
  import opened Flooding
  import opened Peers

  type MessageId = nat

  class DirectStream {
    const publicKey: Peer
    const canRelayMessage: bool
    var peers: seq<Peer>
    var seenCache: map<MessageId, nat>
    var ackCache: map<(MessageId, AckId), nat>
    var ackCallbacks: set<MessageId>
    var routes: set<Route>

    /** The peers are distinct, and this peer is not one of them; a cached acknowledgement has been seen. */
    ghost predicate Valid()
      reads this
    {
      Distinct(peers) && publicKey !in peers && forall k :: k in ackCache ==> ackCache[k] > 0
    }

    ghost function PeerSet(): (r: set<Peer>)
      reads this
      ensures forall x :: x in r <==> x in peers
    {
      Elements(peers)
    }

    constructor (me: Peer, relay: bool, neighbours: seq<Peer>)
      requires Distinct(neighbours) && me !in neighbours
      ensures Valid() && publicKey == me && canRelayMessage == relay && peers == neighbours
      ensures seenCache == map[] && ackCache == map[] && ackCallbacks == {}
      ensures routes == set x | x in neighbours :: Route(me, me, x, x, -1)
    {
      publicKey, canRelayMessage, peers := me, relay, neighbours;
      seenCache, ackCache, ackCallbacks := map[], map[], {};
      routes := set x | x in neighbours :: Route(me, me, x, x, -1);
    }

    method ModifySeenCache(id: MessageId) returns (seen: nat)
      modifies this`seenCache
      ensures seen == (if id in old(seenCache) then old(seenCache)[id] else 0)
      ensures seenCache == old(seenCache)[id := seen + 1]
    {
      seen := if id in seenCache then seenCache[id] else 0;
      seenCache := seenCache[id := seen + 1];
    }

    /** Publishes a message of this peer: a copy to every neighbour. */
    method Publish(id: MessageId) returns (copies: seq<Copy>)
      requires Valid()
      modifies this`seenCache, this`ackCallbacks
      ensures id !in old(seenCache) ==> seenCache == old(seenCache)[id := 1]
      ensures ackCallbacks == old(ackCallbacks) + {id}
      ensures multiset(copies) == multiset(CopiesTo(PeerSet(), [publicKey]))
    {
      ackCallbacks := ackCallbacks + {id};
      var _ := ModifySeenCache(id);
      copies := SendTo(peers, [publicKey]);
      assert Receivers(PeerSet(), [publicKey]) == PeerSet();
    }

    /** The loop of `publishMessage`: a copy to each of `to`, except to the signers. */
    method SendTo(to: seq<Peer>, signers: seq<Peer>) returns (copies: seq<Copy>)
      requires Distinct(to)
      ensures multiset(copies) == multiset(CopiesTo(Receivers(Elements(to), signers), signers))
    {
      hide CopiesTo, Receivers;
      copies := [];
      assert CopiesTo(Receivers({}, signers), signers) == {} by { NoneYet(signers); }
      ghost var sent: set<Peer> := {};
      for i := 0 to |to|
        invariant forall x :: x in sent <==> x in to[..i]
        invariant multiset(copies) == multiset(CopiesTo(Receivers(sent, signers), signers))
      {
        assert to[i] !in to[..i];
        OneMore(sent, to[i], signers);
        sent := sent + {to[i]};
        if to[i] !in signers {
          copies := copies + [Copy(to[i], signers)];
        }
      }
      assert sent == Elements(to);
    }

    static lemma NoneYet(signers: seq<Peer>)
      ensures CopiesTo(Receivers({}, signers), signers) == {}
    {
    }

    static lemma OneMore(pre: set<Peer>, x: Peer, signers: seq<Peer>)
      requires x !in pre
      ensures multiset(CopiesTo(Receivers(pre + {x}, signers), signers)) ==
              multiset(CopiesTo(Receivers(pre, signers), signers)) +
              if x !in signers then multiset{Copy(x, signers)} else multiset{}
    {
      var c, c' := CopiesTo(Receivers(pre, signers), signers), CopiesTo(Receivers(pre + {x}, signers), signers);
      if x in signers {
        assert c' == c;
      } else {
        assert c' == c + {Copy(x, signers)} && Copy(x, signers) !in c;
      }
    }

    /** Handles a copy that its last signer has sent. */
    method OnDataMessage(id: MessageId, redundancy: nat, signers: seq<Peer>)
      returns (raise: bool, ack: Option<Ack>, copies: seq<Copy>)
      requires Valid() && |signers| > 0
      modifies this`seenCache, this`ackCallbacks
      ensures var seenBefore := if id in old(seenCache) then old(seenCache)[id] else 0;
              var r := React(publicKey, PeerSet(), canRelayMessage, redundancy, seenBefore, signers);
              && seenCache == old(seenCache)[id := seenBefore + 1]
              && raise == r.raise && ack == r.ack && multiset(copies) == multiset(r.copies)
              && ackCallbacks == (if r.copies != {} then old(ackCallbacks) + {id} else old(ackCallbacks))
      ensures var seenBefore := if id in old(seenCache) then old(seenCache)[id] else 0;
              if publicKey in signers || seenBefore >= redundancy then !raise && ack == None && copies == []
              else
                && raise == (seenBefore == 0)
                && ack == Some(Ack(signers[|signers| - 1], publicKey, AckId(publicKey, seenBefore, signers)))
                && forall c :: multiset(copies)[c] ==
                     if canRelayMessage && c.dest in peers && c.dest !in signers && c.signers == signers + [publicKey]
                     then 1 else 0
    {
      hide CopiesTo, Receivers, Distinct;
      CopiesAre(signers);
      raise, ack, copies := false, None, [];
      var seenBefore := ModifySeenCache(id);
      if ShouldIgnore(publicKey, signers, redundancy, seenBefore) {
        return;
      }
      ack := MaybeAcknowledge(redundancy, seenBefore, signers);
      if seenBefore == 0 {
        raise := true;
      }
      copies := Forward(id, signers);
    }

    lemma CopiesAre(signers: seq<Peer>)
      ensures forall c :: c in CopiesTo(Receivers(PeerSet(), signers), signers + [publicKey]) <==>
                c.dest in peers && c.dest !in signers && c.signers == signers + [publicKey]
    {
    }

    /** The peers that have not signed a copy, and have not sent it. */
    method NotSigned(signers: seq<Peer>) returns (to: seq<Peer>)
      requires Valid() && |signers| > 0
      ensures Distinct(to) && Elements(to) == Receivers(PeerSet(), signers)
    {
      to := [];
      var from := signers[|signers| - 1];
      for i := 0 to |peers|
        invariant Distinct(to) && forall x :: x in to <==> x in peers[..i] && x !in signers && x != from
      {
        if peers[i] !in signers && peers[i] != from {
          to := to + [peers[i]];
        }
      }
      assert peers[..|peers|] == peers;
    }

    /** Relays a copy to the peers that have not signed it. */
    method Forward(id: MessageId, signers: seq<Peer>) returns (copies: seq<Copy>)
      requires Valid() && |signers| > 0 && publicKey !in signers
      modifies this`ackCallbacks
      ensures var to := Receivers(PeerSet(), signers);
              var relayed := if canRelayMessage then CopiesTo(to, signers + [publicKey]) else {};
              && multiset(copies) == multiset(relayed)
              && ackCallbacks == (if relayed != {} then old(ackCallbacks) + {id} else old(ackCallbacks))
    {
      hide Distinct;
      copies := [];
      var to := NotSigned(signers);
      NoMoreReceivers(to, signers);
      if |to| > 0 {
        if canRelayMessage {
          hide CopiesTo, Receivers;
          ackCallbacks := ackCallbacks + {id};
          copies := SendTo(to, signers + [publicKey]);
          SomeReceiver(to, signers, publicKey);
        }
      }
    }

    /** None of the receivers of a copy is this peer. */
    lemma NoMoreReceivers(to: seq<Peer>, signers: seq<Peer>)
      requires Valid() && Elements(to) == Receivers(PeerSet(), signers)
      ensures Receivers(Elements(to), signers + [publicKey]) == Receivers(PeerSet(), signers)
      ensures |to| == 0 ==> Receivers(PeerSet(), signers) == {}
    {
    }

    static lemma SomeReceiver(to: seq<Peer>, signers: seq<Peer>, me: Peer)
      requires |to| > 0
      ensures CopiesTo(Elements(to), signers + [me]) != {}
    {
      assert Copy(to[0], signers + [me]) in CopiesTo(Elements(to), signers + [me]);
    }

    method MaybeAcknowledge(redundancy: nat, seenBefore: nat, signers: seq<Peer>) returns (ack: Option<Ack>)
      requires |signers| > 0
      ensures ack == if seenBefore < redundancy
                     then Some(Ack(signers[|signers| - 1], publicKey, AckId(publicKey, seenBefore, signers)))
                     else None
    {
      if seenBefore < redundancy {
        ack := Some(Ack(signers[|signers| - 1], publicKey, AckId(publicKey, seenBefore, signers)));
      } else {
        ack := None;
      }
    }

    static method FindIndex(trace: seq<Peer>, x: Peer) returns (index: int)
      ensures index == IndexOf(trace, x)
    {
      for i := 0 to |trace|
        invariant x !in trace[..i]
      {
        if trace[i] == x {
          return i;
        }
      }
      index := -1;
    }

    /** Handles an acknowledgement of the message `id` that the neighbour `through` has sent. */
    method OnAck(id: MessageId, a: AckId, through: Peer) returns (back: Option<Ack>)
      requires Valid()
      modifies this`ackCache, this`routes
      ensures Valid() && ackCache.Keys == old(ackCache).Keys + {(id, a)}
      ensures (id, a) in old(ackCache) ==> back == None && routes == old(routes)
      ensures var prev := Previous(publicKey, PeerSet(), a.trace);
              (id, a) !in old(ackCache) ==>
                && routes == (if id in ackCallbacks
                              then old(routes) + {Route(publicKey, if prev.Some? then prev.value else publicKey,
                                                        a.target, through, a.seenCounter)}
                              else old(routes))
                && back == if prev.Some? && prev.value != a.target then Some(Ack(prev.value, publicKey, a)) else None
      ensures forall i :: 0 <= i < |a.trace| && a.trace[i] == publicKey && publicKey !in a.trace[..i]
                          && (id, a) !in old(ackCache) ==>
                var known := i >= 1 && a.trace[i - 1] in peers;
                && (id in ackCallbacks ==>
                      Route(publicKey, if known then a.trace[i - 1] else publicKey, a.target, through, a.seenCounter)
                      in routes)
                && back == if known && a.trace[i - 1] != a.target then Some(Ack(a.trace[i - 1], publicKey, a)) else None
    {
      hide IndexOf, Distinct;
      back := None;
      var seenBefore := if (id, a) in ackCache then ackCache[(id, a)] else 0;
      ackCache := ackCache[(id, a) := seenBefore + 1];
      if seenBefore > 0 {
        return;
      }
      var myIndex := FindIndex(a.trace, publicKey);
      var next: Option<Peer> := if myIndex >= 1
        && a.trace[myIndex - 1] in peers then Some(a.trace[myIndex - 1]) else None;
      if id in ackCallbacks {
        routes := routes + {Route(publicKey, if next.Some? then next.value else publicKey, a.target, through,
                                  a.seenCounter)};
      }
      if next.Some? && next.value != a.target {
        back := Some(Ack(next.value, publicKey, a));
      }
    }
  }
}
