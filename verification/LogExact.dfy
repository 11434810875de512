/** When a join leaves the head flags exact: in logs with cuts, and whether or not it succeeds. */
module LogExacts {
  import opened LogEntries
  import opened EntryIndexes
  import opened LogJoins
  import opened LogTurns

  /** None of the entries that a join may bring are cuts. */
  ghost predicate AllAppendsCome(u: map<Hash, Entry>, ix: Index, es: seq<Entry>)
    requires Universe(u) && Known(u, es)
  {
    forall i :: 0 <= i < |es| ==> AppendsCome(u, ix, es[i].hash)
  }

  /** Turn `i` has done right by the flags. If it has put its entry, that has had the right head
      argument, or something that comes later points to it; if it has failed, something points to all
      it has put. */
  ghost predicate TurnRight(es: seq<Entry>, turns: seq<Index>, r: Result, i: nat)
    requires |turns| <= |es| + 1 && i + 1 < |turns|
  {
    var h, ix, ix', last := es[i].hash, turns[i], turns[i + 1], turns[|turns| - 1];
    if TurnResult(turns, i, r).Ok?
    then h in ix' && h !in ix ==> (IsHead(es, h) <==> !AppendPointsTo(ix, h)) || NewPoints(ix', last, h)
    else forall x :: x in last && x !in ix ==> AppendPointsTo(last, x)
  }

  ghost predicate AllTurnsRight(es: seq<Entry>, turns: seq<Index>, r: Result)
    requires |turns| <= |es| + 1
  {
    forall i :: 0 <= i < |turns| - 1 ==> TurnRight(es, turns, r, i)
  }

  // ---------- One turn ----------

  lemma OldRight(ix: Index, ix': Index, x: Hash)
    requires Demotes(ix, ix') && x in ix
    ensures x in ix' && (Right(ix', x) <==> Right(ix, x) || NewPoints(ix, ix', x))
  {
    NewPointsOnce(ix, ix', x);
  }

  lemma NewRight(ix: Index, ix': Index, h: Hash, isHead: bool, r: Result, x: Hash)
    requires Came(ix, ix', h, isHead, r) && x in ix' && x !in ix
    ensures if r.MissingEntry? then Right(ix', x) <==> AppendPointsTo(ix', x)
            else if x == h then Right(ix', x) <==> (isHead <==> !AppendPointsTo(ix, h))
            else Right(ix', x)
  {
    NewPointsOnce(ix, ix', x);
  }

  // ---------- All turns ----------

  lemma {:induction false} TurnsGrow(u: map<Hash, Entry>, es: seq<Entry>, turns: seq<Index>, r: Result, i: nat, k: nat)
    requires Universe(u) && Known(u, es) && Turns(u, es, turns, r) && AllAppendsCome(u, turns[0], es)
    requires i <= k < |turns|
    ensures Demotes(turns[i], turns[k]) && turns[0].Keys <= turns[k].Keys
    decreases k, k - i
  {
    hide Demotes, NewPoints, AppendsCome, Ancestors, Universe, IsHead, AppendPointsTo, HeadsFree, NoNeed;
    if k > 0 {
      TurnsGrow(u, es, turns, r, 0, k - 1);
      TurnsCome(u, es, turns, r, k - 1);
      CameDemotes(turns[k - 1], turns[k], es[k - 1].hash, IsHead(es, es[k - 1].hash), TurnResult(turns, k - 1, r));
      if i < k {
        TurnsGrow(u, es, turns, r, i, k - 1);
        DemotesTwice(turns[i], turns[k - 1], turns[k]);
      } else {
        NothingCame(turns[k], 0, false, Ok);
      }
    } else {
      NothingCame(turns[k], 0, false, Ok);
    }
  }

  lemma CameDemotes(ix: Index, ix': Index, h: Hash, isHead: bool, r: Result)
    requires Came(ix, ix', h, isHead, r)
    ensures Demotes(ix, ix') && ix.Keys <= ix'.Keys
  {
  }

  lemma TurnsCome(u: map<Hash, Entry>, es: seq<Entry>, turns: seq<Index>, r: Result, i: nat)
    requires Universe(u) && Known(u, es) && Turns(u, es, turns, r) && AllAppendsCome(u, turns[0], es)
    requires i + 1 < |turns| && turns[0].Keys <= turns[i].Keys
    ensures Came(turns[i], turns[i + 1], es[i].hash, IsHead(es, es[i].hash), TurnResult(turns, i, r))
  {
    hide Came, Ancestors, Universe, IsHead, AppendPointsTo, HeadsFree, NoNeed, Put;
    assert AppendsCome(u, turns[0], es[i].hash);
    AppendsComeBelow(u, turns[0], turns[i], es[i].hash, es[i].hash);
  }

  /** The turn in which an entry has come. */
  lemma {:induction false} Arrival(turns: seq<Index>, k: nat, x: Hash) returns (i: nat)
    requires k < |turns| && x in turns[k] && x !in turns[0]
    ensures i < k && x in turns[i + 1] && x !in turns[i]
  {
    if x in turns[k - 1] {
      i := Arrival(turns, k - 1, x);
    } else {
      i := k - 1;
    }
  }

  /** In the end the flag of an entry is right as it was when it had come, or something that came later points to it. */
  lemma LastRight(u: map<Hash, Entry>, es: seq<Entry>, turns: seq<Index>, r: Result, i: nat, x: Hash)
    requires Universe(u) && Known(u, es) && Turns(u, es, turns, r) && AllAppendsCome(u, turns[0], es)
    requires i < |turns| && x in turns[i]
    ensures var last := turns[|turns| - 1];
            && x in last && (Right(last, x) <==> Right(turns[i], x) || NewPoints(turns[i], last, x))
  {
    hide Turns, AllAppendsCome, Universe, Known;
    TurnsGrow(u, es, turns, r, i, |turns| - 1);
    OldRight(turns[i], turns[|turns| - 1], x);
  }

  /** When the flag of an entry that turn `i` has put is right in the end. */
  lemma ArrivedRight(u: map<Hash, Entry>, es: seq<Entry>, turns: seq<Index>, r: Result, i: nat, x: Hash)
    requires Universe(u) && Known(u, es) && Turns(u, es, turns, r) && AllAppendsCome(u, turns[0], es)
    requires i + 1 < |turns| && x in turns[i + 1] && x !in turns[i]
    ensures var last, h := turns[|turns| - 1], es[i].hash;
            && x in last
            && (Right(last, x) <==>
                  if TurnResult(turns, i, r).MissingEntry? then AppendPointsTo(last, x)
                  else x == h ==> (IsHead(es, h) <==> !AppendPointsTo(turns[i], h)) || NewPoints(turns[i + 1], last, h))
  {
    TurnsGrow(u, es, turns, r, 0, i);
    TurnsCome(u, es, turns, r, i);
    var ix, ix', last, h := turns[i], turns[i + 1], turns[|turns| - 1], es[i].hash;
    var ri := TurnResult(turns, i, r);
    assert ri.MissingEntry? ==> ix' == last;
    hide Turns, AllAppendsCome, Universe, Known, Came, NewPoints, AppendPointsTo, Right, IsHead;
    LastRight(u, es, turns, r, i + 1, x);
    NewRight(ix, ix', h, IsHead(es, h), ri, x);
    if ri.MissingEntry? {
      OnlyItself(last, x);
    }
  }

  /** What a turn must do for the flags of what it puts to be right in the end. */
  lemma TurnMatters(u: map<Hash, Entry>, es: seq<Entry>, turns: seq<Index>, r: Result, i: nat)
    requires Universe(u) && Known(u, es) && Turns(u, es, turns, r) && AllAppendsCome(u, turns[0], es)
    requires i + 1 < |turns|
    ensures var last := turns[|turns| - 1];
            TurnRight(es, turns, r, i) <==>
            forall x :: x in turns[i + 1] && x !in turns[i] ==> x in last && Right(last, x)
  {
    assert TurnResult(turns, i, r).MissingEntry? ==> turns[i + 1] == turns[|turns| - 1];
    hide Turns, AllAppendsCome, Universe, Known, NewPoints, AppendPointsTo, Right, IsHead;
    forall x | x in turns[i + 1] && x !in turns[i]
      ensures var last, h := turns[|turns| - 1], es[i].hash;
              && x in last
              && (Right(last, x) <==>
                    if TurnResult(turns, i, r).MissingEntry? then AppendPointsTo(last, x)
                    else x == h ==>
                           (IsHead(es, h) <==> !AppendPointsTo(turns[i], h)) || NewPoints(turns[i + 1], last, h))
    {
      ArrivedRight(u, es, turns, r, i, x);
    }
  }

  lemma OnlyItself(ix: Index, x: Hash)
    ensures !NewPoints(ix, ix, x)
  {
  }

  lemma LastHashes(u: map<Hash, Entry>, es: seq<Entry>, turns: seq<Index>, r: Result)
    requires Universe(u) && Known(u, es) && Turns(u, es, turns, r)
    ensures |turns| > 0 && Keyed(turns[|turns| - 1])
  {
    assert EntriesOf(u, turns[|turns| - 1]);
    hide Turns;
  }

  lemma RightIsExact(u: map<Hash, Entry>, es: seq<Entry>, turns: seq<Index>, r: Result, x: Hash)
    requires Universe(u) && Known(u, es) && Turns(u, es, turns, r) && AllAppendsCome(u, turns[0], es)
    requires FlagsExact(turns[0]) && AllTurnsRight(es, turns, r) && x in turns[|turns| - 1]
    ensures Right(turns[|turns| - 1], x)
  {
    assert 0 < |turns| <= |es| + 1;
    hide TurnRight, Right, Turns, Universe, Known, AllAppendsCome;
    if x in turns[0] {
      LastRight(u, es, turns, r, 0, x);
    } else {
      var i := Arrival(turns, |turns| - 1, x);
      TurnMatters(u, es, turns, r, i);
      assert TurnRight(es, turns, r, i);
    }
  }

  lemma ExactIsRight(u: map<Hash, Entry>, es: seq<Entry>, turns: seq<Index>, r: Result, i: nat)
    requires Universe(u) && Known(u, es) && Turns(u, es, turns, r) && AllAppendsCome(u, turns[0], es)
    requires FlagsExact(turns[|turns| - 1]) && i + 1 < |turns| <= |es| + 1
    ensures TurnRight(es, turns, r, i)
  {
    hide TurnRight, Right, Turns, Universe, Known, AllAppendsCome;
    TurnMatters(u, es, turns, r, i);
    forall x | x in turns[i + 1] && x !in turns[i]
      ensures x in turns[|turns| - 1] && Right(turns[|turns| - 1], x)
    {
      LastRight(u, es, turns, r, i + 1, x);
    }
  }

  /** A join that brings no cuts, into a log that may hold some, leaves exact flags exact exactly if
      all its turns have done right by them. */
  lemma JoinExact(u: map<Hash, Entry>, es: seq<Entry>, turns: seq<Index>, r: Result)
    requires Universe(u) && Known(u, es) && Turns(u, es, turns, r) && AllAppendsCome(u, turns[0], es)
    requires FlagsExact(turns[0])
    ensures FlagsExact(turns[|turns| - 1]) <==> AllTurnsRight(es, turns, r)
  {
    assert |turns| <= |es| + 1;
    hide TurnRight, Right, Turns, Universe, Known, AllAppendsCome;
    LastHashes(u, es, turns, r);
    var last := turns[|turns| - 1];
    if AllTurnsRight(es, turns, r) {
      forall x | x in last
        ensures Right(last, x)
      {
        RightIsExact(u, es, turns, r, x);
      }
    }
    if FlagsExact(turns[|turns| - 1]) {
      forall i | 0 <= i < |turns| - 1
        ensures TurnRight(es, turns, r, i)
      {
        ExactIsRight(u, es, turns, r, i);
      }
    }
  }

  /** The join of one entry that brings no cuts and succeeds keeps exact flags exact exactly if there is no
      need for it, or nothing points to the entry, apart from cuts. */
  lemma JoinOneExact(u: map<Hash, Entry>, e: Entry, turns: seq<Index>)
    requires Universe(u) && Known(u, [e]) && Turns(u, [e], turns, Ok) && AllAppendsCome(u, turns[0], [e])
    requires FlagsExact(turns[0])
    ensures FlagsExact(turns[1]) <==> NoNeed(u, turns[0], e.hash) || !AppendPointsTo(turns[0], e.hash)
  {
    JoinExact(u, [e], turns, Ok);
    OneIsHead(u, e);
    assert |turns| == 2;
    assert Turn(u, turns[0], e.hash, IsHead([e], e.hash), turns[1], TurnResult(turns, 0, Ok));
    hide Turns, Universe, FlagsExact, HeadsFree, AppendPointsTo, Came, Found, Put, AppendsCome, Known, Touches,
         AllAppendsCome, IsHead;
    OnlyItself(turns[1], e.hash);
    if AllTurnsRight([e], turns, Ok) {
      assert TurnRight([e], turns, Ok, 0);
    }
  }

  lemma OneIsHead(u: map<Hash, Entry>, e: Entry)
    requires Universe(u) && Known(u, [e])
    ensures IsHead([e], e.hash)
  {
    assert [e][0].hash in u && e.hash !in e.next;
    MarkedNothing([e]);
    MarkedStep([e], 0);
    UnmarkedHas(map[e.hash := true], e.next);
  }

  /** Turn `i` puts its entry as a head, though something other than a cut points to it. */
  ghost predicate PutsPointedTo(u: map<Hash, Entry>, es: seq<Entry>, turns: seq<Index>, r: Result, i: nat)
    requires |turns| <= |es| + 1 && i + 1 < |turns|
  {
    var h := es[i].hash;
    TurnResult(turns, i, r).Ok? && IsHead(es, h) && !NoNeed(u, turns[i], h) && AppendPointsTo(turns[i], h)
  }

  lemma TurnHeadsFree(u: map<Hash, Entry>, es: seq<Entry>, turns: seq<Index>, r: Result, i: nat)
    requires Universe(u) && Known(u, es) && Turns(u, es, turns, r) && i + 1 < |turns| && HeadsFree(turns[i])
    ensures HeadsFree(turns[i + 1]) <==> !PutsPointedTo(u, es, turns, r, i)
  {
    assert Turn(u, turns[i], es[i].hash, IsHead(es, es[i].hash), turns[i + 1], TurnResult(turns, i, r));
    hide Turns, HeadsFree, Universe, Known, Came, Found, Put, AppendsCome, Touches, IsHead, NoNeed, AppendPointsTo;
  }

  /** Any join, also one that brings cuts: heads have been free of pointers all through it exactly if no
      turn has put as a head what something points to. */
  lemma {:induction false} JoinKeepsHeads(u: map<Hash, Entry>, es: seq<Entry>, turns: seq<Index>, r: Result, k: nat)
    requires Universe(u) && Known(u, es) && Turns(u, es, turns, r) && HeadsFree(turns[0]) && k < |turns| <= |es| + 1
    ensures (forall i :: 0 <= i <= k ==> HeadsFree(turns[i])) <==>
            (forall i :: 0 <= i < k ==> !PutsPointedTo(u, es, turns, r, i))
  {
    hide *;
    if k > 0 {
      JoinKeepsHeads(u, es, turns, r, k - 1);
      if forall i :: 0 <= i <= k - 1 ==> HeadsFree(turns[i]) {
        TurnHeadsFree(u, es, turns, r, k - 1);
      }
    }
  }
}
