/** Joins that fail: when they do, and when they leave the head flags right. */
module FailedJoins {
  import opened LogEntries
  import opened EntryIndexes
  import opened LogJoins
  import opened LogFailures
  import opened LogCuts
  import opened LogTurns
  import opened LogExacts
  import opened LogLattices

  /** The latest of some entries. */
  lemma {:induction false} Latest(u: map<Hash, Entry>, hs: set<Hash>) returns (x: Hash)
    requires hs != {} && hs <= u.Keys
    ensures x in hs && forall y :: y in hs ==> !Before(u[x].time, u[y].time)
  {
    var h :| h in hs;
    if hs == {h} {
      x := h;
    } else {
      var y := Latest(u, hs - {h});
      x := if Before(u[y].time, u[h].time) then h else y;
    }
  }

  lemma ReferencedIsPointedTo(u: map<Hash, Entry>, ix: Index, h: Hash)
    requires AppendOnly(u) && Holds(u, ix)
    ensures Referenced(u, ix.Keys, h) <==> AppendPointsTo(ix, h)
  {
    if Referenced(u, ix.Keys, h) {
      var x :| x in ix.Keys && x in u && h in u[x].next;
      assert ix[x].entry.kind.APPEND?;
    }
  }

  /** Canonical indices of logs without cuts are those with exact flags. */
  lemma CanonicalIsExact(u: map<Hash, Entry>, ix: Index)
    requires Universe(u) && AppendOnly(u) && Holds(u, ix)
    ensures IsCanonical(u, ix) <==> FlagsExact(ix)
  {
    CanonicalHolds(u, ix);
    hide AppendPointsTo, Referenced, AppendOnly, Closed, Canonical;
    forall h | h in ix
      ensures Referenced(u, ix.Keys, h) <==> AppendPointsTo(ix, h)
    {
      ReferencedIsPointedTo(u, ix, h);
    }
  }

  /** Nothing points to the latest of what has come into a closed index. */
  lemma LatestIsFree(u: map<Hash, Entry>, ix: Index, ix': Index) returns (x: Hash)
    requires Universe(u) && Holds(u, ix) && Holds(u, ix') && ix.Keys <= ix'.Keys && ix.Keys != ix'.Keys
    ensures x in ix' && x !in ix && !AppendPointsTo(ix', x)
  {
    assert ix'.Keys - ix.Keys != {} by {
      assert ix.Keys + (ix'.Keys - ix.Keys) == ix'.Keys;
    }
    x := Latest(u, ix'.Keys - ix.Keys);
    forall y | y in ix'
      ensures x !in ix'[y].entry.next
    {
      if y in ix {
        MissingIsFree(u, ix, x);
      }
    }
  }

  lemma MissingIsFree(u: map<Hash, Entry>, ix: Index, h: Hash)
    requires Holds(u, ix) && h !in ix
    ensures !AppendPointsTo(ix, h) && forall y :: y in ix ==> y in u && h !in u[y].next
  {
  }

  /** The entries before turn `i` of a join into `keys`. */
  ghost function KeysBefore(u: map<Hash, Entry>, keys: set<Hash>, es: seq<Entry>, i: nat): set<Hash>
    requires Universe(u) && Known(u, es) && i <= |es|
  {
    EntryHashesKnown(u, es, i);
    keys + AncestorsOf(u, EntryHashes(es[..i]))
  }

  lemma EntryHashesKnown(u: map<Hash, Entry>, es: seq<Entry>, i: nat)
    requires Known(u, es) && i <= |es|
    ensures EntryHashes(es[..i]) <= u.Keys
  {
  }

  lemma EntryHashesStep(u: map<Hash, Entry>, es: seq<Entry>, i: nat)
    requires i < |es|
    ensures EntryHashes(es[..i + 1]) == EntryHashes(es[..i]) + {es[i].hash}
  {
    assert es[..i + 1] == es[..i] + [es[i]];
    EntryHashesPush(es[..i], es[i]);
  }

  lemma KeysBeforeStep(u: map<Hash, Entry>, keys: set<Hash>, es: seq<Entry>, i: nat)
    requires Universe(u) && Known(u, es) && i < |es|
    ensures KeysBefore(u, keys, es, 0) == keys
    ensures KeysBefore(u, keys, es, i + 1) == KeysBefore(u, keys, es, i) + Ancestors(u, es[i].hash)
  {
    hide Ancestors, EntryHashes;
    EntryHashesKnown(u, es, i);
    EntryHashesStep(u, es, i);
    AncestorsOfMore(u, EntryHashes(es[..i]), es[i].hash);
    NoHashesOf();
    assert es[..0] == [] && AncestorsOf(u, {}) == {};
  }

  /** All the ancestors of the first `i` entries are indexed or have a block. */
  ghost predicate Available(u: map<Hash, Entry>, keys: set<Hash>, blocks: set<Hash>, es: seq<Entry>, i: nat)
    requires Universe(u) && Known(u, es) && i <= |es|
  {
    forall j :: 0 <= j < i ==> Ancestors(u, es[j].hash) <= keys + blocks
  }

  /** Before turn `i` all the ancestors of the entries before are indexed, and so have been available. */
  lemma {:induction false} TurnsKeys(u: map<Hash, Entry>, blocks: set<Hash>, es: seq<Entry>, turns: seq<Index>,
                                     r: Result, i: nat)
    requires Universe(u) && Known(u, es) && CleanTurns(u, blocks, es, turns, r)
    requires i < |turns| && (i + 1 == |turns| ==> i == 0 || r.Ok?)
    ensures turns[i].Keys == KeysBefore(u, turns[0].Keys, es, i) && Available(u, turns[0].Keys, blocks, es, i)
    ensures turns[i].Keys <= turns[0].Keys + blocks
  {
    hide Holds, Puts, Ancestors, IsHead, KeysBefore;
    if i == 0 {
      NoKeysBefore(u, turns[0].Keys, es);
    } else {
      TurnsKeys(u, blocks, es, turns, r, i - 1);
      KeysBeforeStep(u, turns[0].Keys, es, i - 1);
      assert CleanTurn(u, blocks, turns[i - 1], es[i - 1].hash, IsHead(es, es[i - 1].hash), turns[i],
                       TurnResult(turns, i - 1, r));
    }
  }

  lemma NoKeysBefore(u: map<Hash, Entry>, keys: set<Hash>, es: seq<Entry>)
    requires Universe(u) && Known(u, es)
    ensures KeysBefore(u, keys, es, 0) == keys
  {
    NoHashesOf();
    assert es[..0] == [] && AncestorsOf(u, {}) == {};
  }

  lemma TurnsBound(u: map<Hash, Entry>, es: seq<Entry>, turns: seq<Index>, r: Result)
    requires Universe(u) && Known(u, es) && Turns(u, es, turns, r)
    ensures 0 < |turns| <= |es| + 1
    ensures forall i :: 0 <= i < |es| ==> es[i].hash in u
  {
  }

  /** What is known of turn `i`. */
  lemma TheTurn(u: map<Hash, Entry>, blocks: set<Hash>, es: seq<Entry>, turns: seq<Index>, r: Result, i: nat)
    requires Universe(u) && Known(u, es) && CleanTurns(u, blocks, es, turns, r) && i + 1 < |turns|
    ensures es[i].hash in u && CleanTurn(u, blocks, turns[i], es[i].hash, IsHead(es, es[i].hash), turns[i + 1],
                                         TurnResult(turns, i, r))
  {
  }

  /** A join fails exactly if an ancestor of one of its entries is neither indexed nor has a block; and
      it does so at the first of these entries. */
  lemma JoinFailsExactly(u: map<Hash, Entry>, blocks: set<Hash>, es: seq<Entry>, turns: seq<Index>, r: Result)
    requires Universe(u) && Known(u, es) && Turns(u, es, turns, r) && CleanTurns(u, blocks, es, turns, r)
             && (r.Ok? || |turns| > 1)
    ensures r.Ok? <==> Available(u, turns[0].Keys, blocks, es, |es|)
    ensures r.MissingEntry? ==>
              Available(u, turns[0].Keys, blocks, es, |turns| - 2)
              && !Available(u, turns[0].Keys, blocks, es, |turns| - 1)
  {
    assert r.Ok? ==> |turns| == |es| + 1;
    hide Turns, CleanTurns, Puts, Holds, Ancestors, IsHead, Universe, Known, KeysBefore;
    if r.Ok? {
      TurnsKeys(u, blocks, es, turns, r, |es|);
    } else {
      var k := |turns| - 2;
      TurnsKeys(u, blocks, es, turns, r, k);
      TheTurn(u, blocks, es, turns, r, k);
      assert !(Ancestors(u, es[k].hash) <= turns[k].Keys + blocks);
      assert turns[0].Keys <= turns[k].Keys by { KeysAgain(u, turns[0].Keys, es, k); }
    }
  }

  lemma KeysAgain(u: map<Hash, Entry>, keys: set<Hash>, es: seq<Entry>, i: nat)
    requires Universe(u) && Known(u, es) && i <= |es|
    ensures keys <= KeysBefore(u, keys, es, i)
  {
  }

  /** What a join leaves when it fails at turn `k`: exact flags exactly if it has put nothing in that
      turn, and something points to every entry put before as no head. */
  ghost predicate FailsWell(u: map<Hash, Entry>, keys: set<Hash>, blocks: set<Hash>, es: seq<Entry>, k: nat)
    requires Universe(u) && Known(u, es) && k < |es|
  {
    var before := KeysBefore(u, keys, es, k);
    && FailsAtOnce(u, before, blocks, es[k].hash)
    && forall i :: 0 <= i < k && es[i].hash !in keys && !IsHead(es, es[i].hash) ==> Referenced(u, before, es[i].hash)
  }

  /** A join that fails leaves a canonical index canonical exactly if the turn that fails does so at
      once, so that it has put nothing, and something points to all that has been put before as no head. */
  lemma FailedJoin(u: map<Hash, Entry>, blocks: set<Hash>, es: seq<Entry>, turns: seq<Index>, m: Hash)
    requires Universe(u) && AppendOnly(u) && Known(u, es) && |turns| > 1 && IsCanonical(u, turns[0])
    requires Turns(u, es, turns, MissingEntry(m)) && CleanTurns(u, blocks, es, turns, MissingEntry(m))
    ensures IsCanonical(u, turns[|turns| - 1]) <==> FailsWell(u, turns[0].Keys, blocks, es, |turns| - 2)
  {
    hide *;
    var r, k := MissingEntry(m), |turns| - 2;
    TurnsBound(u, es, turns, r);
    AppendsAlways(u, turns[0], es);
    TurnsKeys(u, blocks, es, turns, r, k);
    CanonicalTurns(u, blocks, es, turns, r);
    FailsWellIs(u, turns[0].Keys, blocks, es, k, turns[k].Keys);
    JoinExact(u, es, turns, r);
    FailingTurn(u, blocks, es, turns, m);
    if FailsAtOnce(u, turns[k].Keys, blocks, es[k].hash) {
      EarlierTurns(u, blocks, es, turns, m);
    } else {
      OneTurnWrong(es, turns, r, k);
    }
  }

  lemma FailsWellIs(u: map<Hash, Entry>, keys: set<Hash>, blocks: set<Hash>, es: seq<Entry>, k: nat, before: set<Hash>)
    requires Universe(u) && Known(u, es) && k < |es| && before == KeysBefore(u, keys, es, k)
    ensures FailsWell(u, keys, blocks, es, k) <==>
            && FailsAtOnce(u, before, blocks, es[k].hash)
            && forall i :: 0 <= i < k && es[i].hash !in keys && !IsHead(es, es[i].hash) ==>
               Referenced(u, before, es[i].hash)
  {
    hide KeysBefore, FailsAtOnce, IsHead, Referenced, Universe, Known;
  }

  lemma OneTurnWrong(es: seq<Entry>, turns: seq<Index>, r: Result, i: nat)
    requires |turns| <= |es| + 1 && i + 1 < |turns| && !TurnRight(es, turns, r, i)
    ensures !AllTurnsRight(es, turns, r)
  {
  }

  lemma AppendsAlways(u: map<Hash, Entry>, ix: Index, es: seq<Entry>)
    requires Universe(u) && AppendOnly(u) && Known(u, es)
    ensures AllAppendsCome(u, ix, es)
  {
  }

  lemma CanonicalTurns(u: map<Hash, Entry>, blocks: set<Hash>, es: seq<Entry>, turns: seq<Index>, r: Result)
    requires Universe(u) && AppendOnly(u) && Known(u, es) && |turns| > 1 && CleanTurns(u, blocks, es, turns, r)
    ensures IsCanonical(u, turns[0]) <==> FlagsExact(turns[0])
    ensures IsCanonical(u, turns[|turns| - 1]) <==> FlagsExact(turns[|turns| - 1])
  {
    TheTurn(u, blocks, es, turns, r, 0);
    TheTurn(u, blocks, es, turns, r, |turns| - 2);
    hide IsCanonical, FlagsExact, Universe, AppendOnly, Known, Ancestors, Puts, CleanTurns, Holds;
    CanonicalIsExact(u, turns[0]);
    CanonicalIsExact(u, turns[|turns| - 1]);
  }

  /** The turn that fails does right by the flags exactly if it puts nothing. */
  lemma FailingTurn(u: map<Hash, Entry>, blocks: set<Hash>, es: seq<Entry>, turns: seq<Index>, m: Hash)
    requires Universe(u) && AppendOnly(u) && Known(u, es) && |turns| > 1
    requires Turns(u, es, turns, MissingEntry(m)) && CleanTurns(u, blocks, es, turns, MissingEntry(m))
    ensures var k := |turns| - 2;
            && (TurnRight(es, turns, MissingEntry(m), k) <==> FailsAtOnce(u, turns[k].Keys, blocks, es[k].hash))
            && (FailsAtOnce(u, turns[k].Keys, blocks, es[k].hash) ==> turns[k + 1] == turns[k])
  {
    hide Turns, CleanTurns, CleanTurn, FailsAtOnce, Ancestors, IsHead, Universe, Known, Holds, AppendPointsTo,
         AppendOnly, Puts;
    var k := |turns| - 2;
    TurnsBound(u, es, turns, MissingEntry(m));
    TheTurn(u, blocks, es, turns, MissingEntry(m), k);
    FailingIsNew(u, es, turns, m);
    FailingKeys(u, blocks, turns[k], es[k].hash, IsHead(es, es[k].hash), turns[k + 1], m);
    if turns[k + 1] != turns[k] {
      var x := LatestIsFree(u, turns[k], turns[k + 1]);
    }
  }

  lemma FailingKeys(u: map<Hash, Entry>, blocks: set<Hash>, ix: Index, h: Hash, isHead: bool, ix': Index, m: Hash)
    requires Universe(u) && h in u && h !in ix && CleanTurn(u, blocks, ix, h, isHead, ix', MissingEntry(m))
             && ix.Keys <= ix'.Keys
    ensures Holds(u, ix) && Holds(u, ix') && (ix'.Keys == ix.Keys ==> ix' == ix)
    ensures ix' == ix <==> FailsAtOnce(u, ix.Keys, blocks, h)
  {
  }

  lemma FailingIsNew(u: map<Hash, Entry>, es: seq<Entry>, turns: seq<Index>, m: Hash)
    requires Universe(u) && AppendOnly(u) && Known(u, es) && |turns| > 1 && Turns(u, es, turns, MissingEntry(m))
    ensures es[|turns| - 2].hash in u && es[|turns| - 2].hash !in turns[|turns| - 2]
    ensures turns[|turns| - 2].Keys <= turns[|turns| - 1].Keys
  {
    var k := |turns| - 2;
    assert Turn(u, turns[k], es[k].hash, IsHead(es, es[k].hash), turns[k + 1], MissingEntry(m));
    TurnIdle(u, turns[k], es[k].hash, IsHead(es, es[k].hash), turns[k + 1], MissingEntry(m));
    AppendsAlways(u, turns[0], es);
    TurnsGrow(u, es, turns, MissingEntry(m), k, k + 1);
  }

  /** If the turn that fails puts nothing, the others have done right exactly if something points to
      all that they have put as no head. */
  lemma EarlierTurns(u: map<Hash, Entry>, blocks: set<Hash>, es: seq<Entry>, turns: seq<Index>, m: Hash)
    requires Universe(u) && AppendOnly(u) && Known(u, es) && |turns| > 1
    requires Turns(u, es, turns, MissingEntry(m)) && CleanTurns(u, blocks, es, turns, MissingEntry(m))
    requires turns[|turns| - 1] == turns[|turns| - 2] && TurnRight(es, turns, MissingEntry(m), |turns| - 2)
    ensures AllTurnsRight(es, turns, MissingEntry(m)) <==>
            forall i :: 0 <= i < |turns| - 2 && es[i].hash !in turns[0] && !IsHead(es, es[i].hash) ==>
              Referenced(u, turns[|turns| - 2].Keys, es[i].hash)
  {
    hide Turns, CleanTurns, Universe, AppendOnly, Known, TurnRight, Referenced, IsHead;
    TurnsBound(u, es, turns, MissingEntry(m));
    if AllTurnsRight(es, turns, MissingEntry(m)) {
      forall i | 0 <= i < |turns| - 2 && es[i].hash !in turns[0] && !IsHead(es, es[i].hash)
        ensures Referenced(u, turns[|turns| - 2].Keys, es[i].hash)
      {
        WasPointedTo(u, blocks, es, turns, m, i);
      }
    }
    if forall i :: 0 <= i < |turns| - 2 && es[i].hash !in turns[0] && !IsHead(es, es[i].hash) ==>
         Referenced(u, turns[|turns| - 2].Keys, es[i].hash) {
      forall i | 0 <= i < |turns| - 2
        ensures TurnRight(es, turns, MissingEntry(m), i)
      {
        PutBefore(u, blocks, es, turns, m, i);
      }
    }
  }

  /** A turn that has succeeded, and what has come since. */
  lemma SettledTurn(u: map<Hash, Entry>, blocks: set<Hash>, es: seq<Entry>, turns: seq<Index>, m: Hash, i: nat, x: Hash)
    requires Universe(u) && AppendOnly(u) && Known(u, es) && i + 2 < |turns|
    requires Turns(u, es, turns, MissingEntry(m)) && CleanTurns(u, blocks, es, turns, MissingEntry(m))
    requires turns[|turns| - 1] == turns[|turns| - 2]
    ensures turns[0].Keys <= turns[i].Keys
    ensures es[i].hash in turns[i + 1]
    ensures Came(turns[i], turns[i + 1], es[i].hash, IsHead(es, es[i].hash), Ok)
    ensures x !in turns[i] ==>
              (Referenced(u, turns[|turns| - 2].Keys, x) <==>
                 NewPoints(turns[i], turns[i + 1], x) || NewPoints(turns[i + 1], turns[|turns| - 1], x))
  {
    var r, k := MissingEntry(m), |turns| - 2;
    hide *;
    TurnsBound(u, es, turns, r);
    OnlyTheLast(turns, r);
    AppendsAlways(u, turns[0], es);
    TurnsGrow(u, es, turns, r, 0, i);
    TurnsGrow(u, es, turns, r, i, i + 1);
    TurnsCome(u, es, turns, r, i);
    TurnsGrow(u, es, turns, r, i + 1, k);
    TheTurn(u, blocks, es, turns, r, i);
    TheTurn(u, blocks, es, turns, r, k);
    TurnHolds(u, blocks, turns[k], es[k].hash, IsHead(es, es[k].hash), turns[k + 1], r);
    CleanTurnPoints(u, blocks, turns[i], turns[i + 1], turns[k], es[i].hash, IsHead(es, es[i].hash), x);
  }

  lemma OnlyTheLast(turns: seq<Index>, r: Result)
    ensures forall i :: 0 <= i < |turns| - 2 ==> TurnResult(turns, i, r) == Ok
    ensures |turns| > 1 ==> TurnResult(turns, |turns| - 2, r) == r
  {
  }

  lemma TurnHolds(u: map<Hash, Entry>, blocks: set<Hash>, ix: Index, h: Hash, isHead: bool, ix': Index, r: Result)
    requires Universe(u) && h in u && CleanTurn(u, blocks, ix, h, isHead, ix', r)
    ensures Holds(u, ix) && Holds(u, ix')
  {
  }

  lemma CleanTurnPoints(u: map<Hash, Entry>, blocks: set<Hash>, ix: Index, ix': Index, ix'': Index, h: Hash,
                        isHead: bool, x: Hash)
    requires Universe(u) && AppendOnly(u) && h in u && CleanTurn(u, blocks, ix, h, isHead, ix', Ok) && Holds(u, ix'')
    requires Demotes(ix, ix') && Demotes(ix', ix'')
    ensures h in ix'
    ensures x !in ix ==> (Referenced(u, ix''.Keys, x) <==> NewPoints(ix, ix', x) || NewPoints(ix', ix'', x))
  {
    OwnAncestor(u, h);
    DemotesGrows(ix, ix');
    DemotesGrows(ix', ix'');
    assert Holds(u, ix) && h in ix';
    hide *;
    if x !in ix {
      MissingIsFree(u, ix, x);
      NewPointsOnce(ix, ix', x);
      NewPointsOnce(ix', ix'', x);
      ReferencedIsPointedTo(u, ix'', x);
    }
  }

  /** Something points to an entry that has come as no head, if all turns have done right. */
  lemma WasPointedTo(u: map<Hash, Entry>, blocks: set<Hash>, es: seq<Entry>, turns: seq<Index>, m: Hash, i: nat)
    requires Universe(u) && AppendOnly(u) && Known(u, es) && i + 2 < |turns|
    requires Turns(u, es, turns, MissingEntry(m)) && CleanTurns(u, blocks, es, turns, MissingEntry(m))
    requires turns[|turns| - 1] == turns[|turns| - 2]
    requires AllTurnsRight(es, turns, MissingEntry(m)) && es[i].hash !in turns[0] && !IsHead(es, es[i].hash)
    ensures Referenced(u, turns[|turns| - 2].Keys, es[i].hash)
  {
    hide *;
    TurnsBound(u, es, turns, MissingEntry(m));
    SettledTurn(u, blocks, es, turns, m, i, es[i].hash);
    var j := Arrival(turns, i + 1, es[i].hash);
    SettledTurn(u, blocks, es, turns, m, j, es[i].hash);
    NotYetPointedTo(u, blocks, es, turns, m, j);
    TurnWasRight(es, turns, m, j);
    OthersCome(turns[j], turns[j + 1], es[j].hash, IsHead(es, es[j].hash), es[i].hash);
  }

  lemma OthersCome(ix: Index, ix': Index, h: Hash, isHead: bool, x: Hash)
    requires Came(ix, ix', h, isHead, Ok)
    ensures x in ix' && x !in ix && x != h ==> NewPoints(ix, ix', x)
  {
    hide NewPoints, Demotes;
  }

  lemma TurnWasRight(es: seq<Entry>, turns: seq<Index>, m: Hash, i: nat)
    requires i + 2 < |turns| <= |es| + 1 && AllTurnsRight(es, turns, MissingEntry(m))
    ensures var h, ix, ix', last := es[i].hash, turns[i], turns[i + 1], turns[|turns| - 1];
            h in ix' && h !in ix ==> (IsHead(es, h) <==> !AppendPointsTo(ix, h)) || NewPoints(ix', last, h)
  {
    hide IsHead, AppendPointsTo, NewPoints;
    assert TurnRight(es, turns, MissingEntry(m), i);
  }

  /** Nothing points to an entry before it has come. */
  lemma NotYetPointedTo(u: map<Hash, Entry>, blocks: set<Hash>, es: seq<Entry>, turns: seq<Index>, m: Hash, i: nat)
    requires Universe(u) && AppendOnly(u) && Known(u, es) && i + 2 < |turns|
    requires CleanTurns(u, blocks, es, turns, MissingEntry(m))
    ensures es[i].hash !in turns[i] ==> !AppendPointsTo(turns[i], es[i].hash)
  {
    TheTurn(u, blocks, es, turns, MissingEntry(m), i);
    hide CleanTurns, Universe, AppendOnly, Known, Puts, IsHead, AppendPointsTo, Holds, Ancestors;
    if es[i].hash !in turns[i] {
      MissingIsFree(u, turns[i], es[i].hash);
    }
  }

  lemma PutBefore(u: map<Hash, Entry>, blocks: set<Hash>, es: seq<Entry>, turns: seq<Index>, m: Hash, i: nat)
    requires Universe(u) && AppendOnly(u) && Known(u, es) && i + 2 < |turns|
    requires Turns(u, es, turns, MissingEntry(m)) && CleanTurns(u, blocks, es, turns, MissingEntry(m))
    requires turns[|turns| - 1] == turns[|turns| - 2]
    requires es[i].hash !in turns[0] && !IsHead(es, es[i].hash) ==> Referenced(u, turns[|turns| - 2].Keys, es[i].hash)
    ensures TurnRight(es, turns, MissingEntry(m), i)
  {
    TurnsBound(u, es, turns, MissingEntry(m));
    hide Turns, CleanTurns, Universe, AppendOnly, Known, Referenced, IsHead, NewPoints, AppendPointsTo;
    SettledTurn(u, blocks, es, turns, m, i, es[i].hash);
    NotYetPointedTo(u, blocks, es, turns, m, i);
  }
}
