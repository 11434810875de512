/** Trimming a log to a length, from its oldest entries on. */
module Trims {
  import opened Collections
  import opened LogEntries
  import opened EntryIndexes

  function Wall(ix: Index, h: Hash): nat
    requires h in ix
  {
    ix[h].entry.time.wallTime
  }

  // ---------- The walk ----------

  /** The places of a walk are entries, from older to newer. */
  ghost predicate Rising(ix: Index, v: seq<Hash>) {
    && (forall i :: 0 <= i < |v| ==> v[i] in ix)
    && (forall i, j :: 0 <= i < j < |v| ==> Wall(ix, v[i]) < Wall(ix, v[j]))
  }

  /** `h` is one of the earliest entries of its wall time. */
  ghost predicate Earliest(ix: Index, h: Hash) {
    h in ix && forall x :: x in ix && Wall(ix, x) == Wall(ix, h) ==> !Before(ix[x].entry.time, ix[h].entry.time)
  }

  /** The walk comes to the wall time of `x`. */
  ghost predicate ComesTo(ix: Index, v: seq<Hash>, x: Hash)
    requires x in ix
  {
    exists h :: h in v && h in ix && Wall(ix, h) == Wall(ix, x)
  }

  ghost function LastWall(ix: Index, v: seq<Hash>): int {
    if |v| == 0 || v[|v| - 1] !in ix then -1 else Wall(ix, v[|v| - 1])
  }

  /** A walk from the oldest entry on: at each wall time it comes to one of the earliest entries,
      and it passes over no wall time. */
  ghost predicate Walk(ix: Index, v: seq<Hash>) {
    && Rising(ix, v)
    && (forall h :: h in v ==> Earliest(ix, h))
    && (forall x :: x in ix && Wall(ix, x) <= LastWall(ix, v) ==> ComesTo(ix, v, x))
  }

  ghost predicate Complete(ix: Index, v: seq<Hash>) {
    forall x :: x in ix ==> ComesTo(ix, v, x)
  }

  /** Among the entries after `wall` none is earlier. */
  ghost predicate FirstAfter(ix: Index, wall: int, h: Hash) {
    h in ix && Wall(ix, h) > wall && forall x :: x in ix && Wall(ix, x) > wall ==>
      !Before(ix[x].entry.time, ix[h].entry.time)
  }

  lemma RisingMore(ix: Index, v: seq<Hash>, h: Hash)
    requires Rising(ix, v) && h in ix && Wall(ix, h) > LastWall(ix, v)
    ensures Rising(ix, v + [h])
    ensures forall x :: x in v ==> x in ix && Wall(ix, x) < Wall(ix, h)
  {
    var w := v + [h];
    forall i | 0 <= i < |v|
      ensures Wall(ix, v[i]) < Wall(ix, h)
    {
      assert i < |v| - 1 ==> Wall(ix, v[i]) < Wall(ix, v[|v| - 1]);
    }
  }

  lemma WalkMore(ix: Index, v: seq<Hash>, h: Hash)
    requires Walk(ix, v) && FirstAfter(ix, LastWall(ix, v), h)
    ensures Walk(ix, v + [h])
  {
    RisingMore(ix, v, h);
    var w := v + [h];
    assert Earliest(ix, h);
    assert forall x :: x in w <==> x in v || x == h;
    hide Rising, Earliest;
    assert LastWall(ix, w) == Wall(ix, h);
    forall x | x in ix && Wall(ix, x) <= Wall(ix, h)
      ensures ComesTo(ix, w, x)
    {
      if Wall(ix, x) == Wall(ix, h) {
        assert h in w;
      } else if Wall(ix, x) <= LastWall(ix, v) {
        var y :| y in v && y in ix && Wall(ix, y) == Wall(ix, x);
        assert y in w;
      } else {
        assert false;
      }
    }
  }

  // ---------- What trimming comes to ----------

  /** The entries of the walk that may be trimmed. */
  function Trimmable(ix: Index, v: seq<Hash>, canTrim: nat -> bool): set<Hash> {
    set h | h in v && h in ix && canTrim(ix[h].entry.gid)
  }

  /** What a trim has come to: it has deleted what it may of the places of a walk, and has stopped
      when the length was reached, or else at the end of the walk. */
  ghost predicate Trimmed(ix: Index, ix': Index, v: seq<Hash>, deleted: seq<Hash>, to: nat, canTrim: nat -> bool) {
    && Walk(ix, v) && Hashes(deleted) == Trimmable(ix, v, canTrim)
    && ix'.Keys == ix.Keys - Hashes(deleted)
    && |ix'| >= Min(to, |ix|)
    && (|ix'| <= to || Complete(ix, v))
  }

  function Min(a: nat, b: nat): nat {
    if a < b then a else b
  }

  ghost predicate DistinctWalls(ix: Index) {
    forall x, y :: x in ix && y in ix && Wall(ix, x) == Wall(ix, y) ==> x == y
  }

  function AllTrimmable(ix: Index, canTrim: nat -> bool): set<Hash> {
    set h | h in ix && canTrim(ix[h].entry.gid)
  }

  /** With distinct wall times a trim drops the oldest: as many of the entries that may be trimmed
      as are needed to get to the length, or as there are. */
  lemma TrimDropsOldest(ix: Index, ix': Index, v: seq<Hash>, deleted: seq<Hash>, to: nat, canTrim: nat -> bool)
    requires DistinctWalls(ix) && Trimmed(ix, ix', v, deleted, to, canTrim)
    ensures var all, gone := AllTrimmable(ix, canTrim), Hashes(deleted);
            && gone <= all
            && (forall d, x :: d in gone && x in all && Before(ix[x].entry.time, ix[d].entry.time) ==> x in gone)
            && |gone| == Min(if |ix| > to then |ix| - to else 0, |all|)
  {
    hide DistinctWalls, Walk, Complete;
    var all, gone := AllTrimmable(ix, canTrim), Hashes(deleted);
    assert gone <= all;
    forall d, x | d in gone && x in all && Before(ix[x].entry.time, ix[d].entry.time)
      ensures x in gone
    {
      WalkHas(ix, v, d, x);
    }
    SizeLess(ix, ix', gone);
    SubsetSize(gone, all);
    if Complete(ix, v) {
      forall x | x in all
        ensures x in gone
      {
        CompleteHas(ix, v, x);
      }
      assert gone == all;
    }
  }

  lemma WalkHas(ix: Index, v: seq<Hash>, d: Hash, x: Hash)
    requires DistinctWalls(ix) && Walk(ix, v) && d in v && x in ix && d in ix && Wall(ix, x) <= Wall(ix, d)
    ensures x in v
  {
    var k :| 0 <= k < |v| && v[k] == d;
    assert k < |v| - 1 ==> Wall(ix, v[k]) < Wall(ix, v[|v| - 1]);
    hide Earliest;
    assert ComesTo(ix, v, x);
  }

  lemma CompleteHas(ix: Index, v: seq<Hash>, x: Hash)
    requires DistinctWalls(ix) && Complete(ix, v) && x in ix
    ensures x in v
  {
    assert ComesTo(ix, v, x);
  }

  lemma SizeLess(ix: Index, ix': Index, gone: set<Hash>)
    requires gone <= ix.Keys && ix'.Keys == ix.Keys - gone
    ensures |ix'| == |ix| - |gone|
  {
    MapSize(ix);
    MapSize(ix');
  }

  function WallsIn(ix: Index, hs: set<Hash>): set<nat> {
    set h | h in hs && h in ix :: ix[h].entry.time.wallTime
  }

  /** The wall times at which some earliest entry may be trimmed. */
  ghost function MayGo(ix: Index, canTrim: nat -> bool): set<nat> {
    set h | h in ix && Earliest(ix, h) && canTrim(ix[h].entry.gid) :: ix[h].entry.time.wallTime
  }

  ghost predicate AllEarliestMayGo(ix: Index, wall: nat, canTrim: nat -> bool) {
    forall x :: x in ix && Earliest(ix, x) && Wall(ix, x) == wall ==> canTrim(ix[x].entry.gid)
  }

  /** The wall times at which each earliest entry may be. */
  ghost function MustGo(ix: Index, canTrim: nat -> bool): set<nat> {
    set h | h in ix && AllEarliestMayGo(ix, Wall(ix, h), canTrim) :: ix[h].entry.time.wallTime
  }

  /** The earliest entries of one wall time agree on whether they may be trimmed. */
  ghost predicate EarliestAgree(ix: Index, canTrim: nat -> bool) {
    forall x, y :: x in ix && y in ix && Earliest(ix, x) && Earliest(ix, y) && Wall(ix, x) == Wall(ix, y) ==>
      canTrim(ix[x].entry.gid) == canTrim(ix[y].entry.gid)
  }

  /** In general only one entry a wall time may be dropped, an earliest one: as many as are needed to get
      to the length, or as there are wall times where that one may be trimmed. */
  lemma TrimReachesLength(ix: Index, ix': Index, v: seq<Hash>, deleted: seq<Hash>, to: nat, canTrim: nat -> bool)
    requires |ix| > to && Trimmed(ix, ix', v, deleted, to, canTrim)
    ensures Min(|ix| - to, |MustGo(ix, canTrim)|) <= |ix| - |ix'| <= Min(|ix| - to, |MayGo(ix, canTrim)|)
    ensures EarliestAgree(ix, canTrim) ==> |ix'| == |ix| - Min(|ix| - to, |MayGo(ix, canTrim)|)
    ensures EarliestAgree(ix, canTrim) ==> (|ix'| == to <==> |MayGo(ix, canTrim)| >= |ix| - to)
  {
    hide *;
    TrimCounts(ix, ix', v, deleted, to, canTrim);
    Counted(|ix| - to, |ix| - |ix'|, |MustGo(ix, canTrim)|, |MayGo(ix, canTrim)|);
    if EarliestAgree(ix, canTrim) {
      AgreeingWalls(ix, canTrim);
    }
  }

  lemma Counted(needed: nat, gone: nat, must: nat, may: nat)
    requires gone <= needed && gone <= may && (gone < needed ==> must <= gone)
    ensures Min(needed, must) <= gone <= Min(needed, may)
    ensures must == may ==> gone == Min(needed, may) && (gone == needed <==> may >= needed)
  {
  }

  lemma TrimCounts(ix: Index, ix': Index, v: seq<Hash>, deleted: seq<Hash>, to: nat, canTrim: nat -> bool)
    requires |ix| > to && Trimmed(ix, ix', v, deleted, to, canTrim)
    ensures to <= |ix'| <= |ix| && |ix| - |ix'| <= |MayGo(ix, canTrim)|
    ensures |ix'| > to ==> |MustGo(ix, canTrim)| <= |ix| - |ix'|
  {
    hide Walk, Complete, Rising, Trimmable, WallsIn, Hashes, MayGo, MustGo;
    var gone := Hashes(deleted);
    TrimmableWalls(ix, v, canTrim);
    SizeLess(ix, ix', gone);
    SubsetSize(WallsIn(ix, gone), MayGo(ix, canTrim));
    if |ix'| > to {
      CompleteWalls(ix, v, canTrim);
      SubsetSize(MustGo(ix, canTrim), WallsIn(ix, gone));
    }
  }

  /** Where all may be trimmed, each wall time counts. */
  lemma TrimWithoutFilter(ix: Index, ix': Index, v: seq<Hash>, deleted: seq<Hash>, to: nat, canTrim: nat -> bool)
    requires forall g :: canTrim(g)
    requires |ix| > to && Trimmed(ix, ix', v, deleted, to, canTrim)
    ensures |ix'| == |ix| - Min(|ix| - to, |WallsIn(ix, ix.Keys)|)
    ensures |ix'| == to <==> |WallsIn(ix, ix.Keys)| >= |ix| - to
  {
    hide Trimmed;
    AllWallsMayGo(ix, canTrim);
    TrimReachesLength(ix, ix', v, deleted, to, canTrim);
  }

  lemma AllWallsMayGo(ix: Index, canTrim: nat -> bool)
    requires forall g :: canTrim(g)
    ensures WallsIn(ix, ix.Keys) == MayGo(ix, canTrim) && EarliestAgree(ix, canTrim)
  {
    hide Earliest;
    forall h | h in ix
      ensures ix[h].entry.time.wallTime in MayGo(ix, canTrim)
    {
      var x := EarliestOf(ix, h, ix.Keys);
    }
  }

  /** Of the entries of the wall time of `h` among `hs`, with `h`, none is earlier. */
  lemma {:induction false} EarliestAmong(ix: Index, h: Hash, hs: set<Hash>) returns (x: Hash)
    requires h in ix && hs <= ix.Keys
    ensures x in ix && Wall(ix, x) == Wall(ix, h)
    ensures forall y :: (y in hs || y == h) && Wall(ix, y) == Wall(ix, h) ==>
              !Before(ix[y].entry.time, ix[x].entry.time)
    decreases |hs|
  {
    if hs == {} {
      x := h;
    } else {
      var y :| y in hs;
      x := EarliestAmong(ix, h, hs - {y});
      if Wall(ix, y) == Wall(ix, h) && Before(ix[y].entry.time, ix[x].entry.time) {
        x := y;
      }
    }
  }

  lemma EarliestOf(ix: Index, h: Hash, hs: set<Hash>) returns (x: Hash)
    requires h in ix && hs == ix.Keys
    ensures x in ix && Earliest(ix, x) && Wall(ix, x) == Wall(ix, h)
  {
    x := EarliestAmong(ix, h, hs);
  }

  lemma AgreeingWalls(ix: Index, canTrim: nat -> bool)
    requires EarliestAgree(ix, canTrim)
    ensures MayGo(ix, canTrim) == MustGo(ix, canTrim)
  {
    forall h | h in ix && AllEarliestMayGo(ix, Wall(ix, h), canTrim)
      ensures Wall(ix, h) in MayGo(ix, canTrim)
    {
      var x := EarliestOf(ix, h, ix.Keys);
    }
  }

  /** A walk comes to each wall time once. */
  lemma TrimmableWalls(ix: Index, v: seq<Hash>, canTrim: nat -> bool)
    requires Walk(ix, v)
    ensures Trimmable(ix, v, canTrim) <= ix.Keys
    ensures |WallsIn(ix, Trimmable(ix, v, canTrim))| == |Trimmable(ix, v, canTrim)|
    ensures WallsIn(ix, Trimmable(ix, v, canTrim)) <= MayGo(ix, canTrim)
  {
    hide Earliest;
    forall x, y | x in v && y in v && x in ix && y in ix && Wall(ix, x) == Wall(ix, y)
      ensures x == y
    {
      RisingOnce(ix, v, x, y);
    }
    WallsSize(ix, Trimmable(ix, v, canTrim));
  }

  lemma RisingOnce(ix: Index, v: seq<Hash>, x: Hash, y: Hash)
    requires Rising(ix, v) && x in v && y in v && x in ix && y in ix && Wall(ix, x) == Wall(ix, y)
    ensures x == y
  {
    var i :| 0 <= i < |v| && v[i] == x;
    var j :| 0 <= j < |v| && v[j] == y;
  }

  lemma {:induction false} WallsSize(ix: Index, hs: set<Hash>)
    requires hs <= ix.Keys && forall x, y :: x in hs && y in hs && Wall(ix, x) == Wall(ix, y) ==> x == y
    ensures |WallsIn(ix, hs)| == |hs|
    decreases |hs|
  {
    if hs == {} {
      assert WallsIn(ix, hs) == {};
    } else {
      var h :| h in hs;
      WallsSize(ix, hs - {h});
      assert WallsIn(ix, hs) == WallsIn(ix, hs - {h}) + {Wall(ix, h)};
    }
  }

  lemma CompleteWalls(ix: Index, v: seq<Hash>, canTrim: nat -> bool)
    requires Walk(ix, v) && Complete(ix, v)
    ensures MustGo(ix, canTrim) <= WallsIn(ix, Trimmable(ix, v, canTrim))
  {
    hide Earliest, Rising;
    forall x | x in ix && AllEarliestMayGo(ix, Wall(ix, x), canTrim)
      ensures Wall(ix, x) in WallsIn(ix, Trimmable(ix, v, canTrim))
    {
      assert ComesTo(ix, v, x);
      var h :| h in v && h in ix && Wall(ix, h) == Wall(ix, x);
      assert h in Trimmable(ix, v, canTrim);
    }
  }

  lemma RisingKnown(ix: Index, v: seq<Hash>)
    requires Walk(ix, v)
    ensures Rising(ix, v) && forall h :: h in v ==> h in ix
  {
  }

  // ---------- The loop ----------

  /** The first in the order of the log among the entries after a wall time, if there is one. */
  method First(ix: Index, wall: int) returns (r: Option<Hash>)
    ensures r.None? ==> forall x :: x in ix ==> Wall(ix, x) <= wall
    ensures r.Some? ==> FirstAfter(ix, wall, r.value)
  {
    r := None;
    var rest := ix.Keys;
    while rest != {}
      invariant rest <= ix.Keys
      invariant r.None? ==> forall x :: x in ix && x !in rest ==> Wall(ix, x) <= wall
      invariant r.Some? ==> r.value in ix && Wall(ix, r.value) > wall
      invariant r.Some? ==> forall x :: x in ix && x !in rest && Wall(ix, x) > wall ==>
                  !Before(ix[x].entry.time, ix[r.value].entry.time)
    {
      var h :| h in rest;
      rest := rest - {h};
      if Wall(ix, h) > wall && (r.None? || Before(ix[h].entry.time, ix[r.value].entry.time)) {
        r := Some(h);
      }
    }
  }

  lemma NotBefore(ix: Index)
    ensures (forall x :: x in ix ==> Wall(ix, x) <= -1) <==> ix == map[]
  {
    if forall x :: x in ix ==> Wall(ix, x) <= -1 {
      assert forall x :: x !in ix;
    }
  }

  method GetOldest(index: EntryIndex) returns (r: Option<Hash>)
    ensures r.None? <==> index.index == map[]
    ensures r.Some? ==> FirstAfter(index.index, -1, r.value)
  {
    r := First(index.index, -1);
    NotBefore(index.index);
  }

  /** While the walk goes on: what has been deleted, and what is still there as it was. */
  ghost predicate Going(ix: Index, now: Index, v: seq<Hash>, deleted: seq<Hash>, canTrim: nat -> bool) {
    && Walk(ix, v) && Hashes(deleted) == Trimmable(ix, v, canTrim)
    && now.Keys == ix.Keys - Hashes(deleted)
    && forall h :: h in now ==> now[h].entry == ix[h].entry
  }

  ghost function Ahead(ix: Index, v: seq<Hash>): set<Hash> {
    set x | x in ix && Wall(ix, x) > LastWall(ix, v)
  }

  lemma BehindLast(ix: Index, v: seq<Hash>, x: Hash)
    requires Rising(ix, v) && x in v
    ensures x in ix && Wall(ix, x) <= LastWall(ix, v)
  {
    var i :| 0 <= i < |v| && v[i] == x;
    assert i < |v| - 1 ==> Wall(ix, v[i]) < Wall(ix, v[|v| - 1]);
  }

  /** What is ahead of the walk is still there. */
  lemma AheadIsThere(ix: Index, now: Index, v: seq<Hash>, deleted: seq<Hash>, canTrim: nat -> bool)
    requires Going(ix, now, v, deleted, canTrim)
    ensures forall x :: x in ix && Wall(ix, x) > LastWall(ix, v) ==> x in now
    ensures forall x :: x in now ==> x in ix && now[x].entry == ix[x].entry
  {
    RisingKnown(ix, v);
    forall x | x in Trimmable(ix, v, canTrim)
      ensures Wall(ix, x) <= LastWall(ix, v)
    {
      BehindLast(ix, v, x);
    }
  }

  lemma LastWallOf(ix: Index, v: seq<Hash>, h: Hash)
    requires h in ix
    ensures LastWall(ix, v + [h]) == Wall(ix, h)
  {
  }

  /** What is first among the entries still there is first among all. */
  lemma FirstOfAll(ix: Index, now: Index, wall: int, next: Option<Hash>)
    requires forall x :: x in ix && Wall(ix, x) > wall ==> x in now
    requires forall x :: x in now ==> x in ix && now[x].entry == ix[x].entry
    requires next.None? ==> forall x :: x in now ==> Wall(now, x) <= wall
    requires next.Some? ==> FirstAfter(now, wall, next.value)
    ensures next.None? ==> forall x :: x in ix ==> Wall(ix, x) <= wall
    ensures next.Some? ==> FirstAfter(ix, wall, next.value) && next.value in now
  {
  }

  /** The walk goes on to the first entry after it, whatever is made of this one. */
  lemma GoesOn(ix: Index, now: Index, v: seq<Hash>, deleted: seq<Hash>, canTrim: nat -> bool, h: Hash,
               next: Option<Hash>)
    requires Going(ix, now, v, deleted, canTrim) && FirstAfter(ix, LastWall(ix, v), h)
    requires next.None? ==> forall x :: x in now ==> Wall(now, x) <= Wall(ix, h)
    requires next.Some? ==> FirstAfter(now, Wall(ix, h), next.value)
    ensures Walk(ix, v + [h]) && |Ahead(ix, v + [h])| < |Ahead(ix, v)|
    ensures next.None? ==> Complete(ix, v + [h])
    ensures next.Some? ==> FirstAfter(ix, LastWall(ix, v + [h]), next.value)
  {
    hide Walk, Trimmable, Complete;
    AheadIsThere(ix, now, v, deleted, canTrim);
    FirstOfAll(ix, now, Wall(ix, h), next);
    WalkMore(ix, v, h);
    LastWallOf(ix, v, h);
    AheadLess(ix, v, h);
    if next.None? {
      WalkDone(ix, v + [h]);
    }
  }

  lemma AheadLess(ix: Index, v: seq<Hash>, h: Hash)
    requires h in ix && Wall(ix, h) > LastWall(ix, v)
    ensures |Ahead(ix, v + [h])| < |Ahead(ix, v)|
  {
    LastWallOf(ix, v, h);
    SubsetSize(Ahead(ix, v + [h]), Ahead(ix, v) - {h});
  }

  lemma WalkDone(ix: Index, v: seq<Hash>)
    requires Walk(ix, v) && forall x :: x in ix ==> Wall(ix, x) <= LastWall(ix, v)
    ensures Complete(ix, v)
  {
  }

  lemma TrimmableMore(ix: Index, v: seq<Hash>, canTrim: nat -> bool, h: Hash)
    requires h in ix
    ensures Trimmable(ix, v + [h], canTrim) == Trimmable(ix, v, canTrim) + if canTrim(ix[h].entry.gid) then {h} else {}
  {
    assert forall x :: x in v + [h] <==> x in v || x == h;
  }

  lemma HashesMore(v: seq<Hash>, h: Hash)
    ensures Hashes(v + [h]) == Hashes(v) + {h}
  {
    assert forall x :: x in v + [h] <==> x in v || x == h;
  }

  lemma GoingKept(ix: Index, now: Index, v: seq<Hash>, deleted: seq<Hash>, canTrim: nat -> bool, h: Hash)
    requires Going(ix, now, v, deleted, canTrim) && Walk(ix, v + [h]) && h in ix && !canTrim(ix[h].entry.gid)
    ensures Going(ix, now, v + [h], deleted, canTrim)
  {
    hide Walk, Trimmable;
    TrimmableMore(ix, v, canTrim, h);
  }

  lemma GoingDeleted(ix: Index, now: Index, v: seq<Hash>, deleted: seq<Hash>, canTrim: nat -> bool, h: Hash)
    requires Going(ix, now, v, deleted, canTrim) && Walk(ix, v + [h]) && h in now && canTrim(ix[h].entry.gid)
    ensures Going(ix, Delete(now, h), v + [h], deleted + [h], canTrim)
    ensures |Delete(now, h)| == |now| - 1
  {
    hide Walk, Delete, Trimmable, Hashes;
    DeleteSize(now, h);
    TrimmableMore(ix, v, canTrim, h);
    HashesMore(deleted, h);
  }

  lemma GoingKeyed(ix: Index, now: Index, v: seq<Hash>, deleted: seq<Hash>, canTrim: nat -> bool)
    requires Keyed(ix) && Going(ix, now, v, deleted, canTrim)
    ensures Keyed(now) && Trimmed(ix, now, v, deleted, |now|, canTrim)
  {
  }

  lemma NotStarted(ix: Index, canTrim: nat -> bool)
    ensures Going(ix, ix, [], [], canTrim) && (ix == map[] ==> Complete(ix, []))
  {
  }

  /** The filter is asked once for each gid. */
  ghost predicate Remembers(known: map<nat, bool>, canTrim: nat -> bool) {
    forall g :: g in known ==> known[g] == canTrim(g)
  }

  lemma RemembersNothing(canTrim: nat -> bool)
    ensures Remembers(map[], canTrim)
  {
  }

  lemma RemembersMore(known: map<nat, bool>, canTrim: nat -> bool, g: nat)
    requires Remembers(known, canTrim)
    ensures Remembers(known[g := canTrim(g)], canTrim) && (g in known ==> known[g] == canTrim(g))
  {
  }

  /** Trims to a length: nothing is done before the log is `from` long. */
  method TrimTask(index: EntryIndex, to: nat, from: Option<nat>, canTrim: nat -> bool)
    returns (deleted: seq<Hash>, ghost visited: seq<Hash>)
    requires index.Valid() && Keyed(index.index)
    modifies index
    ensures index.Valid() && Keyed(index.index)
    ensures old(index.length) < (if from.Some? then from.value else to) ==>
              index.index == old(index.index) && deleted == []
    ensures old(index.length) >= (if from.Some? then from.value else to) ==>
              Trimmed(old(index.index), index.index, visited, deleted, to, canTrim)
    ensures old(HeadsFree(index.index)) ==> HeadsFree(index.index)
  {
    hide Going, Keyed, Delete, HeadsFree, Complete, Walk, Trimmable, Hashes, FirstAfter, Ahead, Remembers;
    deleted, visited := [], [];
    if index.length < (if from.Some? then from.value else to) {
      return;
    }
    ghost var ix := index.index;
    NotStarted(ix, canTrim);
    RemembersNothing(canTrim);
    var tail := GetOldest(index);
    var node, looped := tail, false;
    var canTrimByGid: map<nat, bool> := map[];
    while node.Some? && index.length > to && index.length > 0 && (!looped || node != tail)
      invariant index.Valid() && Keyed(index.index)
      invariant Going(ix, index.index, visited, deleted, canTrim)
      invariant old(HeadsFree(index.index)) ==> HeadsFree(index.index)
      invariant |index.index| >= Min(to, |ix|)
      invariant node.Some? && !looped ==> FirstAfter(ix, LastWall(ix, visited), node.value)
      invariant looped ==> node == tail
      invariant looped || node.None? ==> Complete(ix, visited)
      invariant Remembers(canTrimByGid, canTrim)
      decreases if looped then 0 else 1, |Ahead(ix, visited)|
    {
      var h := node.value;
      FirstIsThere(ix, index.index, visited, deleted, canTrim, h);
      var gid := index.index[h].entry.gid;
      RemembersMore(canTrimByGid, canTrim, gid);
      if gid !in canTrimByGid {
        canTrimByGid := canTrimByGid[gid := canTrim(gid)];
      }
      var deleteAble := canTrimByGid[gid];
      var next := First(index.index, Wall(index.index, h));
      GoesOn(ix, index.index, visited, deleted, canTrim, h, next);
      if deleteAble {
        GoingDeleted(ix, index.index, visited, deleted, canTrim, h);
        DeleteKeeps(index.index, h);
        index.DeleteEntry(h);
        deleted := deleted + [h];
      } else {
        GoingKept(ix, index.index, visited, deleted, canTrim, h);
      }
      visited := visited + [h];
      GoingKeyed(ix, index.index, visited, deleted, canTrim);
      node := next;
      if node.None? {
        node := tail;
        looped := true;
      }
    }
    GoingKeyed(ix, index.index, visited, deleted, canTrim);
  }

  lemma FirstIsThere(ix: Index, now: Index, v: seq<Hash>, deleted: seq<Hash>, canTrim: nat -> bool, h: Hash)
    requires Going(ix, now, v, deleted, canTrim) && FirstAfter(ix, LastWall(ix, v), h)
    ensures h in now && h in ix && now[h].entry == ix[h].entry
  {
    AheadIsThere(ix, now, v, deleted, canTrim);
  }
}
