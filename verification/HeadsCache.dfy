/** The persisted cache of the heads of a log: two chains of chunks, of heads added and of heads removed. */
module HeadsCaches {
  import opened Collections
  import opened LogEntries

  // ---------- What the cache means ----------

  /** Everything in the two chains, the latest chunk first. */
  datatype Chains = Chains(added: seq<Hash>, removed: seq<Hash>)

  function Without(s: seq<Hash>, out: set<Hash>): seq<Hash> {
    if |s| == 0 then []
    else if s[0] in out then Without(s[1..], out)
    else [s[0]] + Without(s[1..], out)
  }

  /** The cached heads. */
  function Live(c: Chains): seq<Hash> {
    Without(c.added, Hashes(c.removed))
  }

  /** The chains after an update: once half of what has been added is removed, they are rewritten. */
  function Updated(c: Chains, added: seq<Hash>, removed: seq<Hash>, reset: bool): Chains {
    var c0 := if reset then Chains([], []) else c;
    var c1 := c0.(added := added + c0.added);
    if |c1.added| == 0 || |removed| == 0 then c1
    else
      var c2 := c1.(removed := removed + c1.removed);
      if 2 * |c2.removed| >= |c2.added| then Chains(Live(c2), []) else c2
  }

  /** What the chains always keep to. */
  ghost predicate Lean(c: Chains) {
    |c.removed| == 0 || 2 * |c.removed| < |c.added|
  }

  lemma UpdatedIsLean(c: Chains, added: seq<Hash>, removed: seq<Hash>, reset: bool)
    requires Lean(c)
    ensures Lean(Updated(c, added, removed, reset))
  {
  }

  lemma {:induction false} WithoutAppend(s: seq<Hash>, t: seq<Hash>, out: set<Hash>)
    ensures Without(s + t, out) == Without(s, out) + Without(t, out)
  {
    if |s| == 0 {
      assert s + t == t;
    } else {
      assert (s + t)[0] == s[0] && (s + t)[1..] == s[1..] + t;
      WithoutAppend(s[1..], t, out);
    }
  }

  lemma {:induction false} WithoutTwice(s: seq<Hash>, out: set<Hash>, out': set<Hash>)
    ensures Without(Without(s, out), out') == Without(s, out + out')
  {
    if |s| > 0 {
      WithoutTwice(s[1..], out, out');
      if s[0] !in out {
        assert ([s[0]] + Without(s[1..], out))[1..] == Without(s[1..], out);
      }
    }
  }

  lemma {:induction false} WithoutNothing(s: seq<Hash>)
    ensures Without(s, {}) == s
  {
    if |s| > 0 {
      WithoutNothing(s[1..]);
    }
  }

  lemma {:induction false} WithoutHas(s: seq<Hash>, out: set<Hash>, h: Hash)
    ensures h in Without(s, out) <==> h in s && h !in out
  {
    if |s| > 0 {
      WithoutHas(s[1..], out, h);
      assert h in s <==> h == s[0] || h in s[1..];
    }
  }

  lemma {:induction false} WithoutMore(s: seq<Hash>, out: set<Hash>, out': set<Hash>)
    ensures |Without(s, out + out')| <= |Without(s, out)| <= |s|
    ensures |Without(s, out + out')| == |Without(s, out)| <==> forall h :: h in s && h in out' ==> h in out
    ensures Without(s, out + out') == Without(s, out) <==> forall h :: h in s && h in out' ==> h in out
  {
    if |s| > 0 {
      WithoutMore(s[1..], out, out');
      assert forall h :: h in s <==> h == s[0] || h in s[1..];
    }
  }

  lemma HashesAppend(s: seq<Hash>, t: seq<Hash>)
    ensures Hashes(s + t) == Hashes(s) + Hashes(t)
  {
  }

  /** Rewriting the chains leaves the cached heads as they are, in the same order. */
  lemma CompactionKeepsLive(c: Chains)
    ensures Live(Chains(Live(c), [])) == Live(c)
  {
    WithoutNothing(Live(c));
    assert Hashes([]) == {};
  }

  lemma NoneOf()
    ensures Hashes([]) == {} && forall out :: Without([], out) == []
  {
  }

  lemma UpdatedLive(c: Chains, added: seq<Hash>, removed: seq<Hash>, reset: bool)
    requires Lean(c)
    ensures var c0 := if reset then Chains([], []) else c;
            Live(Updated(c, added, removed, reset)) == Without(added + c0.added, Hashes(c0.removed) + Hashes(removed))
  {
    hide Without, Hashes;
    var c0 := if reset then Chains([], []) else c;
    var c1 := c0.(added := added + c0.added);
    var c2 := c1.(removed := removed + c1.removed);
    HashesAppend(removed, c1.removed);
    CompactionKeepsLive(c2);
    NoneOf();
    if |removed| == 0 {
      assert Hashes(c0.removed) + {} == Hashes(c0.removed);
    } else {
      assert Hashes(removed) + Hashes(c0.removed) == Hashes(c0.removed) + Hashes(removed);
    }
  }

  /** What an update does to single heads: if the cache starts again, none but those added is listed; else all
      that have been listed stay, but for those removed. Nothing is rewritten before half of it is removed. */
  ghost predicate Carries(c: Chains, c': Chains, added: seq<Hash>, removed: seq<Hash>, again: bool) {
    if again then forall h :: h in Live(c') <==> h in added && h !in removed
    else
      && (forall h :: h in Live(c) && h !in removed ==> h in Live(c'))
      && (forall h :: h in Live(c') ==> h !in removed && (h in added || h in Live(c)))
      && (2 * |removed + c.removed| < |added + c.added| ==> c' == Chains(added + c.added, removed + c.removed))
  }

  lemma UpdatedMeans(c: Chains, added: seq<Hash>, removed: seq<Hash>, again: bool)
    ensures Lean(c) ==> Carries(c, Updated(c, added, removed, again), added, removed, again)
  {
    if Lean(c) {
      LeanUpdatedMeans(c, added, removed, again);
    }
  }

  lemma LeanUpdatedMeans(c: Chains, added: seq<Hash>, removed: seq<Hash>, again: bool)
    requires Lean(c)
    ensures Carries(c, Updated(c, added, removed, again), added, removed, again)
  {
    UpdatedLive(c, added, removed, again);
    var c0 := if again then Chains([], []) else c;
    forall h
      ensures h in Live(Updated(c, added, removed, again)) <==>
                (h in added || h in c0.added) && h !in c0.removed && h !in removed
      ensures h in Live(c) <==> h in c.added && h !in c.removed
    {
      WithoutHas(added + c0.added, Hashes(c0.removed) + Hashes(removed), h);
      WithoutHas(c.added, Hashes(c.removed), h);
    }
    assert |removed| == 0 ==> removed + c.removed == c.removed;
  }

  /** An update is what it should be - the added heads put before the cached ones, and what is
      removed taken out - exactly if nothing is added again that the chain of removed heads still
      holds, except to be removed at once. */
  lemma UpdateIsExact(c: Chains, added: seq<Hash>, removed: seq<Hash>, reset: bool)
    requires Lean(c)
    ensures Live(Updated(c, added, removed, reset)) == Without(added + (if reset then [] else Live(c)), Hashes(removed))
            <==> (reset || forall h :: h in added && h in c.removed ==> h in removed)
  {
    var c0 := if reset then Chains([], []) else c;
    var gone, out := Hashes(c0.removed), Hashes(removed);
    UpdatedLive(c, added, removed, reset);
    WithoutAppend(added, c0.added, gone + out);
    WithoutTwice(c0.added, gone, out);
    WithoutAppend(added, Live(c0), out);
    assert gone + out == out + gone;
    WithoutMore(added, out, gone);
    var x, y, z := Without(added, out + gone), Without(added, out), Without(Live(c0), out);
    assert x + z == y + z <==> x == y by {
      if x + z == y + z {
        assert |x| == |y|;
        assert (x + z)[..|x|] == x && (y + z)[..|y|] == y;
      }
    }
    assert forall h :: h in gone <==> h in c0.removed;
  }

  // ---------- Runs ----------

  datatype Update = Update(added: seq<Hash>, removed: seq<Hash>, reset: bool)

  /** The list of heads that a run of updates should leave. */
  function ListAfter(us: seq<Update>): seq<Hash> {
    if |us| == 0 then []
    else
      var u := us[|us| - 1];
      Without(u.added + (if u.reset then [] else ListAfter(us[..|us| - 1])), Hashes(u.removed))
  }

  function ChainsAfter(us: seq<Update>): Chains {
    if |us| == 0 then Chains([], [])
    else Updated(ChainsAfter(us[..|us| - 1]), us[|us| - 1].added, us[|us| - 1].removed, us[|us| - 1].reset)
  }

  /** `h` has been removed since the last reset. */
  ghost predicate Removed(us: seq<Update>, h: Hash) {
    |us| > 0 && (h in us[|us| - 1].removed || (!us[|us| - 1].reset && Removed(us[..|us| - 1], h)))
  }

  /** No update adds what has been removed before it, since the last reset. */
  ghost predicate NoneAgain(us: seq<Update>) {
    |us| > 0 ==>
      var u, init := us[|us| - 1], us[..|us| - 1];
      && NoneAgain(init)
      && (!u.reset ==> forall h :: h in u.added ==> !Removed(init, h))
  }

  /** `h` has been added since the last reset. */
  ghost predicate Added(us: seq<Update>, h: Hash) {
    |us| > 0 && (h in us[|us| - 1].added || (!us[|us| - 1].reset && Added(us[..|us| - 1], h)))
  }

  lemma {:induction false} RemovedAfter(us: seq<Update>, h: Hash)
    ensures Lean(ChainsAfter(us)) && (h in ChainsAfter(us).removed ==> Removed(us, h))
  {
    if |us| > 0 {
      RemovedAfter(us[..|us| - 1], h);
    }
  }

  /** After any run that adds no removed hash again, the cached heads are the list that the run
      should leave: the hashes that have been added and not removed, since the last reset. */
  lemma {:induction false} RunIsExact(us: seq<Update>)
    requires NoneAgain(us)
    ensures Live(ChainsAfter(us)) == ListAfter(us)
    ensures forall h :: h in ListAfter(us) <==> Added(us, h) && !Removed(us, h)
  {
    if |us| > 0 {
      var u, init := us[|us| - 1], us[..|us| - 1];
      RunIsExact(init);
      RemovedAfter(init, 0);
      forall h
        ensures h in ChainsAfter(init).removed ==> Removed(init, h)
      {
        RemovedAfter(init, h);
      }
      UpdateIsExact(ChainsAfter(init), u.added, u.removed, u.reset);
      var before := if u.reset then [] else ListAfter(init);
      forall h
        ensures h in ListAfter(us) <==> Added(us, h) && !Removed(us, h)
      {
        WithoutHas(u.added + before, Hashes(u.removed), h);
        assert h in u.added + before <==> h in u.added || h in before;
      }
    }
  }

  // ---------- How much is stored ----------

  lemma {:induction false} DistinctSize(s: seq<Hash>)
    requires Distinct(s)
    ensures |Hashes(s)| == |s|
  {
    if |s| > 0 {
      DistinctSize(s[1..]);
      assert Hashes(s) == Hashes(s[1..]) + {s[0]};
    }
  }

  lemma {:induction false} HashesSize(s: seq<Hash>)
    ensures |Hashes(s)| <= |s|
  {
    if |s| > 0 {
      HashesSize(s[1..]);
      assert Hashes(s) == Hashes(s[1..]) + {s[0]};
    }
  }

  lemma {:induction false} WithoutDistinct(s: seq<Hash>, out: set<Hash>)
    requires Distinct(s)
    ensures Distinct(Without(s, out)) && Hashes(Without(s, out)) == Hashes(s) - out
  {
    if |s| > 0 {
      WithoutDistinct(s[1..], out);
      assert Hashes(s) == Hashes(s[1..]) + {s[0]};
      if s[0] !in out {
        var rest := Without(s[1..], out);
        assert Hashes([s[0]] + rest) == {s[0]} + Hashes(rest);
        assert s[0] !in Hashes(rest);
      }
    }
  }

  /** What is stored, in both chains, is less than three times what is live, if no head is in the
      chain of added ones twice. */
  lemma StoredIsBounded(c: Chains)
    requires Lean(c) && Distinct(c.added) && |c.added| > 0
    ensures |c.added| + |c.removed| < 3 * |Live(c)|
  {
    WithoutDistinct(c.added, Hashes(c.removed));
    DistinctSize(c.added);
    HashesSize(c.removed);
    DistinctSize(Live(c));
    hide Without, Hashes, Distinct;
    DifferenceSize(Hashes(c.added), Hashes(c.removed));
  }

  lemma DifferenceSize(a: set<Hash>, r: set<Hash>)
    ensures |a| <= |a - r| + |r|
  {
    SubsetSize(a * r, r);
    assert a == (a - r) + (a * r);
  }

  /** Every update of the run adds hashes that have not been added since the last reset, each once. */
  ghost predicate AddsOnce(us: seq<Update>) {
    |us| > 0 ==>
      var u, init := us[|us| - 1], us[..|us| - 1];
      && AddsOnce(init) && Distinct(u.added)
      && (!u.reset ==> forall h :: h in u.added ==> !Added(init, h))
  }

  lemma {:induction false} AddedAfter(us: seq<Update>, h: Hash)
    ensures Lean(ChainsAfter(us)) && (h in ChainsAfter(us).added ==> Added(us, h))
  {
    if |us| > 0 {
      var u, init := us[|us| - 1], us[..|us| - 1];
      AddedAfter(init, h);
      var c0 := if u.reset then Chains([], []) else ChainsAfter(init);
      var c1 := c0.(added := u.added + c0.added);
      var c2 := c1.(removed := u.removed + c1.removed);
      WithoutHas(c2.added, Hashes(c2.removed), h);
    }
  }

  lemma {:induction false} AddedOnce(us: seq<Update>)
    requires AddsOnce(us)
    ensures Distinct(ChainsAfter(us).added)
  {
    if |us| > 0 {
      var u, init := us[|us| - 1], us[..|us| - 1];
      AddedOnce(init);
      var c0 := if u.reset then Chains([], []) else ChainsAfter(init);
      forall h | h in c0.added
        ensures h !in u.added
      {
        AddedAfter(init, h);
      }
      DistinctAppend(u.added, c0.added);
      var c1 := c0.(added := u.added + c0.added);
      var c2 := c1.(removed := u.removed + c1.removed);
      WithoutDistinct(c2.added, Hashes(c2.removed));
    }
  }

  /** After every run that adds each hash once, whatever it removes, and as often as it may, what is
      stored is less than three times what is live, or nothing is stored. */
  lemma RunIsBounded(us: seq<Update>)
    requires AddsOnce(us)
    ensures var c := ChainsAfter(us);
            |c.added| + |c.removed| < 3 * |Live(c)| || c == Chains([], [])
  {
    AddedOnce(us);
    RemovedAfter(us, 0);
    if |ChainsAfter(us).added| > 0 {
      StoredIsBounded(ChainsAfter(us));
    }
  }

  lemma DistinctAppend(s: seq<Hash>, t: seq<Hash>)
    requires Distinct(s) && Distinct(t) && forall h :: h in t ==> h !in s
    ensures Distinct(s + t)
  {
    forall i, j | 0 <= i < j < |s + t|
      ensures (s + t)[i] != (s + t)[j]
    {
      if i < |s| <= j {
        assert t[j - |s|] in t;
      }
    }
  }

  // ---------- The store ----------

  /** Where something is stored: the latest chunk of a chain is pointed to from a fixed place. */
  datatype Path = HeadsPath | RemovedHeadsPath | ChunkPath(removed: bool, counter: nat, uuid: nat)

  datatype Value = Pointer(path: Path) | Chunk(heads: seq<Hash>, count: nat, last: Option<Path>)

  type Store = map<Path, Value>

  /** Every chunk is not empty, and the chunk before it is there and older. */
  ghost predicate Linked(store: Store) {
    forall p :: p in store && p.ChunkPath? ==>
      && store[p].Chunk? && |store[p].heads| > 0
      && (store[p].last.Some? ==> IsChunk(store, store[p].last) && store[p].last.value.uuid < p.uuid)
  }

  predicate IsChunk(store: Store, p: Option<Path>) {
    p.Some? && p.value.ChunkPath? && p.value in store
  }

  /** All the hashes of a chain, the latest chunk first. */
  ghost function Chain(store: Store, p: Option<Path>): seq<Hash>
    requires Linked(store) && (p.Some? ==> IsChunk(store, p))
    decreases if p.Some? then p.value.uuid + 1 else 0
  {
    if p.None? then [] else store[p.value].heads + Chain(store, store[p.value].last)
  }

  /** Each chunk knows how many hashes its chain has. */
  ghost predicate Counted(store: Store)
    requires Linked(store)
  {
    forall p :: IsChunk(store, Some(p)) ==> store[p].count == |Chain(store, Some(p))|
  }

  /** The chunk ids of the store have been drawn before `uuid`. */
  ghost predicate Drawn(store: Store, uuid: nat) {
    forall p :: p in store && p.ChunkPath? ==> p.uuid < uuid
  }

  function PointedTo(store: Store, base: Path): Option<Path> {
    if base in store && store[base].Pointer? then Some(store[base].path) else None
  }

  ghost predicate Sound(store: Store, uuid: nat) {
    && Linked(store) && Counted(store) && Drawn(store, uuid)
    && (PointedTo(store, HeadsPath).Some? ==> IsChunk(store, PointedTo(store, HeadsPath)))
    && (PointedTo(store, RemovedHeadsPath).Some? ==> IsChunk(store, PointedTo(store, RemovedHeadsPath)))
  }

  ghost function Stored(store: Store, uuid: nat): Chains
    requires Sound(store, uuid)
  {
    Chains(Chain(store, PointedTo(store, HeadsPath)), Chain(store, PointedTo(store, RemovedHeadsPath)))
  }

  function Other(base: Path): Path {
    if base == HeadsPath then RemovedHeadsPath else HeadsPath
  }

  /** The store with one more chunk at the front of a chain. */
  function Pushed(store: Store, base: Path, path: Path, hashes: seq<Hash>, count: nat, last: Option<Path>): Store {
    store[base := Pointer(path)][path := Chunk(hashes, count, last)]
  }

  lemma {:induction false} ChainFrame(store: Store, store': Store, p: Option<Path>)
    requires Linked(store) && Linked(store') && (p.Some? ==> IsChunk(store, p))
    requires forall q :: q in store && q.ChunkPath? ==> q in store' && store'[q] == store[q]
    ensures p.Some? ==> IsChunk(store', p)
    ensures Chain(store', p) == Chain(store, p)
    decreases if p.Some? then p.value.uuid + 1 else 0
  {
    if p.Some? {
      ChainFrame(store, store', store[p.value].last);
    }
  }

  lemma PushedIsLinked(store: Store, uuid: nat, base: Path, path: Path, hashes: seq<Hash>, count: nat,
                       last: Option<Path>)
    requires Linked(store) && Drawn(store, uuid) && !base.ChunkPath? && path.ChunkPath? && path.uuid == uuid
             && |hashes| > 0
    requires last.Some? ==> IsChunk(store, last)
    ensures Linked(Pushed(store, base, path, hashes, count, last))
            && Drawn(Pushed(store, base, path, hashes, count, last), uuid + 1)
  {
  }

  lemma PushedChain(store: Store, uuid: nat, base: Path, path: Path, hashes: seq<Hash>, count: nat, last: Option<Path>)
    requires Sound(store, uuid) && !base.ChunkPath? && path.ChunkPath? && path.uuid == uuid && |hashes| > 0
    requires last == PointedTo(store, base) && count == |Chain(store, last)| + |hashes|
    ensures var store' := Pushed(store, base, path, hashes, count, last);
            && Sound(store', uuid + 1)
            && Chain(store', Some(path)) == hashes + Chain(store, last)
            && PointedTo(store', base) == Some(path) && PointedTo(store', Other(base)) == PointedTo(store, Other(base))
            && Stored(store', uuid + 1) ==
               if base == HeadsPath then Chains(hashes + Stored(store, uuid).added, Stored(store, uuid).removed)
               else Chains(Stored(store, uuid).added, hashes + Stored(store, uuid).removed)
  {
    var store' := Pushed(store, base, path, hashes, count, last);
    assert base == HeadsPath || base == RemovedHeadsPath;
    PushedIsLinked(store, uuid, base, path, hashes, count, last);
    PushedKeeps(store, store', path);
    hide Counted;
    assert Stored(store', uuid + 1).added == Chain(store', PointedTo(store', HeadsPath));
  }

  /** The chains that were there stay. */
  lemma PushedKeeps(store: Store, store': Store, path: Path)
    requires Linked(store) && Linked(store') && Counted(store) && path.ChunkPath?
    requires forall q :: q in store && q.ChunkPath? ==> q in store' && store'[q] == store[q]
    requires forall q :: IsChunk(store', Some(q)) ==> q == path || IsChunk(store, Some(q))
    requires path in store' && path !in store && (store'[path].last.Some? ==> IsChunk(store, store'[path].last))
    requires store'[path].count == |Chain(store, store'[path].last)| + |store'[path].heads|
    ensures forall p: Option<Path> :: p.None? || IsChunk(store, p) ==>
              (p.Some? ==> IsChunk(store', p)) && Chain(store', p) == Chain(store, p)
    ensures Counted(store')
  {
    forall p: Option<Path> | p.None? || IsChunk(store, p)
      ensures (p.Some? ==> IsChunk(store', p)) && Chain(store', p) == Chain(store, p)
    {
      ChainFrame(store, store', p);
    }
  }

  lemma EmptyChains(store: Store, uuid: nat)
    requires Sound(store, uuid)
    ensures |Stored(store, uuid).added| == 0 <==> PointedTo(store, HeadsPath).None?
    ensures Stored(store, uuid).added == Chain(store, PointedTo(store, HeadsPath))
    ensures Stored(store, uuid).removed == Chain(store, PointedTo(store, RemovedHeadsPath))
  {
  }

  /** The cache starts again from all the heads that are added, if these are all the heads there are. */
  predicate AllHeads(loaded: bool, indexed: set<Hash>, added: seq<Hash>) {
    loaded && |indexed| <= |added| && forall h :: h in added ==> h in indexed
  }

  /** These are all the heads exactly if there are as many different ones. */
  lemma AllHeadsAreAll(indexed: set<Hash>, added: seq<Hash>)
    requires AllHeads(true, indexed, added)
    ensures Hashes(added) == indexed <==> |Hashes(added)| >= |indexed|
  {
    var rest := indexed - Hashes(added);
    assert Hashes(added) <= indexed;
    assert |rest| == |indexed| - |Hashes(added)|;
    assert indexed == Hashes(added) + rest;
  }

  /** So a cache that lists the heads of the index loses one by starting again exactly if the update
      repeats so many that there are fewer different ones than heads. */
  lemma AllHeadsMayLose(indexed: set<Hash>, added: seq<Hash>, c: Chains)
    requires AllHeads(true, indexed, added) && Hashes(Live(c)) == indexed && Lean(c)
    ensures (exists h :: h in Live(c) && h !in Live(Updated(c, added, [], true))) <==> |Hashes(added)| < |indexed|
  {
    UpdatedLive(c, added, [], true);
    assert added + [] == added;
    NoneOf();
    assert {} + Hashes([]) == {};
    WithoutNothing(added);
    AllHeadsAreAll(indexed, added);
    assert forall h :: h in Hashes(Live(c)) <==> h in Live(c);
    if |Hashes(added)| < |indexed| {
      var rest := indexed - Hashes(added);
      assert Hashes(added) <= indexed;
      assert |rest| == |indexed| - |Hashes(added)|;
      var h :| h in rest;
      assert h in Live(c) && h !in added;
    }
  }

  // ---------- The cache ----------

  class HeadsCache {
    var store: Store
    var headsPathCounter: nat
    var lastHeadsPath: Option<Path>
    var lastHeadsCount: nat
    var lastRemovedHeadsPath: Option<Path>
    var lastRemovedHeadsCount: nat
    var loaded: bool
    /** Ids are drawn in increasing order: what matters is that none is drawn twice. */
    var uuid: nat

    /** What is in memory agrees with what is stored. */
    ghost predicate Agrees(): (agrees: bool)
      reads this
      ensures agrees ==> Sound(store, uuid)
    {
      && Sound(store, uuid)
      && lastHeadsPath == PointedTo(store, HeadsPath) && lastHeadsCount == |Contents().added|
      && lastRemovedHeadsPath == PointedTo(store, RemovedHeadsPath) && lastRemovedHeadsCount == |Contents().removed|
    }

    ghost predicate Valid()
      reads this
    {
      Agrees() && Lean(Contents())
    }

    ghost function Contents(): Chains
      reads this
      requires Sound(store, uuid)
    {
      Stored(store, uuid)
    }

    /** Opens the cache over what is stored. */
    constructor (stored: Store, firstUuid: nat)
      requires Sound(stored, firstUuid) && Lean(Stored(stored, firstUuid))
      ensures Valid() && store == stored && Contents() == Stored(stored, firstUuid) && !loaded
    {
      store, uuid, headsPathCounter, loaded := stored, firstUuid, 0, false;
      lastHeadsPath, lastHeadsCount, lastRemovedHeadsPath, lastRemovedHeadsCount := None, 0, None, 0;
      new;
      LoadLastHeadsPath();
    }

    method GetCachedHeadsCount(path: Option<Path>) returns (count: nat)
      requires Sound(store, uuid) && (path.Some? ==> IsChunk(store, path))
      ensures count == |Chain(store, path)|
    {
      if path.None? {
        return 0;
      }
      count := store[path.value].count;
    }

    /** Finds in the store what was in memory. */
    method LoadLastHeadsPath()
      requires Sound(store, uuid) && Lean(Contents())
      modifies this
      ensures Valid() && store == old(store) && uuid == old(uuid)
      ensures loaded == old(loaded) && headsPathCounter == old(headsPathCounter)
    {
      lastHeadsPath := PointedTo(store, HeadsPath);
      lastRemovedHeadsPath := PointedTo(store, RemovedHeadsPath);
      lastHeadsCount := GetCachedHeadsCount(lastHeadsPath);
      lastRemovedHeadsCount := GetCachedHeadsCount(lastRemovedHeadsPath);
    }

    method Close()
      modifies this
      ensures store == old(store) && uuid == old(uuid) && headsPathCounter == old(headsPathCounter)
      ensures !loaded && lastHeadsPath == None == lastRemovedHeadsPath && lastHeadsCount == 0 == lastRemovedHeadsCount
    {
      loaded := false;
      lastHeadsPath, lastRemovedHeadsPath := None, None;
      lastRemovedHeadsCount, lastHeadsCount := 0, 0;
    }

    method Load() returns (heads: seq<Hash>)
      requires Sound(store, uuid) && Lean(Contents())
      modifies this
      ensures Valid() && store == old(store) && uuid == old(uuid) && headsPathCounter == old(headsPathCounter)
      ensures loaded && heads == Live(Contents())
    {
      LoadLastHeadsPath();
      heads := GetCachedHeads();
      loaded := true;
    }

    /** A restart restores the paths and the counters, and the heads. */
    method Restart() returns (heads: seq<Hash>)
      requires Valid()
      modifies this
      ensures Valid() && heads == old(Live(Contents())) && Contents() == old(Contents()) && store == old(store)
              && loaded
      ensures lastHeadsPath == old(lastHeadsPath) && lastHeadsCount == old(lastHeadsCount)
      ensures lastRemovedHeadsPath == old(lastRemovedHeadsPath) && lastRemovedHeadsCount == old(lastRemovedHeadsCount)
    {
      Close();
      heads := Load();
    }

    /** Reads a chain, leaving out what is in `filter`. */
    method GetHashes(start: Option<Path>, filter: set<Hash>) returns (result: seq<Hash>)
      requires Linked(store) && (start.Some? ==> IsChunk(store, start))
      ensures result == Without(Chain(store, start), filter)
    {
      hide Linked, Chain, Without;
      result := [];
      var next := start;
      while next.Some?
        invariant next.Some? ==> IsChunk(store, next)
        invariant result + Without(Chain(store, next), filter) == Without(Chain(store, start), filter)
        decreases if next.Some? then next.value.uuid + 1 else 0
      {
        ChainStep(store, next);
        var cache := store[next.value];
        WithoutAppend(cache.heads, Chain(store, cache.last), filter);
        ghost var before, rest := result, Chain(store, cache.last);
        next := cache.last;
        WithoutSteps(cache.heads, filter);
        for i := 0 to |cache.heads|
          invariant result == before + Without(cache.heads[..i], filter)
        {
          WithoutStep(cache.heads, i, filter);
          if cache.heads[i] !in filter {
            result := result + [cache.heads[i]];
          }
        }
      }
      ChainStep(store, None);
      WithoutSteps([], filter);
    }

    static lemma WithoutSteps(s: seq<Hash>, filter: set<Hash>)
      ensures Without(s[..0], filter) == [] && s[..|s|] == s && Without([], filter) == []
    {
    }

    static lemma WithoutStep(s: seq<Hash>, i: nat, filter: set<Hash>)
      requires i < |s|
      ensures Without(s[..i + 1], filter) == Without(s[..i], filter) + if s[i] in filter then [] else [s[i]]
    {
      assert s[..i + 1] == s[..i] + [s[i]];
      WithoutAppend(s[..i], [s[i]], filter);
    }

    static lemma ChainStep(store: Store, p: Option<Path>)
      requires Linked(store) && (p.Some? ==> IsChunk(store, p))
      ensures p.None? ==> Chain(store, p) == []
      ensures p.Some? ==>
                && store[p.value].Chunk? && Linked(store)
                && (store[p.value].last.Some? ==>
                      IsChunk(store, store[p.value].last) && store[p.value].last.value.uuid < p.value.uuid)
                && Chain(store, p) == store[p.value].heads + Chain(store, store[p.value].last)
    {
    }

    method GetCachedHeads() returns (heads: seq<Hash>)
      requires Agrees()
      ensures heads == Live(Contents())
    {
      var removedHeads := GetHashes(lastRemovedHeadsPath, {});
      WithoutNothing(Contents().removed);
      heads := GetHashes(lastHeadsPath, Hashes(removedHeads));
    }

    method UpdateHashes(base: Path, last: Option<Path>, lastCounter: nat, hashes: seq<Hash>)
      returns (counter: nat, newPath: Path)
      requires Sound(store, uuid) && !base.ChunkPath? && |hashes| > 0
      requires last == PointedTo(store, base) && lastCounter == |Chain(store, last)|
      modifies `store, `uuid
      ensures Sound(store, uuid) && PointedTo(store, base) == Some(newPath) && counter == lastCounter + |hashes|
      ensures PointedTo(store, Other(base)) == old(PointedTo(store, Other(base)))
      ensures Contents() == if base == HeadsPath then Chains(hashes + old(Contents()).added, old(Contents()).removed)
                            else Chains(old(Contents()).added, hashes + old(Contents()).removed)
    {
      newPath := ChunkPath(base == RemovedHeadsPath, headsPathCounter, uuid);
      counter := lastCounter + |hashes|;
      PushedChain(store, uuid, base, newPath, hashes, counter, last);
      store := Pushed(store, base, newPath, hashes, counter, last);
      uuid := uuid + 1;
    }

    /** Whether an update starts the cache again. */
    static predicate Resets(loaded: bool, indexed: set<Hash>, added: Option<seq<Hash>>, reset: Option<bool>) {
      if reset.None? && added.Some? then AllHeads(loaded, indexed, added.value) else reset == Some(true)
    }

    method CheckResets(added: Option<seq<Hash>>, reset: Option<bool>, indexed: set<Hash>) returns (resets: bool)
      ensures resets == Resets(loaded, indexed, added, reset)
      ensures resets <==>
              || reset == Some(true)
              || (&& reset.None? && added.Some? && loaded && |indexed| <= |added.value|
                  && forall h :: h in added.value ==> h in indexed)
    {
      resets := reset == Some(true);
      if reset.None? && added.Some? {
        if loaded && |indexed| <= |added.value| {
          var addedIsAllHeads := true;
          for i := 0 to |added.value|
            invariant addedIsAllHeads <==> forall h :: h in added.value[..i] ==> h in indexed
          {
            if added.value[i] !in indexed {
              addedIsAllHeads := false;
            }
          }
          assert added.value[..|added.value|] == added.value;
          resets := addedIsAllHeads;
        } else {
          resets := false;
        }
      }
    }

    method Clear()
      modifies this
      ensures Valid() && Contents() == Chains([], []) && loaded == old(loaded)
    {
      store := map[];
      lastHeadsPath, lastRemovedHeadsPath, lastHeadsCount, lastRemovedHeadsCount := None, None, 0, 0;
      headsPathCounter := headsPathCounter + 1;
    }

    method AddHeads(hashes: seq<Hash>)
      requires Agrees() && |hashes| > 0
      modifies this
      ensures Agrees() && loaded == old(loaded)
      ensures Contents() == Chains(hashes + old(Contents()).added, old(Contents()).removed)
    {
      hide Sound, Stored, Chain, PointedTo;
      EmptyChains(store, uuid);
      var counter, path := UpdateHashes(HeadsPath, lastHeadsPath, lastHeadsCount, hashes);
      lastHeadsPath, lastHeadsCount := Some(path), counter;
    }

    method AddRemovedHeads(hashes: seq<Hash>)
      requires Agrees() && |hashes| > 0
      modifies this
      ensures Agrees() && loaded == old(loaded)
      ensures Contents() == Chains(old(Contents()).added, hashes + old(Contents()).removed)
    {
      hide Sound, Stored, Chain, PointedTo;
      EmptyChains(store, uuid);
      var counter, path := UpdateHashes(RemovedHeadsPath, lastRemovedHeadsPath, lastRemovedHeadsCount, hashes);
      lastRemovedHeadsPath, lastRemovedHeadsCount := Some(path), counter;
    }

    lemma InMemory()
      requires Agrees()
      ensures lastHeadsPath.Some? <==> |Contents().added| > 0
      ensures lastHeadsCount == |Contents().added| && lastRemovedHeadsCount == |Contents().removed|
    {
      EmptyChains(store, uuid);
    }

    /** Updates the chains. The cache starts again if it is told to; or, if nothing is said and it has been
        loaded, if all that is added are heads of the index, and as many at least. Then none but these are
        listed; else all that have been listed stay, but for those removed. */
    method UpdateCachedHeads(added: Option<seq<Hash>>, removed: Option<seq<Hash>>, reset: Option<bool>,
                             indexed: set<Hash>)
      requires Agrees() && (Lean(Contents()) || reset == Some(true))
      modifies this
      ensures Valid() && loaded == old(loaded)
      ensures Contents() == Updated(old(Contents()), Or(added), Or(removed), Resets(old(loaded), indexed, added, reset))
      ensures old(Lean(Contents())) ==>
                var again := || reset == Some(true)
                             || (&& reset.None? && added.Some? && old(loaded) && |indexed| <= |added.value|
                                 && forall h :: h in added.value ==> h in indexed);
                Carries(old(Contents()), Contents(), Or(added), Or(removed), again)
      decreases |Or(removed)|
    {
      hide Sound, Stored, Live, Agrees, AllHeads, Carries;
      var resets := CheckResets(added, reset, indexed);
      UpdatedMeans(Contents(), Or(added), Or(removed), resets);
      if resets {
        Clear();
      }
      if added.Some? && |added.value| > 0 {
        AddHeads(added.value);
      }
      InMemory();
      assert Contents().added == Or(added) + (if resets then [] else old(Contents()).added);
      if lastHeadsPath.Some? {
        if removed.Some? && |removed.value| > 0 {
          AddRemovedHeads(removed.value);
          InMemory();
          if lastRemovedHeadsCount > 0 && 2 * lastRemovedHeadsCount >= lastHeadsCount {
            var resetToHeads := GetCachedHeads();
            UpdateCachedHeads(Some(resetToHeads), Some([]), Some(true), indexed);
          }
        }
      }
    }

    static function Or(s: Option<seq<Hash>>): seq<Hash> {
      if s.Some? then s.value else []
    }
  }

  /** What a cache is asked to do, while the index has certain heads. */
  datatype Call = Call(added: Option<seq<Hash>>, removed: Option<seq<Hash>>, reset: Option<bool>, indexed: set<Hash>)

  /** The updates that a run of calls comes to, if the cache is loaded after each of them. */
  function Updates(calls: seq<Call>): (us: seq<Update>)
    ensures |us| == |calls|
  {
    seq(|calls|, i requires 0 <= i < |calls| =>
      Update(HeadsCache.Or(calls[i].added), HeadsCache.Or(calls[i].removed),
             HeadsCache.Resets(i > 0, calls[i].indexed, calls[i].added, calls[i].reset)))
  }

  /** A new cache, after a run of calls, also such as make it start again of itself, and a restart
      after each of them. */
  method Replay(calls: seq<Call>) returns (heads: seq<Hash>, stored: nat)
    ensures NoneAgain(Updates(calls)) ==> heads == ListAfter(Updates(calls))
    ensures AddsOnce(Updates(calls)) ==> stored < 3 * |heads| || stored == 0
  {
    EmptyStore();
    ghost var us := Updates(calls);
    var cache := new HeadsCache(map[], 0);
    heads := [];
    for i := 0 to |calls|
      invariant cache.Valid() && fresh(cache) && cache.loaded == (i > 0)
      invariant cache.Contents() == ChainsAfter(us[..i])
    {
      assert us[..i + 1][..i] == us[..i];
      cache.UpdateCachedHeads(calls[i].added, calls[i].removed, calls[i].reset, calls[i].indexed);
      heads := cache.Restart();
    }
    assert us[..|us|] == us;
    if NoneAgain(us) {
      RunIsExact(us);
    }
    if AddsOnce(us) {
      RunIsBounded(us);
    }
    heads := cache.GetCachedHeads();
    stored := cache.lastHeadsCount + cache.lastRemovedHeadsCount;
  }

  lemma EmptyStore()
    ensures Sound(map[], 0) && Stored(map[], 0) == Chains([], [])
  {
  }
}
