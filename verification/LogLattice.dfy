/** What joins come to: the logs without cuts form a semilattice. */
module LogLattices {
  import opened LogEntries
  import opened EntryIndexes
  import opened LogJoins
  import opened Logs

  /** The index holds entries of `u` with all their ancestors, and its heads are exactly those that
      none of them points to. */
  ghost predicate IsCanonical(u: map<Hash, Entry>, ix: Index) {
    ix.Keys <= u.Keys && Closed(u, ix.Keys) && ix == Canonical(u, ix.Keys)
  }

  /** The old index united with the ancestors of what is joined. */
  ghost function JoinOf(u: map<Hash, Entry>, ix: Index, hs: set<Hash>): Index
    requires Universe(u) && hs <= u.Keys && ix.Keys <= u.Keys
  {
    AncestorsOfExist(u, hs);
    Canonical(u, ix.Keys + AncestorsOf(u, hs))
  }

  lemma AncestorsOfExist(u: map<Hash, Entry>, hs: set<Hash>)
    requires Universe(u) && hs <= u.Keys
    ensures AncestorsOf(u, hs) <= u.Keys
  {
    forall h | h in hs
      ensures Ancestors(u, h) <= u.Keys
    {
      AncestorsExist(u, h);
    }
  }

  lemma AncestorsOfClosed(u: map<Hash, Entry>, hs: set<Hash>)
    requires Universe(u) && hs <= u.Keys
    ensures Closed(u, AncestorsOf(u, hs))
  {
    forall a, n | a in AncestorsOf(u, hs) && a in u && n in u[a].next
      ensures n in AncestorsOf(u, hs)
    {
      var h :| h in hs && a in Ancestors(u, h);
      AncestorsClosed(u, h, a);
      NextBelow(u, a, n);
    }
  }

  lemma CanonicalHolds(u: map<Hash, Entry>, ix: Index)
    ensures IsCanonical(u, ix) <==> Holds(u, ix) && Flags(u, ix, {})
  {
    if IsCanonical(u, ix) {
      CanonicalFlags(u, ix.Keys);
    }
    if Holds(u, ix) && Flags(u, ix, {}) {
      FlagsAreCanonical(u, ix);
    }
  }

  lemma JoinIsCanonical(u: map<Hash, Entry>, ix: Index, hs: set<Hash>)
    requires Universe(u) && hs <= u.Keys && IsCanonical(u, ix)
    ensures IsCanonical(u, JoinOf(u, ix, hs)) && JoinOf(u, ix, hs).Keys == ix.Keys + AncestorsOf(u, hs)
  {
    hide AncestorsOf;
    AncestorsOfExist(u, hs);
    AncestorsOfClosed(u, hs);
    CanonicalFlags(u, ix.Keys + AncestorsOf(u, hs));
  }

  /** A join that succeeds yields the union, even if earlier attempts to join the same entries have
      failed half way: it gives back every head flag that those have left out. */
  lemma SuccessIsJoin(u: map<Hash, Entry>, ix: Index, store: set<Hash>, js: seq<Joinable>, pending: set<Hash>,
                      ix': Index)
    requires Universe(u) && Holds(u, ix) && Flags(u, ix, pending) && JoinOutcome(u, ix, store, js, pending, ix', Ok)
    requires pending <= Inner(u, HashesOf(js))
    ensures ix.Keys <= u.Keys && ix' == JoinOf(u, ix, HashesOf(js)) && IsCanonical(u, ix')
  {
    hide HashesOf, AncestorsOf, Inner, Holds, Flags;
    assert pending - Inner(u, HashesOf(js)) == {};
    CanonicalHolds(u, ix');
    AncestorsOfExist(u, HashesOf(js));
  }

  /** A join that fails and is then repeated until it succeeds comes to what it would have come to at once. */
  lemma FailureIsHealed(u: map<Hash, Entry>, ix: Index, store: set<Hash>, js: seq<Joinable>, ix': Index, m: Hash,
                        store': set<Hash>, ix'': Index)
    requires Universe(u) && IsCanonical(u, ix) && JoinOutcome(u, ix, store, js, {}, ix', MissingEntry(m))
    requires HashesOf(js) <= u.Keys && JoinOutcome(u, ix', store', js, Inner(u, HashesOf(js)), ix'', Ok)
    ensures ix.Keys <= u.Keys && ix'' == JoinOf(u, ix, HashesOf(js))
  {
    hide HashesOf, AncestorsOf, Inner, Closed;
    var hs := HashesOf(js);
    CanonicalHolds(u, ix);
    FlagsMore(u, ix, {}, Inner(u, hs));
    assert {} + Inner(u, hs) == Inner(u, hs);
    hide Flags, Canonical;
    SuccessIsJoin(u, ix', store', js, Inner(u, hs), ix'');
    assert ix'.Keys + AncestorsOf(u, hs) == ix.Keys + AncestorsOf(u, hs);
  }

  /** Joins commute, and are idempotent; joining one after the other is joining all at once. */
  lemma JoinLaws(u: map<Hash, Entry>, ix: Index, hs: set<Hash>, hs': set<Hash>)
    requires Universe(u) && hs <= u.Keys && hs' <= u.Keys && IsCanonical(u, ix)
    ensures JoinOf(u, ix, hs).Keys <= u.Keys && JoinOf(u, ix, hs').Keys <= u.Keys
    ensures JoinOf(u, JoinOf(u, ix, hs), hs') == JoinOf(u, ix, hs + hs') == JoinOf(u, JoinOf(u, ix, hs'), hs)
    ensures JoinOf(u, JoinOf(u, ix, hs), hs) == JoinOf(u, ix, hs)
    ensures hs <= ix.Keys ==> JoinOf(u, ix, hs) == ix
  {
    hide AncestorsOf, Canonical, Closed;
    JoinIsCanonical(u, ix, hs);
    JoinIsCanonical(u, ix, hs');
    AncestorsOfUnion(u, hs, hs');
    AncestorsOfExist(u, hs);
    AncestorsOfExist(u, hs');
    var a, a', k := AncestorsOf(u, hs), AncestorsOf(u, hs'), ix.Keys;
    assert k + a + a' == k + (a + a') == k + a' + a;
    assert k + a + a == k + a;
    if hs <= ix.Keys {
      ClosedHasAncestorsOf(u, k, hs);
      assert k + a == k;
    }
  }

  ghost function HeadsIn(ix: Index): set<Hash> {
    set h | h in ix && ix[h].head
  }

  lemma {:induction false} HeadAbove(u: map<Hash, Entry>, ix: Index, k: Hash) returns (h: Hash)
    requires Universe(u) && IsCanonical(u, ix) && k in ix
    ensures h in HeadsIn(ix) && k in Ancestors(u, h)
    decreases |Later(u, ix.Keys, k)|
  {
    if ix[k].head {
      h := k;
    } else {
      var x :| x in ix && x in u && k in u[x].next;
      assert Before(u[k].time, u[x].time);
      LaterLess(u, ix.Keys, k, x);
      h := HeadAbove(u, ix, x);
      AncestorsClosed(u, h, x);
      NextBelow(u, x, k);
    }
  }

  lemma HeadsKnown(u: map<Hash, Entry>, ix: Index)
    requires IsCanonical(u, ix)
    ensures HeadsIn(ix) <= ix.Keys <= u.Keys
  {
  }

  lemma HeadsReach(u: map<Hash, Entry>, ix: Index)
    requires Universe(u) && IsCanonical(u, ix) && HeadsIn(ix) <= ix.Keys <= u.Keys
    ensures AncestorsOf(u, HeadsIn(ix)) == ix.Keys
  {
    hide Canonical, HeadsIn, Ancestors;
    ClosedHasAncestorsOf(u, ix.Keys, HeadsIn(ix));
    forall k | k in ix
      ensures k in AncestorsOf(u, HeadsIn(ix))
    {
      var h := HeadAbove(u, ix, k);
    }
  }

  /** To join the heads of another log is to unite the two: every entry is an ancestor of a head. */
  lemma HeadsSuffice(u: map<Hash, Entry>, ix: Index, other: Index)
    requires Universe(u) && IsCanonical(u, ix) && IsCanonical(u, other)
    ensures HeadsIn(other) <= u.Keys && ix.Keys + other.Keys <= u.Keys
    ensures JoinOf(u, ix, HeadsIn(other)) == Canonical(u, ix.Keys + other.Keys)
  {
    hide HeadsIn, Universe, Canonical, Ancestors, AncestorsOf, Closed;
    HeadsKnown(u, ix);
    HeadsKnown(u, other);
    HeadsReach(u, other);
  }

  /** An entry that points to all heads becomes the one head. */
  lemma AppendIsOneHead(u: map<Hash, Entry>, ix: Index, h: Hash)
    requires Universe(u) && IsCanonical(u, ix) && h in u && h !in ix && u[h].kind.APPEND?
    requires Hashes(u[h].next) == HeadsIn(ix)
    ensures IsCanonical(u, Put(ix, u[h], true)) && HeadsIn(Put(ix, u[h], true)) == {h}
    ensures Put(ix, u[h], true).Keys == ix.Keys + {h}
  {
    CanonicalHolds(u, ix);
    assert forall n :: n in u[h].next ==> n in HeadsIn(ix);
    PutFlags(u, ix, {}, h, true);
    CanonicalHolds(u, Put(ix, u[h], true));
    forall x | x in Put(ix, u[h], true)
      ensures Put(ix, u[h], true)[x].head <==> x == h
    {
      NotItself(u, h);
      PutRecord(ix, u[h], true, x);
      assert x in ix && ix[x].head ==> x in Hashes(u[h].next);
    }
  }

  lemma NotItself(u: map<Hash, Entry>, h: Hash)
    requires Universe(u) && h in u
    ensures h !in u[h].next
  {
  }

  lemma CanonicalIsKnown(u: map<Hash, Entry>, ix: Index)
    requires IsCanonical(u, ix)
    ensures EntriesOf(u, ix)
  {
  }

  /** Appending an entry made on the heads of the log: it becomes the one head. */
  method Append(log: Log, entry: Entry, ghost u: map<Hash, Entry>)
    requires log.entryIndex.Valid() && Universe(u) && entry.hash in u && u[entry.hash] == entry && entry.kind.APPEND?
    requires IsCanonical(u, log.entryIndex.index) && BlocksOf(u, log.entryIndex.store)
    requires entry.hash !in log.entryIndex.index && Hashes(entry.next) == HeadsIn(log.entryIndex.index)
    modifies log.entryIndex
    ensures log.entryIndex.Valid() && BlocksOf(u, log.entryIndex.store)
    ensures IsCanonical(u, log.entryIndex.index) && HeadsIn(log.entryIndex.index) == {entry.hash}
    ensures log.entryIndex.index.Keys == old(log.entryIndex.index.Keys) + {entry.hash}
    ensures log.entryIndex.length == old(log.entryIndex.length) + 1
  {
    hide HeadsIn, Universe, BlocksOf, EntriesOf, IsCanonical, Put, Hashes, HeadsFree;
    AppendIsOneHead(u, log.entryIndex.index, entry.hash);
    PutSize(log.entryIndex.index, entry, true);
    CanonicalIsKnown(u, log.entryIndex.index);
    log.PutAndProcess(entry, true, true, u);
  }

  /** Two replicas that join the same in different orders, and find all they need, end up equal. */
  method JoinInAnyOrder(x: Log, y: Log, js: seq<Joinable>, js': seq<Joinable>, ghost u: map<Hash, Entry>)
    returns (all: bool)
    requires x.entryIndex != y.entryIndex && x.entryIndex.Valid() && y.entryIndex.Valid()
    requires Universe(u) && AppendOnly(u) && KnownInputs(u, js) && KnownInputs(u, js')
    requires IsCanonical(u, x.entryIndex.index) && y.entryIndex.index == x.entryIndex.index
    requires BlocksOf(u, x.entryIndex.store) && BlocksOf(u, y.entryIndex.store)
    modifies x.entryIndex, y.entryIndex
    ensures all ==> x.entryIndex.index == y.entryIndex.index && IsCanonical(u, x.entryIndex.index)
    ensures all ==> x.entryIndex.index.Keys ==
                    old(x.entryIndex.index.Keys) + AncestorsOf(u, Present(u, HashesOf(js) + HashesOf(js')))
  {
    hide HashesOf, AncestorsOf, Canonical, Closed, Universe, AppendOnly, KnownInputs, BlocksOf, Holds, Flags,
         JoinOutcome;
    ghost var ix := x.entryIndex.index;
    all := JoinBoth(x, js, js', u);
    if all {
      all := JoinBoth(y, js', js, u);
      if all {
        var hs, hs' := HashesOf(js), HashesOf(js');
        assert hs + hs' == hs' + hs;
        assert Present(u, hs + hs') == hs + hs';
        JoinIsCanonical(u, ix, hs + hs');
      }
    }
  }

  ghost function Present(u: map<Hash, Entry>, hs: set<Hash>): (r: set<Hash>)
    ensures r <= u.Keys
  {
    hs * u.Keys
  }

  method JoinBoth(x: Log, js: seq<Joinable>, js': seq<Joinable>, ghost u: map<Hash, Entry>) returns (all: bool)
    requires x.entryIndex.Valid() && Universe(u) && AppendOnly(u) && KnownInputs(u, js) && KnownInputs(u, js')
    requires IsCanonical(u, x.entryIndex.index) && BlocksOf(u, x.entryIndex.store)
    modifies x.entryIndex
    ensures all ==> HashesOf(js) + HashesOf(js') <= u.Keys
    ensures all ==> x.entryIndex.index == JoinOf(u, old(x.entryIndex.index), HashesOf(js) + HashesOf(js'))
  {
    hide HashesOf, AncestorsOf, Canonical, Closed, Universe, AppendOnly, KnownInputs, BlocksOf;
    ghost var ix := x.entryIndex.index;
    CanonicalHolds(u, ix);
    var r, turns, stores := x.Join(js, u, {});
    if r != Ok {
      return false;
    }
    SuccessIsJoin(u, ix, {}, js, {}, x.entryIndex.index);
    ghost var ix' := x.entryIndex.index;
    CanonicalHolds(u, ix');
    r, turns, stores := x.Join(js', u, {});
    if r != Ok {
      return false;
    }
    SuccessIsJoin(u, ix', {}, js', {}, x.entryIndex.index);
    JoinLaws(u, ix, HashesOf(js), HashesOf(js'));
    all := true;
  }
}
