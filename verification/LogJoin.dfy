/** Joining entries into a log. */
module LogJoins {
  import opened LogEntries
  import opened EntryIndexes

  datatype Result = Ok | MissingEntry(hash: Hash)

  // ---------- The canonical index of a set of entries ----------

  /** The index that holds the entries `keys`, with exactly those as heads that none of them points to. */
  ghost function Canonical(u: map<Hash, Entry>, keys: set<Hash>): Index
    requires keys <= u.Keys
  {
    map h | h in keys :: ShallowEntry(u[h], !Referenced(u, keys, h))
  }

  /** The index holds entries of `u`, with each all it points to. */
  ghost predicate Holds(u: map<Hash, Entry>, ix: Index) {
    && (forall h :: h in ix ==> h in u && ix[h].entry == u[h])
    && Closed(u, ix.Keys)
  }

  /** The head flags are right, except that entries of `pending` may yet lack the flag. */
  ghost predicate Flags(u: map<Hash, Entry>, ix: Index, pending: set<Hash>) {
    forall h :: h in ix ==>
      && (ix[h].head ==> !Referenced(u, ix.Keys, h))
      && (!ix[h].head && h !in pending ==> Referenced(u, ix.Keys, h))
  }

  lemma FlagsAreCanonical(u: map<Hash, Entry>, ix: Index)
    requires Holds(u, ix) && Flags(u, ix, {})
    ensures ix.Keys <= u.Keys && ix == Canonical(u, ix.Keys)
  {
    assert ix.Keys <= u.Keys;
    var c := Canonical(u, ix.Keys);
    assert c.Keys == ix.Keys;
    forall h | h in ix
      ensures ix[h] == c[h]
    {
    }
  }

  lemma CanonicalFlags(u: map<Hash, Entry>, keys: set<Hash>)
    requires keys <= u.Keys && Closed(u, keys)
    ensures Holds(u, Canonical(u, keys)) && Flags(u, Canonical(u, keys), {}) && Canonical(u, keys).Keys == keys
  {
    assert Canonical(u, keys).Keys == keys;
  }

  lemma FlagsMore(u: map<Hash, Entry>, ix: Index, pending: set<Hash>, pending': set<Hash>)
    requires Flags(u, ix, pending) && pending <= pending'
    ensures Flags(u, ix, pending')
  {
  }

  /** What is pointed to need not be pending. */
  lemma FlagsSettled(u: map<Hash, Entry>, ix: Index, pending: set<Hash>, settled: set<Hash>)
    requires Flags(u, ix, pending)
    requires forall h :: h in settled ==> Referenced(u, ix.Keys, h)
    ensures Flags(u, ix, pending - settled)
  {
  }

  lemma ReferencedAfter(u: map<Hash, Entry>, keys: set<Hash>, h: Hash, x: Hash)
    requires h in u
    ensures Referenced(u, keys + {h}, x) <==> Referenced(u, keys, x) || x in u[h].next
  {
  }

  /** Putting an entry all of whose `next` are there: they lose their flags, and it is what `isHead` says. */
  lemma PutFlags(u: map<Hash, Entry>, ix: Index, pending: set<Hash>, h: Hash, isHead: bool)
    requires Universe(u) && h in u && u[h].kind.APPEND? && h !in ix
    requires Holds(u, ix) && Flags(u, ix, pending)
    requires forall n :: n in u[h].next ==> n in ix
    ensures var ix' := Put(ix, u[h], isHead);
            && ix'.Keys == ix.Keys + {h}
            && Holds(u, ix') && Flags(u, ix', if isHead then pending else pending + {h})
            && forall n :: n in u[h].next ==> Referenced(u, ix'.Keys, n)
  {
    var ix' := Put(ix, u[h], isHead);
    PutSize(ix, u[h], isHead);
    assert !Referenced(u, ix.Keys, h);
    forall x | x in ix'
      ensures x in u && ix'[x].entry == u[x]
      ensures ix'[x].head ==> !Referenced(u, ix'.Keys, x)
      ensures !ix'[x].head && x !in (if isHead then pending else pending + {h}) ==> Referenced(u, ix'.Keys, x)
    {
      PutRecord(ix, u[h], isHead, x);
      ReferencedAfter(u, ix.Keys, h, x);
    }
    forall n | n in u[h].next
      ensures Referenced(u, ix'.Keys, n)
    {
      ReferencedAfter(u, ix.Keys, h, n);
    }
  }

  // ---------- The join ----------

  /** `v` is a head of the same graph that is a later cut of `entry`. */
  predicate IsCutBy(ix: Index, entry: Entry, v: Hash) {
    && v in ix && ix[v].head && ix[v].entry.gid == entry.gid
    && ix[v].entry.kind.CUT? && entry.hash in ix[v].entry.next && Before(entry.time, ix[v].entry.time)
  }

  predicate AlreadyCut(ix: Index, entry: Entry) {
    exists v :: v in ix && IsCutBy(ix, entry, v)
  }

  /** `ix` has become `ix'` by a join of the entries `more`, all of them or, if `whole` does not
      hold, some. */
  ghost predicate Joined(u: map<Hash, Entry>, ix: Index, ix': Index, more: set<Hash>, pending: set<Hash>, whole: bool) {
    && Holds(u, ix') && Flags(u, ix', pending)
    && ix.Keys <= ix'.Keys <= ix.Keys + more
    && (whole ==> ix'.Keys == ix.Keys + more)
  }

  lemma NothingJoined(u: map<Hash, Entry>, ix: Index, pending: set<Hash>)
    requires Holds(u, ix) && Flags(u, ix, pending)
    ensures Joined(u, ix, ix, {}, pending, true)
  {
  }

  lemma JoinedTwice(u: map<Hash, Entry>, ix: Index, ix': Index, ix'': Index,
                    more: set<Hash>, more': set<Hash>, pending: set<Hash>, pending': set<Hash>, whole: bool)
    requires Joined(u, ix, ix', more, pending, true) && Joined(u, ix', ix'', more', pending', whole)
    ensures Joined(u, ix, ix'', more + more', pending', whole)
  {
  }

  lemma JoinedMore(u: map<Hash, Entry>, ix: Index, ix': Index, more: set<Hash>, more': set<Hash>,
                   pending: set<Hash>, pending': set<Hash>, whole: bool)
    requires Joined(u, ix, ix', more, pending, whole) && pending <= pending'
    requires more <= more' && (whole ==> more' <= more + ix.Keys)
    ensures Joined(u, ix, ix', more', pending', whole)
  {
    FlagsMore(u, ix', pending, pending');
  }

  /** An entry that is there already: so is all it points to. */
  lemma JoinedBefore(u: map<Hash, Entry>, ix: Index, h: Hash, pending: set<Hash>)
    requires Universe(u) && Holds(u, ix) && Flags(u, ix, pending) && h in ix
    ensures Joined(u, ix, ix, Ancestors(u, h), pending, true)
  {
    ClosedHasAncestors(u, ix.Keys, h);
  }

  /** An entry put once all it points to has been joined. */
  lemma PutJoined(u: map<Hash, Entry>, ix: Index, ix': Index, h: Hash, pending: set<Hash>, isHead: bool)
    requires Universe(u) && h in u && u[h].kind.APPEND? && h !in ix && Hashes(u[h].next) <= u.Keys
    requires Joined(u, ix, ix', AncestorsOf(u, Hashes(u[h].next)), pending + Hashes(u[h].next), true)
    ensures Joined(u, ix, Put(ix', u[h], isHead), Ancestors(u, h), if isHead then pending else pending + {h}, true)
  {
    hide Put, Flags, Holds, Referenced, Ancestors, AncestorsOf, Universe;
    var next := Hashes(u[h].next);
    var p := if isHead then pending + next else pending + next + {h};
    OwnAncestors(u, next);
    NotBelow(u, h);
    PutFlags(u, ix', pending + next, h, isHead);
    var ix'' := Put(ix', u[h], isHead);
    FlagsSettled(u, ix'', p, next);
    FlagsMore(u, ix'', p - next, if isHead then pending else pending + {h});
    AncestorsByNext(u, h);
  }

  lemma NotBelow(u: map<Hash, Entry>, h: Hash)
    requires Universe(u) && h in u && Hashes(u[h].next) <= u.Keys
    ensures h !in AncestorsOf(u, Hashes(u[h].next))
  {
    forall n | n in u[h].next
      ensures h !in Ancestors(u, n)
    {
      AncestorsExist(u, n);
    }
  }

  lemma NeverCut(ok: bool, u: map<Hash, Entry>, ix: Index, entry: Entry)
    requires entry.hash in u && u[entry.hash] == entry && (ok ==> AppendOnly(u) && Holds(u, ix))
    ensures ok ==> entry.kind.APPEND? && !AlreadyCut(ix, entry)
  {
  }

  /** A cut is remembered only while it is a head: once another entry has been put, exactly if some
      head that is such a cut is not pointed to by the new entry. */
  lemma CutIsForgotten(ix: Index, a: Entry, later: Entry, isHead: bool)
    requires later.kind.APPEND? && later.hash !in ix && later.hash !in later.next
    ensures AlreadyCut(Put(ix, later, isHead), a) <==> exists v :: v in ix && IsCutBy(ix, a, v) && v !in later.next
  {
    var ix' := Put(ix, later, isHead);
    PutSize(ix, later, isHead);
    forall v
      ensures IsCutBy(ix', a, v) <==> IsCutBy(ix, a, v) && v !in later.next
    {
      if v in ix' {
        PutRecord(ix, later, isHead, v);
      }
    }
  }

  /** One more of the entries that `h` points to has been joined. */
  lemma NextJoined(u: map<Hash, Entry>, h: Hash, i: nat, ix: Index, ix': Index, ix'': Index, pending: set<Hash>)
    requires Universe(u) && h in u && i < |u[h].next| && Hashes(u[h].next[..i]) <= u.Keys
    requires Joined(u, ix, ix', AncestorsOf(u, Hashes(u[h].next[..i])), pending + Hashes(u[h].next[..i]), true)
    requires var n := u[h].next[i]; n in u && Joined(u, ix', ix'', Ancestors(u, n),
                                                     pending + Hashes(u[h].next[..i]) + {n}, true)
    ensures Hashes(u[h].next[..i + 1]) <= u.Keys
    ensures Joined(u, ix, ix'', AncestorsOf(u, Hashes(u[h].next[..i + 1])), pending + Hashes(u[h].next[..i + 1]), true)
  {
    hide Joined, Ancestors, AncestorsOf, Universe, Hashes;
    var next, n := u[h].next[..i], u[h].next[i];
    HashesStep(u[h].next, i);
    AncestorsOfMore(u, Hashes(next), n);
    JoinedTwice(u, ix, ix', ix'', AncestorsOf(u, Hashes(next)), Ancestors(u, n),
                pending + Hashes(next), pending + Hashes(next) + {n}, true);
    assert pending + Hashes(next) + {n} == pending + (Hashes(next) + {n});
  }

  /** The join of one of the entries that `h` points to has failed. */
  lemma NextFailed(u: map<Hash, Entry>, h: Hash, i: nat, ix: Index, ix': Index, ix'': Index, pending: set<Hash>)
    requires Universe(u) && h in u && i < |u[h].next| && Hashes(u[h].next[..i]) <= u.Keys
    requires Joined(u, ix, ix', AncestorsOf(u, Hashes(u[h].next[..i])), pending + Hashes(u[h].next[..i]), true)
    requires var n := u[h].next[i]; n in u && Joined(u, ix', ix'', Ancestors(u, n),
                                                     pending + Hashes(u[h].next[..i]) + (Ancestors(u, n) - {n}), false)
    ensures Joined(u, ix, ix'', Ancestors(u, h), pending + (Ancestors(u, h) - {h}), false)
  {
    hide Joined, Ancestors, AncestorsOf, Universe;
    var next, n := Hashes(u[h].next[..i]), u[h].next[i];
    JoinedTwice(u, ix, ix', ix'', AncestorsOf(u, next), Ancestors(u, n), pending + next,
                pending + next + (Ancestors(u, n) - {n}), false);
    AncestorsByNext(u, h);
    NotBelow(u, h);
    OwnAncestors(u, next);
    AncestorsOfMore(u, next, n);
    var all := Hashes(u[h].next);
    assert next + {n} <= all;
    AncestorsOfUnion(u, next + {n}, all);
    assert next + {n} + all == all;
    JoinedMore(u, ix, ix'', AncestorsOf(u, next) + Ancestors(u, n), Ancestors(u, h),
               pending + next + (Ancestors(u, n) - {n}), pending + (Ancestors(u, h) - {h}), false);
  }

  /** What the join of `h` into `ix` may come to: all of its ancestors are there, or one of them is
      nowhere to be found, and some are there. */
  ghost predicate Outcome(u: map<Hash, Entry>, ix: Index, blocks: set<Hash>, h: Hash, isHead: bool, pending: set<Hash>,
                          ix': Index, r: Result)
    requires Universe(u) && h in u
  {
    match r
    case Ok => Joined(u, ix, ix', Ancestors(u, h), if isHead then pending else pending + {h}, true)
    case MissingEntry(m) =>
      && Joined(u, ix, ix', Ancestors(u, h), pending + (Ancestors(u, h) - {h}), false)
      && m in Ancestors(u, h) && m !in ix && m !in blocks
  }

  /** What has been joined when the first `i` entries that `h` points to have been. */
  ghost predicate JoinedNexts(u: map<Hash, Entry>, ix: Index, ix': Index, h: Hash, i: nat, pending: set<Hash>)
    requires Universe(u) && h in u && i <= |u[h].next|
  {
    && Hashes(u[h].next[..i]) <= u.Keys
    && Joined(u, ix, ix', AncestorsOf(u, Hashes(u[h].next[..i])), pending + Hashes(u[h].next[..i]), true)
  }

  lemma OutcomeBefore(u: map<Hash, Entry>, ix: Index, blocks: set<Hash>, h: Hash, isHead: bool, pending: set<Hash>)
    requires Universe(u) && h in u && h in ix && Holds(u, ix) && Flags(u, ix, pending)
    ensures Outcome(u, ix, blocks, h, isHead, pending, ix, Ok)
  {
    hide Joined, Ancestors, Universe, Holds, Flags;
    JoinedBefore(u, ix, h, pending);
    JoinedMore(u, ix, ix, Ancestors(u, h), Ancestors(u, h), pending, if isHead then pending else pending + {h}, true);
  }

  lemma NoneYet(u: map<Hash, Entry>, ix: Index, h: Hash, pending: set<Hash>)
    requires Universe(u) && h in u && Holds(u, ix) && Flags(u, ix, pending)
    ensures JoinedNexts(u, ix, ix, h, 0, pending)
  {
    hide Joined, Holds, Flags, Universe;
    NothingJoined(u, ix, pending);
    assert u[h].next[..0] == [];
    assert pending + Hashes([]) == pending;
    assert AncestorsOf(u, Hashes([])) == {};
  }

  lemma JoinedNextsHold(u: map<Hash, Entry>, ix: Index, ix': Index, h: Hash, i: nat, pending: set<Hash>)
    requires Universe(u) && h in u && i <= |u[h].next| && JoinedNexts(u, ix, ix', h, i, pending)
    ensures Holds(u, ix') && Flags(u, ix', pending + Hashes(u[h].next[..i]))
  {
  }

  /** After the next one, however that went. */
  lemma NextOutcome(u: map<Hash, Entry>, h: Hash, i: nat, ix: Index, ix': Index, ix'': Index,
                    blocks: set<Hash>, blocks': set<Hash>, pending: set<Hash>, isHead: bool, r: Result)
    requires Universe(u) && h in u && i < |u[h].next| && JoinedNexts(u, ix, ix', h, i, pending)
    requires u[h].next[i] in u && blocks <= blocks'
    requires Outcome(u, ix', blocks', u[h].next[i], false, pending + Hashes(u[h].next[..i]), ix'', r)
    ensures r.Ok? ==> JoinedNexts(u, ix, ix'', h, i + 1, pending)
    ensures r.MissingEntry? ==> Outcome(u, ix, blocks, h, isHead, pending, ix'', r)
  {
    hide Ancestors, AncestorsOf, Universe, Hashes, Holds, Flags;
    var n := u[h].next[i];
    match r
    case Ok => 
      hide Joined;
      NextJoined(u, h, i, ix, ix', ix'', pending);
    case MissingEntry(m) =>
      assert m !in ix;
      hide Joined;
      NextFailed(u, h, i, ix, ix', ix'', pending);
      NextBelow(u, h, n);
  }

  /** The index grows, and what is missing is not `h`, when the join of what `h` points to fails. */
  lemma NestedGrows(u: map<Hash, Entry>, ix: Index, blocks: set<Hash>, n: Hash, pending: set<Hash>, ix': Index,
                    r: Result, h: Hash)
    requires Universe(u) && n in u && h in u && n in u[h].next && Outcome(u, ix, blocks, n, false, pending, ix', r)
    ensures ix.Keys <= ix'.Keys && (r.MissingEntry? ==> r.hash != h)
  {
    AncestorsExist(u, n);
  }

  /** Joining what `h` points to does not put `h`. */
  lemma NotYetPut(u: map<Hash, Entry>, ix: Index, ix': Index, h: Hash, pending: set<Hash>)
    requires Universe(u) && h in u && h !in ix && JoinedNexts(u, ix, ix', h, |u[h].next|, pending)
    ensures h !in ix'
  {
    assert u[h].next[..|u[h].next|] == u[h].next;
    NotBelow(u, h);
  }

  lemma MissingOutcome(u: map<Hash, Entry>, ix: Index, blocks: set<Hash>, h: Hash, isHead: bool, pending: set<Hash>)
    requires Universe(u) && h in u && h !in ix && h !in blocks && Holds(u, ix) && Flags(u, ix, pending)
    ensures Outcome(u, ix, blocks, h, isHead, pending, ix, MissingEntry(h))
  {
    hide Joined, Universe, Holds, Flags;
    NothingJoined(u, ix, pending);
    JoinedMore(u, ix, ix, {}, Ancestors(u, h), pending, pending + (Ancestors(u, h) - {h}), false);
  }

  lemma PutOutcome(u: map<Hash, Entry>, ix: Index, ix': Index, blocks: set<Hash>, h: Hash, pending: set<Hash>,
                   isHead: bool)
    requires Universe(u) && h in u && u[h].kind.APPEND? && h !in ix
    requires JoinedNexts(u, ix, ix', h, |u[h].next|, pending)
    ensures Outcome(u, ix, blocks, h, isHead, pending, Put(ix', u[h], isHead), Ok)
  {
    assert u[h].next[..|u[h].next|] == u[h].next;
    PutJoined(u, ix, ix', h, pending, isHead);
  }

  // ---------- Joining several entries ----------

  /** What of the ancestors of `hs` another of them points to. */
  ghost function Inner(u: map<Hash, Entry>, hs: set<Hash>): set<Hash>
    requires Universe(u) && hs <= u.Keys
  {
    set a | a in AncestorsOf(u, hs) && Referenced(u, AncestorsOf(u, hs), a)
  }

  lemma InnerIs(u: map<Hash, Entry>, hs: set<Hash>, x: Hash, a: Hash)
    requires Universe(u) && hs <= u.Keys && x in AncestorsOf(u, hs) && a in AncestorsOf(u, hs)
    requires x in u && a in u[x].next
    ensures a in Inner(u, hs)
  {
    hide Universe, Ancestors, AncestorsOf;
    assert Referenced(u, AncestorsOf(u, hs), a);
  }

  lemma AncestorsOfHas(u: map<Hash, Entry>, hs: set<Hash>, h: Hash)
    requires Universe(u) && hs <= u.Keys && h in hs
    ensures Ancestors(u, h) <= AncestorsOf(u, hs)
  {
  }

  lemma InnerBelow(u: map<Hash, Entry>, hs: set<Hash>, h: Hash, a: Hash)
    requires Universe(u) && hs <= u.Keys && h in hs && a in Ancestors(u, h) && a != h
    ensures a in Inner(u, hs)
  {
    AncestorsOfHas(u, hs, h);
    AncestorsAreReferenced(u, h, a);
    hide Universe, Ancestors, AncestorsOf, Inner;
    var x :| x in Ancestors(u, h) && x in u && a in u[x].next;
    InnerIs(u, hs, x, a);
  }

  lemma InnerHas(u: map<Hash, Entry>, hs: set<Hash>, h: Hash)
    requires Universe(u) && hs <= u.Keys && h in hs
    ensures Ancestors(u, h) <= AncestorsOf(u, hs) && Ancestors(u, h) - {h} <= Inner(u, hs)
    ensures forall x :: x in hs && h in u[x].next ==> h in Inner(u, hs)
  {
    hide Universe, Ancestors, AncestorsOf, Inner;
    AncestorsOfHas(u, hs, h);
    OwnAncestors(u, hs);
    forall a | a in Ancestors(u, h) - {h}
      ensures a in Inner(u, hs)
    {
      InnerBelow(u, hs, h, a);
    }
    forall x | x in hs && h in u[x].next
      ensures h in Inner(u, hs)
    {
      InnerIs(u, hs, x, h);
    }
  }

  /** One more of the entries has been joined, as a head or as one that another of them points to. */
  lemma EntryOutcome(u: map<Hash, Entry>, hs: set<Hash>, done: set<Hash>, h: Hash, isHead: bool,
                     ix: Index, ix': Index, ix'': Index, blocks: set<Hash>, pending: set<Hash>, r: Result)
    requires Universe(u) && hs <= u.Keys && h in hs && done <= hs && (!isHead ==> h in Inner(u, hs))
    requires Joined(u, ix, ix', AncestorsOf(u, done), pending + Inner(u, hs), true)
    requires Outcome(u, ix', blocks, h, isHead, pending + Inner(u, hs), ix'', r)
    ensures r.Ok? ==> Joined(u, ix, ix'', AncestorsOf(u, done + {h}), pending + Inner(u, hs), true)
    ensures r.MissingEntry? ==>
              && Joined(u, ix, ix'', AncestorsOf(u, hs), pending + Inner(u, hs), false)
              && r.hash in AncestorsOf(u, hs) && r.hash !in ix && r.hash !in blocks
  {
    hide Ancestors, AncestorsOf, Universe, Holds, Flags, Inner;
    var p := pending + Inner(u, hs);
    InnerHas(u, hs, h);
    AncestorsOfMore(u, done, h);
    match r
    case Ok =>
      hide Joined;
      assert (if isHead then p else p + {h}) == p;
      JoinedTwice(u, ix, ix', ix'', AncestorsOf(u, done), Ancestors(u, h), p, p, true);
    case MissingEntry(m) =>
      assert m !in ix;
      hide Joined;
      assert p + (Ancestors(u, h) - {h}) == p;
      JoinedTwice(u, ix, ix', ix'', AncestorsOf(u, done), Ancestors(u, h), p, p, false);
      assert done + hs == hs;
      AncestorsOfUnion(u, done, hs);
      JoinedMore(u, ix, ix'', AncestorsOf(u, done) + Ancestors(u, h), AncestorsOf(u, hs), p, p, false);
  }

  /** All the entries have been joined: what had been left without its flag by earlier attempts to
      join them is pointed to now. */
  lemma EntriesJoined(u: map<Hash, Entry>, hs: set<Hash>, done: set<Hash>, ix: Index, ix': Index, pending: set<Hash>)
    requires Universe(u) && hs <= u.Keys && done <= hs <= done + ix.Keys && Closed(u, ix.Keys)
    requires Joined(u, ix, ix', AncestorsOf(u, done), pending + Inner(u, hs), true)
    ensures Joined(u, ix, ix', AncestorsOf(u, hs), pending - Inner(u, hs), true)
  {
    hide Ancestors, AncestorsOf, Universe, Holds, Flags, Closed;
    var before := hs - done;
    ClosedHasAncestorsOf(u, ix.Keys, before);
    AncestorsOfUnion(u, done, before);
    assert done + before == hs;
    assert AncestorsOf(u, hs) <= ix'.Keys;
    FlagsSettled(u, ix', pending + Inner(u, hs), Inner(u, hs));
    FlagsMore(u, ix', pending + Inner(u, hs) - Inner(u, hs), pending - Inner(u, hs));
  }

  lemma NoneJoined(u: map<Hash, Entry>, hs: set<Hash>, ix: Index, pending: set<Hash>)
    requires Universe(u) && hs <= u.Keys && Holds(u, ix) && Flags(u, ix, pending)
    ensures Joined(u, ix, ix, AncestorsOf(u, {}), pending + Inner(u, hs), true)
  {
    hide Flags, Holds, Universe, Inner;
    NothingJoined(u, ix, pending);
    FlagsMore(u, ix, pending, pending + Inner(u, hs));
    assert AncestorsOf(u, {}) == {};
  }

  // ---------- What a log may be asked to join ----------

  /** What a log may be asked to join: an entry that it has to find by its hash, or one that is
      handed over, perhaps with some of those it points to. */
  datatype Joinable = ByHash(hash: Hash) | ByEntry(entry: Entry) | WithReferences(entry: Entry, references: seq<Entry>)
  {
    function Of(): Hash {
      if ByHash? then hash else entry.hash
    }

    /** The entries that are handed over. */
    function Brings(): seq<Entry> {
      match this
      case ByHash(_) => []
      case ByEntry(e) => [e]
      case WithReferences(e, refs) => [e] + refs
    }
  }

  ghost function HashesOf(js: seq<Joinable>): set<Hash> {
    set j | j in js :: j.Of()
  }

  ghost function BroughtBy(js: seq<Joinable>): set<Hash> {
    set j, e | j in js && e in j.Brings() :: e.hash
  }

  /** All that is handed over exists. */
  ghost predicate KnownInputs(u: map<Hash, Entry>, js: seq<Joinable>) {
    forall j :: j in js ==> Known(u, j.Brings())
  }

  /** What a join of `js` has come to: all ancestors are there; or an entry to be found by its hash
      was not, and nothing has changed; or some ancestor was nowhere to be found. */
  ghost predicate JoinOutcome(u: map<Hash, Entry>, ix: Index, store: set<Hash>, js: seq<Joinable>, pending: set<Hash>,
                              ix': Index, r: Result)
    requires Universe(u)
  {
    var hs := HashesOf(js);
    match r
    case Ok => hs <= u.Keys && Joined(u, ix, ix', AncestorsOf(u, hs), pending - Inner(u, hs), true)
    case MissingEntry(m) =>
      && m !in ix && m !in store
      && (|| (ByHash(m) in js && ix' == ix)
          || (&& m !in BroughtBy(js) && hs <= u.Keys && m in AncestorsOf(u, hs)
              && Joined(u, ix, ix', AncestorsOf(u, hs), pending + Inner(u, hs), false)))
  }

  /** The entry that is joined for `j`, but for one that is to be found by its hash and is indexed already. */
  function Taken(ix: Index, store: map<Hash, Entry>, j: Joinable): seq<Entry> {
    if !j.ByHash? then [j.entry] else if j.hash in ix || j.hash !in store then [] else [store[j.hash]]
  }

  /** The entries that are joined for `js`. */
  function ToJoin(ix: Index, store: map<Hash, Entry>, js: seq<Joinable>): seq<Entry> {
    if |js| == 0 then [] else ToJoin(ix, store, js[..|js| - 1]) + Taken(ix, store, js[|js| - 1])
  }

  lemma {:induction false} ToJoinKnown(u: map<Hash, Entry>, ix: Index, store: map<Hash, Entry>, js: seq<Joinable>)
    requires Universe(u) && BlocksOf(u, store) && KnownInputs(u, js)
    ensures Known(u, ToJoin(ix, store, js))
  {
    if |js| > 0 {
      var j, init := js[|js| - 1], js[..|js| - 1];
      assert forall x :: x in init ==> x in js;
      ToJoinKnown(u, ix, store, init);
      assert j in js;
      assert !j.ByHash? ==> j.Brings()[0] == j.entry;
    }
  }

  /** Each of them has a block, or is handed over. */
  lemma {:induction false} ToJoinHasBlocks(u: map<Hash, Entry>, ix: Index, store: map<Hash, Entry>, js: seq<Joinable>,
                                           i: nat)
    requires Universe(u) && BlocksOf(u, store) && i < |ToJoin(ix, store, js)|
    ensures ToJoin(ix, store, js)[i].hash in store.Keys + BroughtBy(js)
  {
    var j, init := js[|js| - 1], js[..|js| - 1];
    assert j in js && forall x :: x in init ==> x in js;
    if i < |ToJoin(ix, store, init)| {
      ToJoinHasBlocks(u, ix, store, init, i);
    } else if !j.ByHash? {
      assert j.entry in j.Brings();
    }
  }

  function Unmarked(heads: map<Hash, bool>, next: seq<Hash>): map<Hash, bool> {
    if |next| == 0 then heads else Unmarked(heads, next[..|next| - 1])[next[|next| - 1] := false]
  }

  /** Which of the entries are to be heads: each that comes up first, until one comes up that points to it. */
  function Marked(es: seq<Entry>): map<Hash, bool> {
    if |es| == 0 then map[]
    else
      var heads, e := Marked(es[..|es| - 1]), es[|es| - 1];
      if e.hash in heads then heads else Unmarked(heads[e.hash := true], e.next)
  }

  predicate IsHead(es: seq<Entry>, h: Hash) {
    h in Marked(es) && Marked(es)[h]
  }

  lemma UnmarkedStep(heads: map<Hash, bool>, next: seq<Hash>, k: nat)
    requires k < |next|
    ensures Unmarked(heads, next[..k + 1]) == Unmarked(heads, next[..k])[next[k] := false]
  {
    assert next[..k + 1][..k] == next[..k];
  }

  lemma MarkedStep(es: seq<Entry>, i: nat)
    requires i < |es|
    ensures var heads, e := Marked(es[..i]), es[i];
            Marked(es[..i + 1]) == if e.hash in heads then heads else Unmarked(heads[e.hash := true], e.next)
  {
    assert es[..i + 1][..i] == es[..i];
  }

  lemma MarkedNothing(es: seq<Entry>)
    ensures Marked(es[..0]) == map[] && es[..|es|] == es
  {
  }

  lemma UnmarkedNothing(heads: map<Hash, bool>, next: seq<Hash>)
    ensures Unmarked(heads, next[..0]) == heads && next[..|next|] == next
  {
  }

  lemma {:induction false} UnmarkedHas(heads: map<Hash, bool>, next: seq<Hash>)
    ensures Unmarked(heads, next).Keys == heads.Keys + Hashes(next)
    ensures forall h :: h in Unmarked(heads, next) ==>
              Unmarked(heads, next)[h] == (h in heads && heads[h] && h !in next)
  {
    if |next| > 0 {
      UnmarkedHas(heads, next[..|next| - 1]);
      assert next == next[..|next| - 1] + [next[|next| - 1]];
    }
  }

  lemma {:induction false} MarkedPrefix(es: seq<Entry>, i: nat)
    requires i <= |es|
    ensures HeadsOf(Marked(es[..i]), es, i)
  {
    if i > 0 {
      MarkedPrefix(es, i - 1);
      var heads, e := Marked(es[..i - 1]), es[i - 1];
      assert es[..i] == es[..i - 1] + [e] && es[..i][..i - 1] == es[..i - 1];
      UnmarkedHas(heads[e.hash := true], e.next);
    }
  }

  /** An entry is said to be no head only if another of them points to it. */
  lemma MarkedAre(es: seq<Entry>)
    ensures HeadsOf(Marked(es), es, |es|)
  {
    MarkedPrefix(es, |es|);
    assert es[..|es|] == es;
  }

  ghost predicate PointsIn(es: seq<Entry>, h: Hash) {
    exists e :: e in es && h in e.next
  }

  /** What nothing points to has taken its turn, and what it points to is no head from then on. */
  lemma {:induction false} MarkedTurn(es: seq<Entry>, i: nat, e: Entry, n: Hash)
    requires i <= |es| && e in es[..i] && n in e.next && !PointsIn(es, e.hash)
    requires forall a, b :: a in es && b in es && a.hash == b.hash ==> a == b
    ensures n in Marked(es[..i]) && !Marked(es[..i])[n]
  {
    hide Marked, Unmarked;
    var heads, last := Marked(es[..i - 1]), es[i - 1];
    MarkedStep(es, i - 1);
    assert es[..i] == es[..i - 1] + [last] && last in es;
    assert forall a :: a in es[..i - 1] ==> a in es;
    UnmarkedHas(heads[last.hash := true], last.next);
    if e in es[..i - 1] {
      MarkedTurn(es, i - 1, e, n);
    } else if e.hash in heads {
      MarkedKeys(es, i - 1, e.hash);
      assert false;
    }
  }

  lemma {:induction false} MarkedKeys(es: seq<Entry>, i: nat, h: Hash)
    requires i <= |es| && h in Marked(es[..i]) && !PointsIn(es, h)
    ensures h in EntryHashes(es[..i])
  {
    hide Marked, Unmarked;
    MarkedNothing(es);
    if i > 0 {
      MarkedStep(es, i - 1);
      assert es[..i] == es[..i - 1] + [es[i - 1]] && es[i - 1] in es;
      UnmarkedHas(Marked(es[..i - 1])[es[i - 1].hash := true], es[i - 1].next);
      if h in Marked(es[..i - 1]) {
        MarkedKeys(es, i - 1, h);
      }
    }
  }

  /** An entry that nothing in the list points to is to be a head; one that such an entry points to is not. */
  lemma MarkedTops(es: seq<Entry>, e: Entry)
    requires e in es && !PointsIn(es, e.hash)
    requires forall a, b :: a in es && b in es && a.hash == b.hash ==> a == b
    ensures IsHead(es, e.hash) && forall n :: n in e.next ==> !IsHead(es, n)
  {
    MarkedAre(es);
    assert es[..|es|] == es;
    forall n | n in e.next
      ensures !IsHead(es, n)
    {
      MarkedTurn(es, |es|, e, n);
    }
  }

  /** Of what is pointed to otherwise it depends on the order: an entry that has been said to be no head does
      not take its turn, and what it points to may then be said to be one. */
  lemma MarkedByOrder(a: Entry, b: Entry, c: Entry)
    requires a.next == [] && b.next == [a.hash] && c.next == [b.hash]
    requires a.hash != b.hash && a.hash != c.hash && b.hash != c.hash
    ensures IsHead([c, b, a], a.hash) && !IsHead([a, b, c], a.hash) && PointsIn([a, b, c], a.hash)
  {
    hide Marked, Unmarked;
    MarkedInOrder(a, b, c);
    var es := [c, b, a];
    MarkedNothing(es);
    MarkedStep(es, 0);
    MarkedStep(es, 1);
    MarkedStep(es, 2);
    UnmarkedHas(map[c.hash := true], c.next);
    UnmarkedHas(Marked(es[..2])[a.hash := true], a.next);
    assert b in [a, b, c];
  }

  lemma MarkedInOrder(a: Entry, b: Entry, c: Entry)
    requires a.next == [] && b.next == [a.hash] && c.next == [b.hash]
    requires a.hash != b.hash && a.hash != c.hash && b.hash != c.hash
    ensures !IsHead([a, b, c], a.hash)
  {
    hide Marked, Unmarked;
    var es := [a, b, c];
    MarkedNothing(es);
    MarkedStep(es, 0);
    MarkedStep(es, 1);
    MarkedStep(es, 2);
    UnmarkedHas(map[a.hash := true], []);
    UnmarkedHas(Marked(es[..1])[b.hash := true], b.next);
    UnmarkedHas(Marked(es[..2])[c.hash := true], c.next);
  }

  /** The entries that are joined for the first `i` of `js`. */
  ghost predicate Collected(u: map<Hash, Entry>, ix: Index, store: map<Hash, Entry>, js: seq<Joinable>, i: nat,
                            entries: seq<Entry>, references: map<Hash, Entry>)
    requires i <= |js|
  {
    && entries == ToJoin(ix, store, js[..i])
    && Known(u, entries) && BlocksOf(u, references)
    && EntryHashes(entries) <= HashesOf(js[..i]) <= EntryHashes(entries) + ix.Keys
    && HashesOf(js[..i]) <= u.Keys
    && references.Keys == BroughtBy(js[..i])
  }

  function EntryHashes(es: seq<Entry>): set<Hash> {
    set e | e in es :: e.hash
  }

  /** An entry is said to be no head only if another of the entries points to it. */
  ghost predicate HeadsOf(heads: map<Hash, bool>, es: seq<Entry>, i: nat)
    requires i <= |es|
  {
    && (forall e :: e in es[..i] ==> e.hash in heads)
    && (forall h :: h in heads && !heads[h] ==> exists e :: e in es && h in e.next)
  }

  lemma NothingCollected(u: map<Hash, Entry>, ix: Index, store: map<Hash, Entry>, js: seq<Joinable>)
    ensures Collected(u, ix, store, js, 0, [], map[])
  {
  }

  lemma CollectTurn(u: map<Hash, Entry>, ix: Index, store: map<Hash, Entry>, js: seq<Joinable>, i: nat,
                    entries: seq<Entry>, references: map<Hash, Entry>)
    requires i < |js| && KnownInputs(u, js) && Collected(u, ix, store, js, i, entries, references)
    ensures BlocksOf(u, references) && Known(u, js[i].Brings())
    ensures js[i].Brings()[..0] == [] && EntryHashes([]) == {}
  {
    assert js[i] in js;
  }

  lemma ToJoinStep(ix: Index, store: map<Hash, Entry>, js: seq<Joinable>, i: nat)
    requires i < |js|
    ensures ToJoin(ix, store, js[..i + 1]) == ToJoin(ix, store, js[..i]) + Taken(ix, store, js[i])
  {
    assert js[..i + 1][..i] == js[..i];
  }

  lemma HashesOfStep(js: seq<Joinable>, i: nat)
    requires i < |js|
    ensures HashesOf(js[..i + 1]) == HashesOf(js[..i]) + {js[i].Of()}
    ensures BroughtBy(js[..i + 1]) == BroughtBy(js[..i]) + EntryHashes(js[i].Brings())
  {
    assert js[..i + 1] == js[..i] + [js[i]];
    assert js[i] in js[..i + 1];
  }

  lemma EntryHashesPush(es: seq<Entry>, e: Entry)
    ensures EntryHashes(es + [e]) == EntryHashes(es) + {e.hash}
  {
    assert forall x :: x in es + [e] <==> x in es || x == e;
  }

  /** An element that has to be found: it is passed over if it is indexed, or its block is taken. */
  lemma CollectedByHash(u: map<Hash, Entry>, ix: Index, store: map<Hash, Entry>, js: seq<Joinable>, i: nat,
                        entries: seq<Entry>, references: map<Hash, Entry>)
    requires i < |js| && js[i].ByHash? && Collected(u, ix, store, js, i, entries, references) && Universe(u)
    requires EntriesOf(u, ix) && BlocksOf(u, store)
    ensures js[i].hash in ix ==> Collected(u, ix, store, js, i + 1, entries, references)
    ensures js[i].hash !in ix && js[i].hash in store ==>
              Collected(u, ix, store, js, i + 1, entries + [store[js[i].hash]], references)
  {
    hide HashesOf, BroughtBy, EntryHashes, ToJoin;
    var h := js[i].hash;
    HashesOfStep(js, i);
    ToJoinStep(ix, store, js, i);
    NoHashesOf();
    if h in store {
      assert store[h].hash == h;
      EntryHashesPush(entries, store[h]);
    }
  }

  lemma NoHashesOf()
    ensures EntryHashes([]) == {}
  {
  }

  lemma CollectedEntry(u: map<Hash, Entry>, ix: Index, store: map<Hash, Entry>, js: seq<Joinable>, i: nat,
                       entries: seq<Entry>, references: map<Hash, Entry>, references': map<Hash, Entry>)
    requires i < |js| && !js[i].ByHash? && Collected(u, ix, store, js, i, entries, references)
    requires Known(u, js[i].Brings())
    requires BlocksOf(u, references') && references'.Keys == references.Keys + EntryHashes(js[i].Brings())
    ensures Collected(u, ix, store, js, i + 1, entries + [js[i].entry], references')
  {
    hide HashesOf, BroughtBy, EntryHashes, BlocksOf, ToJoin;
    HashesOfStep(js, i);
    ToJoinStep(ix, store, js, i);
    EntryHashesPush(entries, js[i].entry);
    assert js[i].Brings()[0] == js[i].entry;
  }

  /** One more of the entries that are handed over has been noted. */
  lemma BlocksOfMore(u: map<Hash, Entry>, references: map<Hash, Entry>, es: seq<Entry>, k: nat)
    requires k < |es| && Known(u, es) && BlocksOf(u, references)
    ensures BlocksOf(u, references[es[k].hash := es[k]])
    ensures EntryHashes(es[..k + 1]) == EntryHashes(es[..k]) + {es[k].hash}
  {
    assert es[..k + 1] == es[..k] + [es[k]];
    EntryHashesPush(es[..k], es[k]);
  }

  /** What the loop over the entries needs of them. */
  lemma EntryTurn(u: map<Hash, Entry>, hs: set<Hash>, es: seq<Entry>, i: nat, heads: map<Hash, bool>)
    requires Universe(u) && hs <= u.Keys && Known(u, es) && i < |es| && EntryHashes(es) <= hs
             && HeadsOf(heads, es, |es|)
    ensures es[i].hash in hs && es[i].hash in u && u[es[i].hash] == es[i] && es[i].hash in heads
    ensures !heads[es[i].hash] ==> es[i].hash in Inner(u, hs)
    ensures EntryHashes(es[..i]) <= hs && EntryHashes(es[..i + 1]) == EntryHashes(es[..i]) + {es[i].hash}
  {
    hide Inner, Universe;
    var h := es[i].hash;
    assert es[i] in es && es[i] in es[..|es|];
    assert h in EntryHashes(es);
    InnerHas(u, hs, h);
    if !heads[h] {
      var e :| e in es && h in e.next;
      assert e.hash in EntryHashes(es) && u[e.hash] == e;
    }
    BlocksOfMore(u, map[], es, i);
    assert forall e :: e in es[..i] ==> e in es;
  }

  /** The first `i` of the entries have been joined. */
  ghost predicate EntriesDone(u: map<Hash, Entry>, hs: set<Hash>, ix: Index, ix': Index, es: seq<Entry>, i: nat,
                              pending: set<Hash>)
    requires Universe(u) && hs <= u.Keys && i <= |es|
  {
    EntryHashes(es[..i]) <= hs && Joined(u, ix, ix', AncestorsOf(u, EntryHashes(es[..i])), pending + Inner(u, hs), true)
  }

  lemma EntriesStart(u: map<Hash, Entry>, ix: Index, store: map<Hash, Entry>, js: seq<Joinable>, es: seq<Entry>,
                     references: map<Hash, Entry>, pending: set<Hash>)
    requires Universe(u) && Holds(u, ix) && Flags(u, ix, pending) && Collected(u, ix, store, js, |js|, es, references)
    ensures HashesOf(js) <= u.Keys && EntriesDone(u, HashesOf(js), ix, ix, es, 0, pending)
  {
    hide HashesOf, BroughtBy, Holds, Flags, Joined, Inner, Universe;
    assert js[..|js|] == js;
    assert es[..0] == [];
    NoHashesOf();
    NoneJoined(u, HashesOf(js), ix, pending);
  }

  lemma EntriesDoneHold(u: map<Hash, Entry>, hs: set<Hash>, ix: Index, ix': Index, es: seq<Entry>, i: nat,
                        pending: set<Hash>)
    requires Universe(u) && hs <= u.Keys && i <= |es| && EntriesDone(u, hs, ix, ix', es, i, pending)
    ensures Holds(u, ix') && Flags(u, ix', pending + Inner(u, hs))
  {
  }

  lemma CollectedEntryKnown(u: map<Hash, Entry>, ix: Index, store: map<Hash, Entry>, js: seq<Joinable>,
                            es: seq<Entry>, i: nat,
                            references: map<Hash, Entry>, heads: map<Hash, bool>)
    requires i < |es| && Collected(u, ix, store, js, |js|, es, references)
    requires heads == Marked(es) && HeadsOf(heads, es, |es|)
    ensures es[i].hash in u && u[es[i].hash] == es[i] && BlocksOf(u, references)
    ensures es[i].hash in heads && heads[es[i].hash] == IsHead(es, es[i].hash)
  {
    assert es[i] in es[..|es|];
  }

  lemma EntriesTurn(u: map<Hash, Entry>, ix: Index, ix': Index, ix'': Index, store: map<Hash, Entry>,
                    blocks: set<Hash>, js: seq<Joinable>,
                    es: seq<Entry>, i: nat, references: map<Hash, Entry>, heads: map<Hash, bool>, pending: set<Hash>,
                    r: Result)
    requires Universe(u) && i < |es| && Collected(u, ix, store, js, |js|, es, references) && HeadsOf(heads, es, |es|)
    requires HashesOf(js) <= u.Keys && es[i].hash in heads && es[i].hash in u
    requires EntriesDone(u, HashesOf(js), ix, ix', es, i, pending) && store.Keys + references.Keys <= blocks
    requires Outcome(u, ix', blocks, es[i].hash, heads[es[i].hash], pending + Inner(u, HashesOf(js)), ix'', r)
    ensures r.Ok? ==> EntriesDone(u, HashesOf(js), ix, ix'', es, i + 1, pending)
    ensures r.MissingEntry? ==> JoinOutcome(u, ix, store.Keys, js, pending, ix'', r)
  {
    hide HashesOf, BroughtBy, EntryHashes, Joined, Inner, Universe, Outcome, HeadsOf, AncestorsOf;
    assert js[..|js|] == js;
    EntryTurn(u, HashesOf(js), es, i, heads);
    EntryOutcome(u, HashesOf(js), EntryHashes(es[..i]), es[i].hash, heads[es[i].hash], ix, ix', ix'', blocks, pending,
                 r);
  }

  lemma EntriesEnd(u: map<Hash, Entry>, ix: Index, ix': Index, store: map<Hash, Entry>, js: seq<Joinable>,
                   es: seq<Entry>, references: map<Hash, Entry>, pending: set<Hash>)
    requires Universe(u) && Holds(u, ix) && Collected(u, ix, store, js, |js|, es, references)
    requires HashesOf(js) <= u.Keys && EntriesDone(u, HashesOf(js), ix, ix', es, |es|, pending)
    ensures JoinOutcome(u, ix, store.Keys, js, pending, ix', Ok)
  {
    hide HashesOf, BroughtBy, EntryHashes, Joined, Inner, Universe, AncestorsOf;
    assert js[..|js|] == js;
    assert es[..|es|] == es;
    EntriesJoined(u, HashesOf(js), EntryHashes(es), ix, ix', pending);
  }
}
