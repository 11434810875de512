/** Which entries a recursive deletion deletes. */
module LogCuts {
  import opened LogEntries

  /** `x` is indexed, is no cut and points to `a`. */
  predicate PointsTo(ix: Index, x: Hash, a: Hash) {
    x in ix && ix[x].entry.kind.APPEND? && a in ix[x].entry.next
  }

  /** Some indexed entry other than `h` that is not a cut points to `n`. */
  predicate HasAlternative(ix: Index, h: Hash, n: Hash) {
    exists x :: x in ix && PointsTo(ix, x, n) && ix[x].entry.hash != h
  }

  /** What a recursive deletion goes on to from `h`: what only `h` points to, if there is a block for it. */
  ghost predicate GoesOn(u: map<Hash, Entry>, ix: Index, store: map<Hash, Entry>, h: Hash, n: Hash)
    requires h in u
  {
    n in u[h].next && n in store && !HasAlternative(ix, h, n)
  }

  /** The indexed entries that a recursive deletion from `h` deletes. */
  ghost function Doomed(u: map<Hash, Entry>, ix: Index, store: map<Hash, Entry>, h: Hash): set<Hash>
    requires Universe(u) && h in u
    decreases u[h].time.wallTime, u[h].time.logical
  {
    (if h in ix then {h} else {}) +
    set n, a | n in u[h].next && GoesOn(u, ix, store, h, n) && a in Doomed(u, ix, store, n) :: a
  }

  /** The same, without `h` itself. */
  ghost function Below(u: map<Hash, Entry>, ix: Index, store: map<Hash, Entry>, h: Hash): set<Hash>
    requires Universe(u) && h in u
  {
    set n, a | n in u[h].next && GoesOn(u, ix, store, h, n) && a in Doomed(u, ix, store, n) :: a
  }

  /** What is deleted through the first `i` entries that `h` points to. */
  ghost function BelowFirst(u: map<Hash, Entry>, ix: Index, store: map<Hash, Entry>, h: Hash, i: nat): set<Hash>
    requires Universe(u) && h in u && i <= |u[h].next|
  {
    set n, a | n in u[h].next[..i] && GoesOn(u, ix, store, h, n) && a in Doomed(u, ix, store, n) :: a
  }

  lemma BelowFirstStep(u: map<Hash, Entry>, ix: Index, store: map<Hash, Entry>, h: Hash, i: nat)
    requires Universe(u) && h in u && i < |u[h].next|
    ensures var n := u[h].next[i];
            BelowFirst(u, ix, store, h, i + 1) == BelowFirst(u, ix, store, h, i) +
                                                  if GoesOn(u, ix, store, h, n) then Doomed(u, ix, store, n) else {}
  {
    assert u[h].next[..i + 1] == u[h].next[..i] + [u[h].next[i]];
    assert u[h].next[i] in u[h].next[..i + 1];
  }

  lemma BelowFirstAll(u: map<Hash, Entry>, ix: Index, store: map<Hash, Entry>, h: Hash)
    requires Universe(u) && h in u
    ensures BelowFirst(u, ix, store, h, |u[h].next|) == Below(u, ix, store, h)
    ensures BelowFirst(u, ix, store, h, 0) == {}
  {
    assert u[h].next[..|u[h].next|] == u[h].next;
  }

  ghost function DoomedAll(u: map<Hash, Entry>, ix: Index, store: map<Hash, Entry>, es: seq<Entry>): set<Hash>
    requires Universe(u) && forall i :: 0 <= i < |es| ==> es[i].hash in u
  {
    if |es| == 0 then {} else DoomedAll(u, ix, store, es[..|es| - 1]) + Doomed(u, ix, store, es[|es| - 1].hash)
  }

  // ---------- What is deleted ----------

  /** Everything that is deleted is indexed, and an ancestor. */
  lemma {:induction false} DoomedAreAncestors(u: map<Hash, Entry>, ix: Index, store: map<Hash, Entry>, h: Hash)
    requires Universe(u) && h in u
    ensures Doomed(u, ix, store, h) <= Ancestors(u, h) && Doomed(u, ix, store, h) <= ix.Keys
    decreases u[h].time.wallTime, u[h].time.logical
  {
    forall n | n in u[h].next && GoesOn(u, ix, store, h, n)
      ensures Doomed(u, ix, store, n) <= Ancestors(u, n) && Doomed(u, ix, store, n) <= ix.Keys
    {
      DoomedAreAncestors(u, ix, store, n);
    }
  }

  /** Whatever points to an entry that is deleted, apart from cuts, is deleted too: but for what points
      to `h` itself, where the deletion starts. */
  lemma {:induction false} DoomedIsSafe(u: map<Hash, Entry>, ix: Index, store: map<Hash, Entry>, h: Hash, d: Hash,
                                        x: Hash)
    requires Universe(u) && h in u && EntriesOf(u, ix)
    requires d in Doomed(u, ix, store, h) && d != h
    requires x in ix && ix[x].entry.kind.APPEND? && d in ix[x].entry.next
    ensures x == h || x in Doomed(u, ix, store, h)
    decreases u[h].time.wallTime, u[h].time.logical
  {
    var n :| n in u[h].next && GoesOn(u, ix, store, h, n) && d in Doomed(u, ix, store, n);
    if d == n {
      assert ix[x].entry.hash == x;
    } else {
      DoomedIsSafe(u, ix, store, n, d, x);
      if x == n {
        assert x in Doomed(u, ix, store, n);
      }
    }
  }

  /** A cut is safe: what it deletes is not pointed to by any entry that stays, other than cuts. */
  lemma CutIsSafe(u: map<Hash, Entry>, ix: Index, store: map<Hash, Entry>, cut: Hash, d: Hash, x: Hash)
    requires Universe(u) && EntriesOf(u, ix) && cut in u && u[cut].kind.CUT?
    requires d in Below(u, ix, store, cut)
    requires x in ix && ix[x].entry.kind.APPEND? && d in ix[x].entry.next
    ensures x in Below(u, ix, store, cut)
  {
    BelowIsProper(u, ix, store, cut);
    assert d in Doomed(u, ix, store, cut);
    DoomedIsSafe(u, ix, store, cut, d, x);
  }

  lemma BelowIsProper(u: map<Hash, Entry>, ix: Index, store: map<Hash, Entry>, h: Hash)
    requires Universe(u) && h in u
    ensures h !in Below(u, ix, store, h)
    ensures Doomed(u, ix, store, h) == (if h in ix then {h} else {}) + Below(u, ix, store, h)
  {
    forall n | n in u[h].next && GoesOn(u, ix, store, h, n)
      ensures h !in Doomed(u, ix, store, n)
    {
      DoomedAreAncestors(u, ix, store, n);
      AncestorsExist(u, n);
    }
  }

  /** Where something is shared it is not complete: an entry that two entries point to, neither of
      them a cut, stays even when both are deleted. */
  lemma {:induction false} SharedStays(u: map<Hash, Entry>, ix: Index, store: map<Hash, Entry>, h: Hash, x: Hash,
                                       y: Hash, a: Hash)
    requires Universe(u) && h in u && EntriesOf(u, ix)
    requires x in ix && y in ix && x != y && u[x].kind.APPEND? && u[y].kind.APPEND?
    requires a in u[x].next && a in u[y].next
    ensures a !in Below(u, ix, store, h)
    decreases u[h].time.wallTime, u[h].time.logical
  {
    forall n | n in u[h].next && GoesOn(u, ix, store, h, n)
      ensures a !in Doomed(u, ix, store, n)
    {
      var z := if x == h then y else x;
      assert PointsTo(ix, z, a) && ix[z].entry.hash != h;
      SharedStays(u, ix, store, n, x, y, a);
      BelowIsProper(u, ix, store, n);
    }
  }

  /** What is visited goes on to what is deleted. */
  lemma {:induction false} DoomedGoesOn(u: map<Hash, Entry>, ix: Index, store: map<Hash, Entry>, h: Hash, x: Hash,
                                        a: Hash)
    requires Universe(u) && h in u && x in u && x in Doomed(u, ix, store, h)
    requires GoesOn(u, ix, store, x, a) && a in ix
    ensures a in Doomed(u, ix, store, h)
    decreases u[h].time.wallTime, u[h].time.logical
  {
    if x == h {
      assert a in u && a in Doomed(u, ix, store, a);
    } else {
      var n :| n in u[h].next && GoesOn(u, ix, store, h, n) && x in Doomed(u, ix, store, n);
      DoomedGoesOn(u, ix, store, n, x, a);
    }
  }

  /** At most one indexed entry that is no cut points to `a`, and it is an ancestor of `h`. */
  ghost predicate Unshared(u: map<Hash, Entry>, ix: Index, h: Hash, a: Hash)
    requires Universe(u) && h in u
  {
    && (forall x :: PointsTo(ix, x, a) ==> x in Ancestors(u, h))
    && (forall x, y :: PointsTo(ix, x, a) && PointsTo(ix, y, a) ==> x == y)
  }

  ghost function ProperAncestors(u: map<Hash, Entry>, h: Hash): set<Hash>
    requires Universe(u) && h in u
  {
    Ancestors(u, h) - {h}
  }

  /** The pointer to `a` by which the deletion comes to it: the one that is no cut, or else any. */
  lemma Pointer(u: map<Hash, Entry>, ix: Index, store: map<Hash, Entry>, h: Hash, a: Hash) returns (x: Hash)
    requires Universe(u) && h in u && EntriesOf(u, ix)
    requires a in ProperAncestors(u, h) && a in store && Unshared(u, ix, h, a)
    ensures x in Ancestors(u, h) && x in u && a in u && Before(u[a].time, u[x].time) && GoesOn(u, ix, store, x, a)
  {
    AncestorsExist(u, h);
    if y :| PointsTo(ix, y, a) {
      x := y;
    } else {
      AncestorsAreReferenced(u, h, a);
      x :| x in Ancestors(u, h) && x in u && a in u[x].next;
    }
  }

  lemma {:induction false} UnsharedGoes(u: map<Hash, Entry>, ix: Index, store: map<Hash, Entry>, h: Hash, a: Hash)
    requires Universe(u) && h in u && EntriesOf(u, ix)
    requires ProperAncestors(u, h) <= ix.Keys * store.Keys
    requires forall b :: b in ProperAncestors(u, h) ==> Unshared(u, ix, h, b)
    requires a in ProperAncestors(u, h) && Ancestors(u, h) <= u.Keys
    ensures a in Below(u, ix, store, h)
    decreases |Later(u, Ancestors(u, h), a)|
  {
    var x := Pointer(u, ix, store, h, a);
    if x == h {
      assert a in Doomed(u, ix, store, a);
    } else {
      LaterLess(u, Ancestors(u, h), a, x);
      UnsharedGoes(u, ix, store, h, x);
      BelowIsProper(u, ix, store, h);
      DoomedGoesOn(u, ix, store, h, x, a);
    }
  }

  lemma {:induction false} GoneHasBlock(u: map<Hash, Entry>, ix: Index, store: map<Hash, Entry>, h: Hash, a: Hash)
    requires Universe(u) && h in u && a in Doomed(u, ix, store, h) && a != h
    ensures a in store
    decreases u[h].time.wallTime, u[h].time.logical
  {
    var n :| n in u[h].next && GoesOn(u, ix, store, h, n) && a in Doomed(u, ix, store, n);
    if a != n {
      GoneHasBlock(u, ix, store, n, a);
    }
  }

  lemma GoneIsUnshared(u: map<Hash, Entry>, ix: Index, store: map<Hash, Entry>, h: Hash, a: Hash)
    requires Universe(u) && h in u && EntriesOf(u, ix)
    requires a in Below(u, ix, store, h)
    ensures a in store && a in ix && Unshared(u, ix, h, a)
  {
    BelowIsProper(u, ix, store, h);
    DoomedAreAncestors(u, ix, store, h);
    GoneHasBlock(u, ix, store, h, a);
    hide Below, Doomed, Ancestors, Universe;
    forall x | PointsTo(ix, x, a)
      ensures x in Ancestors(u, h)
    {
      DoomedIsSafe(u, ix, store, h, a, x);
      OwnAncestor(u, h);
    }
    forall x, y | PointsTo(ix, x, a) && PointsTo(ix, y, a)
      ensures x == y
    {
      if x != y {
        SharedStays(u, ix, store, h, x, y, a);
      }
    }
  }

  lemma OwnAncestor(u: map<Hash, Entry>, h: Hash)
    requires Universe(u) && h in u
    ensures h in Ancestors(u, h)
  {
  }

  /** What is below a cut, or any other entry, is all deleted exactly if each of its ancestors is
      indexed and has a block, and at most one entry that is no cut points to it, an ancestor too. */
  lemma CutIsComplete(u: map<Hash, Entry>, ix: Index, store: map<Hash, Entry>, h: Hash)
    requires Universe(u) && h in u && EntriesOf(u, ix)
    ensures Below(u, ix, store, h) == ProperAncestors(u, h) <==>
            forall a :: a in ProperAncestors(u, h) ==> a in ix && a in store && Unshared(u, ix, h, a)
  {
    BelowIsProper(u, ix, store, h);
    DoomedAreAncestors(u, ix, store, h);
    AncestorsExist(u, h);
    hide Below, Doomed, Ancestors, Universe, Unshared;
    if Below(u, ix, store, h) == ProperAncestors(u, h) {
      forall a | a in ProperAncestors(u, h)
        ensures a in ix && a in store && Unshared(u, ix, h, a)
      {
        GoneIsUnshared(u, ix, store, h, a);
      }
    }
    if forall a :: a in ProperAncestors(u, h) ==> a in ix && a in store && Unshared(u, ix, h, a) {
      forall a | a in ProperAncestors(u, h)
        ensures a in Below(u, ix, store, h)
      {
        UnsharedGoes(u, ix, store, h, a);
      }
    }
  }

  /** The least of such logs: two entries point to a third, and a cut to the two. Both go, and the third stays. */
  lemma DiamondStays(a: Entry, b: Entry, c: Entry, cut: Entry, u: map<Hash, Entry>, ix: Index)
    requires u == map[a.hash := a, b.hash := b, c.hash := c, cut.hash := cut] && Universe(u) && b.hash != c.hash
    requires ix.Keys == {a.hash, b.hash, c.hash} && EntriesOf(u, ix)
    requires a.next == [] && b.next == [a.hash] == c.next && cut.next == [b.hash, c.hash]
    requires a.kind.APPEND? && b.kind.APPEND? && c.kind.APPEND? && cut.kind.CUT?
    ensures Below(u, ix, u, cut.hash) == {b.hash, c.hash} && a.hash in Ancestors(u, cut.hash)
  {
    assert a.hash in u[b.hash].next && a.hash in u[c.hash].next && b.hash in u[cut.hash].next
           && c.hash in u[cut.hash].next;
    assert a.hash != b.hash && a.hash != c.hash && a.hash != cut.hash && b.hash != cut.hash && c.hash != cut.hash;
    assert forall x :: x in ix ==> x == a.hash || x == b.hash || x == c.hash;
    assert !HasAlternative(ix, cut.hash, b.hash) && !HasAlternative(ix, cut.hash, c.hash);
    DoomedAreAncestors(u, ix, u, cut.hash);
    BelowIsProper(u, ix, u, cut.hash);
    SharedStays(u, ix, u, cut.hash, b.hash, c.hash, a.hash);
    OwnAncestor(u, a.hash);
    NextBelow(u, b.hash, a.hash);
    NextBelow(u, cut.hash, b.hash);
    InBelow(u, ix, u, cut.hash, b.hash);
    InBelow(u, ix, u, cut.hash, c.hash);
    hide Below, Doomed, Ancestors, Universe;
    assert Below(u, ix, u, cut.hash) <= ix.Keys;
  }

  /** Where the deletion goes on, an indexed entry goes. */
  lemma InBelow(u: map<Hash, Entry>, ix: Index, store: map<Hash, Entry>, h: Hash, n: Hash)
    requires Universe(u) && h in u && n in u[h].next && GoesOn(u, ix, store, h, n) && n in ix
    ensures n in Below(u, ix, store, h)
  {
    assert n in u && n in Doomed(u, ix, store, n);
  }

  // ---------- The measure of the loop ----------

  ghost function Weight(u: map<Hash, Entry>, h: Hash): nat
    requires Universe(u) && h in u
    decreases u[h].time.wallTime, u[h].time.logical, |u[h].next| + 1
  {
    1 + WeightOfNext(u, h, |u[h].next|)
  }

  ghost function WeightOfNext(u: map<Hash, Entry>, h: Hash, i: nat): nat
    requires Universe(u) && h in u && i <= |u[h].next|
    decreases u[h].time.wallTime, u[h].time.logical, i
  {
    if i == 0 then 0
    else
      assert u[h].next[i - 1] in u[h].next;
      WeightOfNext(u, h, i - 1) + Weight(u, u[h].next[i - 1])
  }

  ghost function StackWeight(u: map<Hash, Entry>, es: seq<Entry>): nat
    requires Universe(u) && forall i :: 0 <= i < |es| ==> es[i].hash in u
  {
    if |es| == 0 then 0 else StackWeight(u, es[..|es| - 1]) + Weight(u, es[|es| - 1].hash)
  }

  lemma WeightStep(u: map<Hash, Entry>, h: Hash, i: nat)
    requires Universe(u) && h in u && i <= |u[h].next|
    ensures WeightOfNext(u, h, 0) == 0 && Weight(u, h) == 1 + WeightOfNext(u, h, |u[h].next|)
    ensures i < |u[h].next| ==> u[h].next[i] in u && u[u[h].next[i]].hash == u[h].next[i] &&
                                WeightOfNext(u, h, i + 1) == WeightOfNext(u, h, i) + Weight(u, u[h].next[i])
  {
    assert i < |u[h].next| ==> u[h].next[i] in u[h].next;
  }

  lemma NoneDoomed(u: map<Hash, Entry>, ix: Index, store: map<Hash, Entry>)
    requires Universe(u)
    ensures DoomedAll(u, ix, store, []) == {} && StackWeight(u, []) == 0
  {
  }
}
