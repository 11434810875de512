/** Log entries, and the graph they make. */
module LogEntries {
  import opened Collections

  /** The content address of an entry. */
  type Hash = nat

  datatype EntryType = APPEND | CUT

  datatype Timestamp = Timestamp(wallTime: nat, logical: nat)

  predicate Before(a: Timestamp, b: Timestamp) {
    a.wallTime < b.wallTime || (a.wallTime == b.wallTime && a.logical < b.logical)
  }

  datatype Entry = Entry(hash: Hash, gid: nat, time: Timestamp, next: seq<Hash>, kind: EntryType)

  /** What the index keeps of an entry. */
  datatype ShallowEntry = ShallowEntry(entry: Entry, head: bool)

  type Index = map<Hash, ShallowEntry>

  /** All the entries that exist: one for each hash, each later than those it points to. */
  ghost predicate Universe(u: map<Hash, Entry>) {
    forall h :: h in u ==>
      u[h].hash == h && forall n :: n in u[h].next ==> n in u && Before(u[n].time, u[h].time)
  }

  /** The index and the block store hold entries of `u`. */
  ghost predicate EntriesOf(u: map<Hash, Entry>, ix: Index) {
    forall h :: h in ix ==> h in u && ix[h].entry == u[h]
  }

  ghost predicate BlocksOf(u: map<Hash, Entry>, store: map<Hash, Entry>) {
    forall h :: h in store ==> h in u && store[h] == u[h]
  }

  /** The entries are those of `u`. */
  ghost predicate Known(u: map<Hash, Entry>, es: seq<Entry>) {
    forall i :: 0 <= i < |es| ==> es[i].hash in u && u[es[i].hash] == es[i]
  }

  ghost predicate AppendOnly(u: map<Hash, Entry>) {
    forall h :: h in u ==> u[h].kind.APPEND?
  }

  /** `h` and everything it points to, directly or not. */
  ghost function Ancestors(u: map<Hash, Entry>, h: Hash): set<Hash>
    requires Universe(u) && h in u
    decreases u[h].time.wallTime, u[h].time.logical
  {
    {h} + set n, a | n in u[h].next && a in Ancestors(u, n) :: a
  }

  ghost function AncestorsOf(u: map<Hash, Entry>, hs: set<Hash>): set<Hash>
    requires Universe(u) && hs <= u.Keys
  {
    set h, a | h in hs && a in Ancestors(u, h) :: a
  }

  function Hashes(s: seq<Hash>): set<Hash> {
    set h | h in s
  }

  lemma HashesStep(hs: seq<Hash>, i: nat)
    requires i < |hs|
    ensures Hashes(hs[..i + 1]) == Hashes(hs[..i]) + {hs[i]}
  {
    assert hs[..i + 1] == hs[..i] + [hs[i]];
  }

  lemma NoHashes(hs: seq<Hash>)
    ensures Hashes(hs[..0]) == {} && hs[..|hs|] == hs
  {
  }

  lemma AncestorsOfMore(u: map<Hash, Entry>, hs: set<Hash>, h: Hash)
    requires Universe(u) && hs <= u.Keys && h in u
    ensures AncestorsOf(u, hs + {h}) == AncestorsOf(u, hs) + Ancestors(u, h)
  {
  }

  lemma AncestorsOfUnion(u: map<Hash, Entry>, hs: set<Hash>, hs': set<Hash>)
    requires Universe(u) && hs <= u.Keys && hs' <= u.Keys
    ensures AncestorsOf(u, hs + hs') == AncestorsOf(u, hs) + AncestorsOf(u, hs')
  {
  }

  lemma OwnAncestors(u: map<Hash, Entry>, hs: set<Hash>)
    requires Universe(u) && hs <= u.Keys
    ensures hs <= AncestorsOf(u, hs)
  {
    forall h | h in hs
      ensures h in AncestorsOf(u, hs)
    {
      assert h in Ancestors(u, h);
    }
  }

  lemma AncestorsByNext(u: map<Hash, Entry>, h: Hash)
    requires Universe(u) && h in u
    ensures Hashes(u[h].next) <= u.Keys
    ensures Ancestors(u, h) == {h} + AncestorsOf(u, Hashes(u[h].next))
  {
  }

  lemma {:induction false} AncestorsExist(u: map<Hash, Entry>, h: Hash)
    requires Universe(u) && h in u
    ensures Ancestors(u, h) <= u.Keys
    ensures forall a :: a in Ancestors(u, h) && a != h ==> Before(u[a].time, u[h].time)
    decreases u[h].time.wallTime, u[h].time.logical
  {
    forall n | n in u[h].next
      ensures Ancestors(u, n) <= u.Keys
      ensures forall a :: a in Ancestors(u, n) && a != n ==> Before(u[a].time, u[n].time)
    {
      AncestorsExist(u, n);
    }
  }

  lemma {:induction false} AncestorsClosed(u: map<Hash, Entry>, h: Hash, a: Hash)
    requires Universe(u) && h in u && a in Ancestors(u, h)
    ensures a in u && Ancestors(u, a) <= Ancestors(u, h)
    decreases u[h].time.wallTime, u[h].time.logical
  {
    if a != h {
      var n :| n in u[h].next && a in Ancestors(u, n);
      AncestorsClosed(u, n, a);
    }
  }

  /** A set of hashes that holds, with an entry, all it points to. */
  ghost predicate Closed(u: map<Hash, Entry>, keys: set<Hash>) {
    forall h, n :: h in keys && h in u && n in u[h].next ==> n in keys
  }

  lemma {:induction false} ClosedHasAncestors(u: map<Hash, Entry>, keys: set<Hash>, h: Hash)
    requires Universe(u) && Closed(u, keys) && h in keys && h in u
    ensures Ancestors(u, h) <= keys
    decreases u[h].time.wallTime, u[h].time.logical
  {
    forall n | n in u[h].next
      ensures Ancestors(u, n) <= keys
    {
      ClosedHasAncestors(u, keys, n);
    }
  }

  lemma ClosedHasAncestorsOf(u: map<Hash, Entry>, keys: set<Hash>, hs: set<Hash>)
    requires Universe(u) && Closed(u, keys) && hs <= keys && hs <= u.Keys
    ensures AncestorsOf(u, hs) <= keys
  {
    forall h | h in hs
      ensures Ancestors(u, h) <= keys
    {
      ClosedHasAncestors(u, keys, h);
    }
  }

  /** Some entry among `keys` points to `h`. */
  ghost predicate Referenced(u: map<Hash, Entry>, keys: set<Hash>, h: Hash) {
    exists x :: x in keys && x in u && h in u[x].next
  }

  lemma NextBelow(u: map<Hash, Entry>, h: Hash, n: Hash)
    requires Universe(u) && h in u && n in u[h].next
    ensures n in Ancestors(u, n) && Ancestors(u, n) <= Ancestors(u, h)
  {
    assert n in Ancestors(u, n);
  }

  /** Another ancestor points to each ancestor but the entry itself. */
  lemma {:induction false} AncestorsAreReferenced(u: map<Hash, Entry>, h: Hash, a: Hash)
    requires Universe(u) && h in u && a in Ancestors(u, h) && a != h
    ensures Referenced(u, Ancestors(u, h), a)
    decreases u[h].time.wallTime, u[h].time.logical
  {
    var n :| n in u[h].next && a in Ancestors(u, n);
    if a == n {
      assert h in Ancestors(u, h);
    } else {
      AncestorsAreReferenced(u, n, a);
      NextBelow(u, h, n);
    }
  }

  /** The entries of `keys` that are later than `h`. */
  ghost function Later(u: map<Hash, Entry>, keys: set<Hash>, h: Hash): set<Hash>
    requires h in u && keys <= u.Keys
  {
    set x | x in keys && Before(u[h].time, u[x].time)
  }

  lemma LaterLess(u: map<Hash, Entry>, keys: set<Hash>, h: Hash, x: Hash)
    requires h in u && keys <= u.Keys && x in keys && Before(u[h].time, u[x].time)
    ensures |Later(u, keys, x)| < |Later(u, keys, h)|
  {
    SubsetSize(Later(u, keys, x), Later(u, keys, h) - {x});
  }
}
