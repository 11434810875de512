/** What a join leaves behind when it fails, and when. */
module LogFailures {
  import opened LogEntries
  import opened EntryIndexes
  import opened LogJoins

  /** The place of the first hash that is not indexed, or the length. */
  ghost function FirstUnindexed(keys: set<Hash>, next: seq<Hash>): (k: nat)
    ensures k <= |next| && (k < |next| ==> next[k] !in keys)
    ensures forall i :: 0 <= i < k ==> next[i] in keys
  {
    if |next| == 0 || next[0] !in keys then 0
    else
      var k := FirstUnindexed(keys, next[1..]);
      assert forall i :: 1 <= i < k + 1 ==> next[i] == next[1..][i - 1];
      k + 1
  }

  /** The entries `keys` are indexed. The first ones that are not, each pointed to by the one before,
      lead from `h` to one that has no block: nothing can be put on the way. */
  ghost predicate FailsAtOnce(u: map<Hash, Entry>, keys: set<Hash>, blocks: set<Hash>, h: Hash)
    requires Universe(u) && h in u
    decreases u[h].time.wallTime, u[h].time.logical
  {
    var k := FirstUnindexed(keys, u[h].next);
    k < |u[h].next| &&
    (assert u[h].next[k] in u[h].next;
     u[h].next[k] !in blocks || FailsAtOnce(u, keys, blocks, u[h].next[k]))
  }

  /** No heads but those of before, and perhaps those of `extra`. */
  ghost predicate HeadsWithin(ix: Index, ix': Index, extra: set<Hash>) {
    forall x :: x in ix' && ix'[x].head ==> (x in ix && ix[x].head) || x in extra
  }

  /** What the join of `h`, which is not indexed, puts: with its ancestors only such as have blocks.
      If it fails no head is new, and nothing has been put exactly if it fails at once. */
  ghost predicate Puts(u: map<Hash, Entry>, ix: Index, blocks: set<Hash>, h: Hash, isHead: bool, ix': Index, r: Result)
    requires Universe(u) && h in u
  {
    match r
    case Ok =>
      && h in ix' && !FailsAtOnce(u, ix.Keys, blocks, h)
      && ix'.Keys <= ix.Keys + blocks + {h}
      && HeadsWithin(ix, ix', if isHead then {h} else {})
    case MissingEntry(m) =>
      && m != h && ix'.Keys <= ix.Keys + blocks && HeadsWithin(ix, ix', {})
      && (ix'.Keys == ix.Keys ==> ix' == ix)
      && (ix' == ix <==> FailsAtOnce(u, ix.Keys, blocks, h))
  }

  /** The same, while the first `i` entries that `h` points to have been joined. */
  ghost predicate PutsSoFar(u: map<Hash, Entry>, ix: Index, blocks: set<Hash>, h: Hash, i: nat, ix': Index)
    requires Universe(u) && h in u && i <= |u[h].next|
  {
    && ix.Keys <= ix'.Keys <= ix.Keys + blocks && HeadsWithin(ix, ix', {})
    && (ix'.Keys == ix.Keys ==> ix' == ix)
    && (if ix' == ix then forall j :: 0 <= j < i ==> u[h].next[j] in ix else !FailsAtOnce(u, ix.Keys, blocks, h))
  }

  lemma NothingPut(u: map<Hash, Entry>, ix: Index, blocks: set<Hash>, h: Hash)
    requires Universe(u) && h in u
    ensures PutsSoFar(u, ix, blocks, h, 0, ix)
  {
  }

  lemma FirstIs(keys: set<Hash>, next: seq<Hash>, i: nat)
    requires i < |next| && next[i] !in keys && forall j :: 0 <= j < i ==> next[j] in keys
    ensures FirstUnindexed(keys, next) == i
  {
  }

  lemma NoneUnindexed(keys: set<Hash>, next: seq<Hash>)
    requires forall j :: 0 <= j < |next| ==> next[j] in keys
    ensures FirstUnindexed(keys, next) == |next|
  {
  }

  /** The next one was there already. */
  lemma PutsIndexed(u: map<Hash, Entry>, ix: Index, blocks: set<Hash>, h: Hash, i: nat, ix': Index)
    requires Universe(u) && h in u && i < |u[h].next| && PutsSoFar(u, ix, blocks, h, i, ix') && u[h].next[i] in ix'
    ensures PutsSoFar(u, ix, blocks, h, i + 1, ix')
  {
  }

  /** The next one has no block. */
  lemma PutsMissing(u: map<Hash, Entry>, ix: Index, blocks: set<Hash>, h: Hash, isHead: bool, i: nat, ix': Index)
    requires Universe(u) && h in u && i < |u[h].next| && PutsSoFar(u, ix, blocks, h, i, ix')
    requires var n := u[h].next[i]; n !in ix' && n !in blocks
    ensures Puts(u, ix, blocks, h, isHead, ix', MissingEntry(u[h].next[i]))
  {
    assert u[h].next[i] in u[h].next;
    if ix' == ix {
      FirstIs(ix.Keys, u[h].next, i);
    }
  }

  /** The next one has been joined, or that has failed. */
  lemma PutsNested(u: map<Hash, Entry>, ix: Index, blocks: set<Hash>, h: Hash, isHead: bool, i: nat, ix': Index,
                   ix'': Index, r: Result)
    requires Universe(u) && h in u && i < |u[h].next| && PutsSoFar(u, ix, blocks, h, i, ix')
    requires var n := u[h].next[i];
             n in u && n !in ix' && n in blocks && ix'.Keys <= ix''.Keys && Puts(u, ix', blocks, n, false, ix'', r)
    requires r.MissingEntry? ==> r.hash != h
    ensures r.Ok? ==> PutsSoFar(u, ix, blocks, h, i + 1, ix'')
    ensures r.MissingEntry? ==> Puts(u, ix, blocks, h, isHead, ix'', r)
  {
    var n := u[h].next[i];
    assert n in u[h].next;
    if ix' == ix {
      FirstIs(ix.Keys, u[h].next, i);
      assert FailsAtOnce(u, ix.Keys, blocks, h) <==> FailsAtOnce(u, ix.Keys, blocks, n);
    } else {
      assert ix.Keys < ix'.Keys;
    }
    hide FailsAtOnce;
  }

  /** All that it points to is there: it is put. */
  lemma PutsItself(u: map<Hash, Entry>, ix: Index, blocks: set<Hash>, h: Hash, isHead: bool, ix': Index)
    requires Universe(u) && h in u && h !in ix' && PutsSoFar(u, ix, blocks, h, |u[h].next|, ix')
    ensures Puts(u, ix, blocks, h, isHead, Put(ix', u[h], isHead), Ok)
  {
    var ix'' := Put(ix', u[h], isHead);
    PutSize(ix', u[h], isHead);
    if ix' == ix {
      NoneUnindexed(ix.Keys, u[h].next);
    }
    forall x | x in ix'' && ix''[x].head
      ensures (x in ix && ix[x].head) || (isHead && x == h)
    {
      PutRecord(ix', u[h], isHead, x);
    }
  }

  // ---------- A join, step by step ----------

  /** What a join of `h` comes to, and the blocks there are then. */
  ghost predicate JoinResult(u: map<Hash, Entry>, ix: Index, blocks: set<Hash>, h: Hash, isHead: bool,
                             pending: set<Hash>,
                             ix': Index, blocks': set<Hash>, r: Result)
    requires Universe(u) && h in u
  {
    && Outcome(u, ix, blocks, h, isHead, pending, ix', r)
    && (h !in ix ==> Puts(u, ix, blocks, h, isHead, ix', r) && blocks' == blocks + if r.Ok? then {h} else {})
  }

  ghost predicate SoFar(u: map<Hash, Entry>, ix: Index, blocks: set<Hash>, h: Hash, i: nat, pending: set<Hash>,
                        ix': Index, blocks': set<Hash>)
    requires Universe(u) && h in u && i <= |u[h].next|
  {
    JoinedNexts(u, ix, ix', h, i, pending) && PutsSoFar(u, ix, blocks, h, i, ix') && blocks' == blocks
  }

  lemma ResultBefore(ok: bool, u: map<Hash, Entry>, ix: Index, blocks: set<Hash>, h: Hash, isHead: bool,
                     pending: set<Hash>)
    requires Universe(u) && h in u && (ok ==> h in ix && Holds(u, ix) && Flags(u, ix, pending))
    ensures ok ==> JoinResult(u, ix, blocks, h, isHead, pending, ix, blocks, Ok)
  {
    if ok {
      OutcomeBefore(u, ix, blocks, h, isHead, pending);
    }
  }

  lemma SoFarNothing(ok: bool, u: map<Hash, Entry>, ix: Index, blocks: set<Hash>, h: Hash, pending: set<Hash>)
    requires Universe(u) && h in u && (ok ==> Holds(u, ix) && Flags(u, ix, pending))
    ensures ok ==> SoFar(u, ix, blocks, h, 0, pending, ix, blocks)
  {
    if ok {
      NoneYet(u, ix, h, pending);
      NothingPut(u, ix, blocks, h);
    }
  }

  lemma SoFarHolds(ok: bool, u: map<Hash, Entry>, ix: Index, blocks: set<Hash>, h: Hash, i: nat, pending: set<Hash>,
                   ix': Index, blocks': set<Hash>)
    requires Universe(u) && h in u && i <= |u[h].next| && (ok ==> SoFar(u, ix, blocks, h, i, pending, ix', blocks'))
    ensures ok ==> Holds(u, ix') && Flags(u, ix', pending + Hashes(u[h].next[..i])) && blocks' == blocks
  {
    if ok {
      JoinedNextsHold(u, ix, ix', h, i, pending);
    }
  }

  /** The next one has no block: the join of `h` fails. */
  lemma SoFarMissing(ok: bool, u: map<Hash, Entry>, ix: Index, blocks: set<Hash>, h: Hash, isHead: bool, i: nat,
                     pending: set<Hash>, ix': Index, blocks': set<Hash>)
    requires Universe(u) && h in u && i < |u[h].next| && h !in ix
             && (ok ==> SoFar(u, ix, blocks, h, i, pending, ix', blocks'))
    requires var n := u[h].next[i]; n in u && n !in ix' && n !in blocks'
    ensures ok ==> JoinResult(u, ix, blocks, h, isHead, pending, ix', blocks', MissingEntry(u[h].next[i]))
  {
    hide Outcome, Puts, PutsSoFar;
    if ok {
      var n := u[h].next[i];
      SoFarHolds(ok, u, ix, blocks, h, i, pending, ix', blocks');
      MissingOutcome(u, ix', blocks, n, false, pending + Hashes(u[h].next[..i]));
      NextOutcome(u, h, i, ix, ix', ix', blocks, blocks, pending, isHead, MissingEntry(n));
      PutsMissing(u, ix, blocks, h, isHead, i, ix');
      assert blocks + {} == blocks;
    }
  }

  /** The next one has been joined, or was there already, or its join has failed. */
  lemma SoFarNext(ok: bool, u: map<Hash, Entry>, ix: Index, blocks: set<Hash>, h: Hash, isHead: bool, i: nat,
                  pending: set<Hash>,
                  ix': Index, blocks': set<Hash>, ix'': Index, blocks'': set<Hash>, r: Result)
    requires Universe(u) && h in u && i < |u[h].next| && h !in ix
             && (ok ==> SoFar(u, ix, blocks, h, i, pending, ix', blocks'))
    requires u[h].next[i] in u && (u[h].next[i] in blocks' || u[h].next[i] in ix')
    requires ok ==> JoinResult(u, ix', blocks', u[h].next[i], false, pending + Hashes(u[h].next[..i]), ix'', blocks'',
                               r)
    requires u[h].next[i] in ix' ==> r.Ok? && ix'' == ix' && blocks'' == blocks'
    ensures ok && r.Ok? ==> SoFar(u, ix, blocks, h, i + 1, pending, ix'', blocks'')
    ensures ok && r.MissingEntry? ==> JoinResult(u, ix, blocks, h, isHead, pending, ix'', blocks'', r)
  {
    hide JoinedNexts, Outcome, Puts, PutsSoFar;
    if ok {
      var n := u[h].next[i];
      assert n in u[h].next;
      NestedGrows(u, ix', blocks, n, pending + Hashes(u[h].next[..i]), ix'', r, h);
      NextOutcome(u, h, i, ix, ix', ix'', blocks, blocks, pending, isHead, r);
      if n in ix' {
        PutsIndexed(u, ix, blocks, h, i, ix');
      } else {
        PutsNested(u, ix, blocks, h, isHead, i, ix', ix'', r);
        assert blocks + {n} == blocks;
        assert blocks + {} == blocks;
      }
    }
  }

  lemma ResultPut(ok: bool, u: map<Hash, Entry>, ix: Index, blocks: set<Hash>, h: Hash, isHead: bool,
                  pending: set<Hash>, ix': Index, blocks': set<Hash>)
    requires Universe(u) && h in u && h !in ix
    requires ok ==> u[h].kind.APPEND? && SoFar(u, ix, blocks, h, |u[h].next|, pending, ix', blocks')
    ensures ok ==> JoinResult(u, ix, blocks, h, isHead, pending, Put(ix', u[h], isHead), blocks' + {h}, Ok)
  {
    hide Outcome, Puts, PutsSoFar, JoinedNexts, Put;
    if ok {
      PutOutcome(u, ix, ix', blocks, h, pending, isHead);
      NotYetPut(u, ix, ix', h, pending);
      PutsItself(u, ix, blocks, h, isHead, ix');
    }
  }
}
