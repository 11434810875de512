/** What the join of one entry does to the head flags of any log, also of one with cuts. */
module LogTurns {
  import opened LogEntries
  import opened EntryIndexes
  import opened LogJoins
  import opened LogFailures
  import opened LogCuts

  // ---------- Where a join reaches ----------

  /** Nothing but entries of `hs` has come or gone. */
  ghost predicate Touches(ix: Index, ix': Index, hs: set<Hash>) {
    forall x :: x !in hs ==> (x in ix <==> x in ix')
  }

  /** There is nothing to join: the entry is indexed, or already cut. */
  ghost predicate NoNeed(u: map<Hash, Entry>, ix: Index, h: Hash) {
    h in ix || (h in u && AlreadyCut(ix, u[h]))
  }

  /** There is no need to join what `h` points to, and each of these entries is indexed or has a block. */
  ghost predicate Found(u: map<Hash, Entry>, ix: Index, blocks: set<Hash>, h: Hash)
    requires h in u
  {
    forall n :: n in u[h].next ==> NoNeed(u, ix, n) && (n in ix || n in blocks)
  }

  /** What of the ancestors of `h` is not indexed are no cuts. */
  ghost predicate AppendsCome(u: map<Hash, Entry>, ix: Index, h: Hash)
    requires Universe(u) && h in u
  {
    forall a :: a in Ancestors(u, h) && a !in ix && a in u ==> u[a].kind.APPEND?
  }

  lemma AppendsComeBelow(u: map<Hash, Entry>, ix: Index, ix': Index, h: Hash, n: Hash)
    requires Universe(u) && h in u && n in u && AppendsCome(u, ix, h) && ix.Keys <= ix'.Keys
    requires Ancestors(u, n) <= Ancestors(u, h)
    ensures AppendsCome(u, ix', n)
  {
  }

  // ---------- Flags while entries only come ----------

  ghost predicate Grown(ix: Index, ix': Index) {
    ix.Keys <= ix'.Keys && forall x :: x in ix ==> ix'[x].entry == ix[x].entry
  }

  /** Something that has come, and is no cut, points to `x`. */
  ghost predicate NewPoints(ix: Index, ix': Index, x: Hash) {
    exists y :: y in ix' && y !in ix && ix'[y].entry.kind.APPEND? && x in ix'[y].entry.next
  }

  /** Entries have come, and have taken the flag from exactly those of before that they point to. */
  ghost predicate Demotes(ix: Index, ix': Index) {
    Grown(ix, ix') && forall x :: x in ix ==> (ix'[x].head <==> ix[x].head && !NewPoints(ix, ix', x))
  }

  /** None of those that have come is a head. */
  ghost predicate NoNewHeads(ix: Index, ix': Index) {
    forall x :: x in ix' && x !in ix ==> !ix'[x].head
  }

  /** Each of them, but perhaps those of `loose`, is pointed to by another. */
  ghost predicate Settles(ix: Index, ix': Index, loose: set<Hash>) {
    forall x :: x in ix' && x !in ix && x !in loose ==> NewPoints(ix, ix', x)
  }

  /** What the join of `h` does while no cuts come: apart from `h` nothing that comes is a head, and if
      the join succeeds something that comes points to it. */
  ghost predicate Came(ix: Index, ix': Index, h: Hash, isHead: bool, r: Result) {
    && Demotes(ix, ix')
    && (r.Ok? ==> Settles(ix, ix', {h}))
    && (forall x :: x in ix' && x !in ix ==>
          if x == h then r.Ok? && ix'[x].head == isHead && !NewPoints(ix, ix', h) else !ix'[x].head)
  }

  lemma NewPointsOnce(ix: Index, ix': Index, x: Hash)
    requires Grown(ix, ix')
    ensures AppendPointsTo(ix', x) <==> AppendPointsTo(ix, x) || NewPoints(ix, ix', x)
  {
    if AppendPointsTo(ix, x) {
      var y :| y in ix && ix[y].entry.kind.APPEND? && x in ix[y].entry.next;
      assert y in ix';
    }
  }

  lemma NewPointsTwice(ix: Index, ix': Index, ix'': Index, x: Hash)
    requires Grown(ix, ix') && Grown(ix', ix'')
    ensures NewPoints(ix, ix'', x) <==> NewPoints(ix, ix', x) || NewPoints(ix', ix'', x)
  {
    if NewPoints(ix, ix', x) {
      var y :| y in ix' && y !in ix && ix'[y].entry.kind.APPEND? && x in ix'[y].entry.next;
      assert y in ix'';
    }
    if NewPoints(ix', ix'', x) {
      var y :| y in ix'' && y !in ix' && ix''[y].entry.kind.APPEND? && x in ix''[y].entry.next;
      assert y !in ix;
    }
  }

  lemma NothingCame(ix: Index, h: Hash, isHead: bool, r: Result)
    ensures Demotes(ix, ix) && NoNewHeads(ix, ix) && Settles(ix, ix, {}) && Came(ix, ix, h, isHead, r)
  {
  }

  lemma DemotesTwice(ix: Index, ix': Index, ix'': Index)
    requires Demotes(ix, ix') && Demotes(ix', ix'')
    ensures Demotes(ix, ix'')
  {
    hide NewPoints;
    forall x | x in ix
      ensures ix''[x].head <==> ix[x].head && !NewPoints(ix, ix'', x)
    {
      NewPointsTwice(ix, ix', ix'', x);
    }
  }

  /** The join of one more of the entries that `h` points to. */
  lemma CameNext(ix: Index, ix': Index, ix'': Index, n: Hash, loose: set<Hash>, r: Result)
    requires Demotes(ix, ix') && NoNewHeads(ix, ix') && Settles(ix, ix', loose) && Came(ix', ix'', n, false, r)
    ensures Demotes(ix, ix'') && NoNewHeads(ix, ix'') && (r.Ok? ==> Settles(ix, ix'', loose + {n}))
  {
    hide NewPoints;
    DemotesTwice(ix, ix', ix'');
    forall x | x in ix'' && x !in ix
      ensures !ix''[x].head
      ensures r.Ok? && x !in loose + {n} ==> NewPoints(ix, ix'', x)
    {
      NewPointsTwice(ix, ix', ix'', x);
    }
  }

  /** Putting `h` settles all that it points to. */
  lemma {:induction false} CamePut(u: map<Hash, Entry>, ix: Index, ix': Index, h: Hash, isHead: bool)
    requires Universe(u) && h in u && h !in ix' && u[h].kind.APPEND? && EntriesOf(u, ix')
    requires Demotes(ix, ix') && NoNewHeads(ix, ix') && Settles(ix, ix', Hashes(u[h].next))
    requires Touches(ix, ix', Ancestors(u, h) - {h})
    ensures Came(ix, Put(ix', u[h], isHead), h, isHead, Ok)
  {
    var ix'' := Put(ix', u[h], isHead);
    CamePutItself(u, ix, ix', h, isHead);
    PutDemotes(u, ix', h, isHead);
    DemotesTwice(ix, ix', ix'');
    hide *;
    forall x | x in ix'' && x !in ix && x != h
      ensures !ix''[x].head && NewPoints(ix, ix'', x)
    {
      CamePutOther(u, ix, ix', h, isHead, x);
    }
    IsCame(ix, ix'', h, isHead);
  }

  lemma IsCame(ix: Index, ix': Index, h: Hash, isHead: bool)
    requires Demotes(ix, ix') && h in ix' && ix'[h].head == isHead && !NewPoints(ix, ix', h)
    requires forall x :: x in ix' && x !in ix && x != h ==> !ix'[x].head && NewPoints(ix, ix', x)
    ensures Came(ix, ix', h, isHead, Ok)
  {
    hide NewPoints;
  }

  lemma {:induction false} CamePutItself(u: map<Hash, Entry>, ix: Index, ix': Index, h: Hash, isHead: bool)
    requires Universe(u) && h in u && h !in ix' && u[h].kind.APPEND? && EntriesOf(u, ix')
    requires Touches(ix, ix', Ancestors(u, h) - {h})
    ensures var ix'' := Put(ix', u[h], isHead);
            ix''.Keys == ix'.Keys + {h} && ix''[h].head == isHead && !NewPoints(ix, ix'', h)
  {
    PutSize(ix', u[h], isHead);
    PutNewPoints(u, ix', h, isHead, h);
    PutRecord(ix', u[h], isHead, h);
    hide Put, NewPoints, Ancestors;
    NotToItself(u, ix, ix', Put(ix', u[h], isHead), h);
  }

  lemma CamePutOther(u: map<Hash, Entry>, ix: Index, ix': Index, h: Hash, isHead: bool, x: Hash)
    requires Universe(u) && h in u && h !in ix' && u[h].kind.APPEND?
    requires Demotes(ix, ix') && NoNewHeads(ix, ix') && Settles(ix, ix', Hashes(u[h].next))
    requires x in ix' && x !in ix && x != h
    ensures var ix'' := Put(ix', u[h], isHead); x in ix'' && !ix''[x].head && NewPoints(ix, ix'', x)
  {
    var ix'' := Put(ix', u[h], isHead);
    PutSize(ix', u[h], isHead);
    PutNewPoints(u, ix', h, isHead, x);
    PutRecord(ix', u[h], isHead, x);
    hide Put, NewPoints;
    NewPointsTwice(ix, ix', ix'', x);
  }

  lemma DemotesGrows(ix: Index, ix': Index)
    requires Demotes(ix, ix')
    ensures Grown(ix, ix')
  {
  }

  lemma PutNewPoints(u: map<Hash, Entry>, ix: Index, h: Hash, isHead: bool, x: Hash)
    requires Universe(u) && h in u && h !in ix && u[h].kind.APPEND?
    ensures NewPoints(ix, Put(ix, u[h], isHead), x) <==> x in u[h].next
    ensures h !in u[h].next && Grown(ix, Put(ix, u[h], isHead))
  {
    var ix' := Put(ix, u[h], isHead);
    PutSize(ix, u[h], isHead);
    assert h !in u[h].next;
    assert ix'[h].entry == u[h];
  }

  lemma PutDemotes(u: map<Hash, Entry>, ix: Index, h: Hash, isHead: bool)
    requires Universe(u) && h in u && h !in ix && u[h].kind.APPEND?
    ensures Demotes(ix, Put(ix, u[h], isHead)) && h !in u[h].next
  {
    var ix' := Put(ix, u[h], isHead);
    PutSize(ix, u[h], isHead);
    hide Put, NewPoints;
    PutNewPoints(u, ix, h, isHead, h);
    forall x | x in ix
      ensures ix'[x].head <==> ix[x].head && !NewPoints(ix, ix', x)
    {
      PutRecord(ix, u[h], isHead, x);
      PutNewPoints(u, ix, h, isHead, x);
    }
  }

  /** No ancestor of `h` points to it. */
  lemma {:induction false} NotToItself(u: map<Hash, Entry>, ix: Index, ix': Index, ix'': Index, h: Hash)
    requires Universe(u) && h in u && EntriesOf(u, ix') && Touches(ix, ix', Ancestors(u, h) - {h})
    requires ix''.Keys == ix'.Keys + {h} && Grown(ix', ix'') && ix''[h].entry == u[h]
    ensures !NewPoints(ix, ix'', h)
  {
    AncestorsExist(u, h);
    hide Ancestors;
    forall y | y in ix'' && y !in ix
      ensures h !in ix''[y].entry.next
    {
      assert ix''[y].entry == u[y];
    }
  }

  // ---------- The join of one entry ----------

  /** The entries `gone` have been deleted one by one, and no others. */
  ghost predicate DeletedAs(ix: Index, ix': Index, gone: set<Hash>) {
    exists hs :: Hashes(hs) == gone && ix' == Deleted(ix, hs)
  }

  /** What a cut that has been put into `put` leaves: all but what is below it, and nothing that stays,
      other than cuts, has lost what it points to; nothing loses its flag. */
  ghost predicate CutDone(u: map<Hash, Entry>, put: Index, store: map<Hash, Entry>, cut: Hash, ix: Index)
    requires Universe(u) && cut in u
  {
    && DeletedAs(put, ix, Below(u, put, store, cut))
    && ix.Keys == put.Keys - Below(u, put, store, cut) && cut in ix
    && (HeadsFree(put) ==> HeadsFree(ix))
    && (forall x :: x in ix && x in put && put[x].head ==> ix[x].head)
    && forall x, d :: x in ix && x in u && u[x].kind.APPEND? && d in u[x].next && d in put ==> d in ix
  }

  /** What one turn of `joinRecursively` does, in any log: where there is no need for it nothing; heads
      stay free of pointers, but for what is put as a head while something points to it; and what is
      put alone is just put. */
  ghost predicate Turn(u: map<Hash, Entry>, ix: Index, h: Hash, isHead: bool, ix': Index, r: Result)
    requires Universe(u) && h in u
  {
    && (NoNeed(u, ix, h) ==> r.Ok? && ix' == ix)
    && Touches(ix, ix', Ancestors(u, h)) && (r.Ok? ==> NoNeed(u, ix, h) || h in ix')
    && (HeadsFree(ix) ==> (HeadsFree(ix') <==> !(r.Ok? && isHead && !NoNeed(u, ix, h) && AppendPointsTo(ix, h))))
    && (AppendsCome(u, ix, h) ==> Came(ix, ix', h, isHead, r))
    && (r.Ok? && !NoNeed(u, ix, h) && u[h].kind.APPEND? && (forall n :: n in u[h].next ==> NoNeed(u, ix, n)) ==>
          ix' == Put(ix, u[h], isHead))
    && (Found(u, ix, {}, h) ==> r.Ok?)
  }

  /** What the turn of a cut does, with the blocks there are: it puts the cut, and deletes what is below it. */
  ghost predicate CutTurn(u: map<Hash, Entry>, ix: Index, store: map<Hash, Entry>, h: Hash, isHead: bool,
                          ix': Index, store': map<Hash, Entry>, r: Result)
    requires Universe(u) && h in u
  {
    u[h].kind.CUT? && !NoNeed(u, ix, h) ==>
      var put, blocks := Put(ix, u[h], isHead), store[h := u[h]];
      r.Ok? && CutDone(u, put, blocks, h, ix') && store' == blocks - Below(u, put, blocks, h)
  }

  /** The same, while the first `i` entries that `h` points to have been joined. */
  ghost predicate TurnSoFar(u: map<Hash, Entry>, ix: Index, h: Hash, i: nat, ix': Index)
    requires Universe(u) && h in u && i <= |u[h].next|
  {
    && Touches(ix, ix', Ancestors(u, h) - {h})
    && (HeadsFree(ix) ==> HeadsFree(ix'))
    && (AppendsCome(u, ix, h) ==>
          Demotes(ix, ix') && NoNewHeads(ix, ix') && Settles(ix, ix', Hashes(u[h].next[..i])))
    && ((forall j :: 0 <= j < i ==> NoNeed(u, ix, u[h].next[j])) ==> ix' == ix)
  }

  lemma TurnNoNeed(u: map<Hash, Entry>, ix: Index, h: Hash, isHead: bool)
    requires Universe(u) && h in u && NoNeed(u, ix, h)
    ensures Turn(u, ix, h, isHead, ix, Ok)
  {
    hide NoNeed, AppendPointsTo, HeadsFree, AppendsCome, Ancestors;
    NothingCame(ix, h, isHead, Ok);
  }

  /** Exactly what is not let in: an entry that a later cut of the same graph, which is a head, points to.
      A cut of another graph stops nothing. */
  lemma CutStaysOut(u: map<Hash, Entry>, ix: Index, h: Hash, isHead: bool, ix': Index)
    requires Universe(u) && h in u && Turn(u, ix, h, isHead, ix', Ok)
    ensures h in ix' <==> h in ix || !exists v ::
              && v in ix && ix[v].head && ix[v].entry.kind.CUT? && ix[v].entry.gid == u[h].gid
              && h in ix[v].entry.next
              && (|| u[h].time.wallTime < ix[v].entry.time.wallTime
                  || (u[h].time.wallTime == ix[v].entry.time.wallTime
                      && u[h].time.logical < ix[v].entry.time.logical))
  {
    hide Touches, HeadsFree, AppendPointsTo, AppendsCome, Came, Found, Put;
    assert u[h].hash == h;
  }

  lemma TurnStarts(u: map<Hash, Entry>, ix: Index, h: Hash)
    requires Universe(u) && h in u
    ensures TurnSoFar(u, ix, h, 0, ix)
  {
    hide NoNeed, HeadsFree, AppendsCome, Ancestors;
    NothingCame(ix, h, false, Ok);
  }

  /** If the join of the next one fails, `h` or an entry before was not found. */
  lemma NextNotFound(u: map<Hash, Entry>, ix: Index, h: Hash, i: nat, ix': Index, ix'': Index, r: Result)
    requires Universe(u) && h in u && i < |u[h].next| && TurnSoFar(u, ix, h, i, ix') && u[h].next[i] in u
    requires Turn(u, ix', u[h].next[i], false, ix'', r)
    ensures r.MissingEntry? ==> forall blocks :: !Found(u, ix, blocks, h)
  {
    hide NoNeed, Universe, Touches, HeadsFree, AppendPointsTo, AppendsCome, Came;
    forall blocks
      ensures r.MissingEntry? ==> !Found(u, ix, blocks, h)
    {
      assert u[h].next[i] in u[h].next && forall j :: 0 <= j < i ==> u[h].next[j] in u[h].next;
    }
  }

  /** The next one has been joined, or that has failed. */
  lemma TurnNext(u: map<Hash, Entry>, ix: Index, h: Hash, isHead: bool, i: nat, ix': Index, ix'': Index, r: Result)
    requires Universe(u) && h in u && i < |u[h].next| && TurnSoFar(u, ix, h, i, ix') && !NoNeed(u, ix, h)
    requires u[h].next[i] in u && Turn(u, ix', u[h].next[i], false, ix'', r)
    ensures r.Ok? ==> TurnSoFar(u, ix, h, i + 1, ix'')
    ensures r.MissingEntry? ==> Turn(u, ix, h, isHead, ix'', r) && forall blocks :: !Found(u, ix, blocks, h)
  {
    var n := u[h].next[i];
    assert n in u[h].next;
    hide NoNeed, AppendPointsTo, HeadsFree, AppendsCome, Ancestors, NewPoints, Hashes, Settles, Demotes, NoNewHeads,
         Universe, Came, Found;
    NextNotFound(u, ix, h, i, ix', ix'', r);
    NextBelow(u, h, n);
    AncestorsExist(u, n);
    NextIsBefore(u, h, n);
    TouchesNext(u, ix, ix', ix'', h, n);
    TurnNextCame(u, ix, h, isHead, i, ix', ix'', r);
  }

  lemma NextIsBefore(u: map<Hash, Entry>, h: Hash, n: Hash)
    requires Universe(u) && h in u && n in u[h].next
    ensures n in u && Before(u[n].time, u[h].time)
  {
  }

  lemma TurnNextCame(u: map<Hash, Entry>, ix: Index, h: Hash, isHead: bool, i: nat, ix': Index, ix'': Index, r: Result)
    requires Universe(u) && h in u && i < |u[h].next| && TurnSoFar(u, ix, h, i, ix')
    requires u[h].next[i] in u && Turn(u, ix', u[h].next[i], false, ix'', r)
    requires h !in ix && Touches(ix, ix'', Ancestors(u, h) - {h})
    ensures AppendsCome(u, ix, h) && r.Ok? ==>
              Demotes(ix, ix'') && NoNewHeads(ix, ix'') && Settles(ix, ix'', Hashes(u[h].next[..i + 1]))
    ensures AppendsCome(u, ix, h) && r.MissingEntry? ==> Came(ix, ix'', h, isHead, r)
  {
    var n := u[h].next[i];
    assert n in u[h].next;
    hide NoNeed, AppendPointsTo, HeadsFree, AppendsCome, Ancestors, NewPoints, Hashes, Settles, NoNewHeads, Universe,
         Came, Found;
    if AppendsCome(u, ix, h) {
      NextBelow(u, h, n);
      HashesStep(u[h].next, i);
      AppendsComeBelow(u, ix, ix', h, n);
      CameNext(ix, ix', ix'', n, Hashes(u[h].next[..i]), r);
      if r.MissingEntry? {
        CameFailed(ix, ix'', h, isHead, r);
      }
    }
  }

  lemma CameFailed(ix: Index, ix': Index, h: Hash, isHead: bool, r: Result)
    requires Demotes(ix, ix') && NoNewHeads(ix, ix') && h !in ix' && r.MissingEntry?
    ensures Came(ix, ix', h, isHead, r)
  {
  }

  lemma TouchesNext(u: map<Hash, Entry>, ix: Index, ix': Index, ix'': Index, h: Hash, n: Hash)
    requires Universe(u) && h in u && n in u && Ancestors(u, n) <= Ancestors(u, h) && Before(u[n].time, u[h].time)
    requires forall a :: a in Ancestors(u, n) && a != n ==> a in u && Before(u[a].time, u[n].time)
    requires Touches(ix, ix', Ancestors(u, h) - {h}) && Touches(ix', ix'', Ancestors(u, n))
    ensures Touches(ix, ix'', Ancestors(u, h) - {h})
  {
    hide Ancestors, Universe;
    assert h !in Ancestors(u, n);
  }

  /** The next one has no block. */
  lemma TurnMissing(u: map<Hash, Entry>, ix: Index, h: Hash, isHead: bool, i: nat, ix': Index, m: Hash)
    requires Universe(u) && h in u && i < |u[h].next| && TurnSoFar(u, ix, h, i, ix') && !NoNeed(u, ix, h)
    requires u[h].next[i] !in ix'
    ensures Turn(u, ix, h, isHead, ix', MissingEntry(m))
  {
    hide NoNeed, AppendPointsTo, HeadsFree, AppendsCome, Ancestors, NewPoints, Settles, Demotes, Universe;
  }

  lemma TurnPutTouches(u: map<Hash, Entry>, ix: Index, h: Hash, isHead: bool, ix': Index, store: map<Hash, Entry>,
                       ix'': Index)
    requires Universe(u) && h in u && Touches(ix, ix', Ancestors(u, h) - {h})
    requires u[h].kind.APPEND? ==> ix'' == Put(ix', u[h], isHead)
    requires u[h].kind.CUT? ==> CutDone(u, Put(ix', u[h], isHead), store, h, ix'')
    ensures Touches(ix, ix'', Ancestors(u, h)) && h in ix''
  {
    var put := Put(ix', u[h], isHead);
    PutSize(ix', u[h], isHead);
    OwnAncestor(u, h);
    BelowIsProper(u, put, store, h);
    DoomedAreAncestors(u, put, store, h);
  }

  /** What points to `h` is neither among its ancestors, nor deleted by it. */
  lemma {:induction false} PointersStay(u: map<Hash, Entry>, ix: Index, ix': Index, h: Hash)
    requires Universe(u) && h in u && EntriesOf(u, ix) && EntriesOf(u, ix') && Touches(ix, ix', Ancestors(u, h))
    ensures AppendPointsTo(ix, h) ==> exists y :: y in ix' && PointsTo(ix', y, h)
    ensures AppendPointsTo(ix, h) <==> AppendPointsTo(ix', h)
  {
    AncestorsExist(u, h);
    hide Ancestors;
    forall y | y in ix || y in ix'
      ensures PointsTo(ix, y, h) <==> PointsTo(ix', y, h)
    {
      if y in u && h in u[y].next {
        assert Before(u[h].time, u[y].time);
        assert y !in Ancestors(u, h);
      }
    }
    assert AppendPointsTo(ix, h) ==> exists y :: y in ix && PointsTo(ix, y, h);
    assert AppendPointsTo(ix', h) ==> exists y :: y in ix' && PointsTo(ix', y, h);
  }

  lemma TurnPutHeads(u: map<Hash, Entry>, ix: Index, h: Hash, isHead: bool, ix': Index, store: map<Hash, Entry>,
                     ix'': Index)
    requires Universe(u) && h in u && h !in ix' && HeadsFree(ix') && h in ix''
    requires EntriesOf(u, ix) && EntriesOf(u, ix') && EntriesOf(u, ix'')
    requires Touches(ix, ix', Ancestors(u, h)) && Touches(ix, ix'', Ancestors(u, h))
    requires u[h].kind.APPEND? ==> ix'' == Put(ix', u[h], isHead)
    requires u[h].kind.CUT? ==> CutDone(u, Put(ix', u[h], isHead), store, h, ix'')
    ensures HeadsFree(ix'') <==> !(isHead && AppendPointsTo(ix, h))
  {
    PointersStay(u, ix, ix', h);
    PointersStay(u, ix, ix'', h);
    assert h !in u[h].next;
    PutExact(ix', u[h], isHead);
    PutSize(ix', u[h], isHead);
    PutRecord(ix', u[h], isHead, h);
    hide Ancestors, AppendPointsTo, Put, Below, Universe;
  }

  lemma TurnPutCame(u: map<Hash, Entry>, ix: Index, h: Hash, isHead: bool, ix': Index)
    requires Universe(u) && h in u && h !in ix && EntriesOf(u, ix') && AppendsCome(u, ix, h)
    requires u[h].kind.APPEND? ==> TurnSoFar(u, ix, h, |u[h].next|, ix')
    ensures u[h].kind.APPEND? && Came(ix, Put(ix', u[h], isHead), h, isHead, Ok)
  {
    OwnAncestor(u, h);
    assert u[h].next[..|u[h].next|] == u[h].next;
    hide Came, Demotes, Settles, NoNewHeads, Put;
    CamePut(u, ix, ix', h, isHead);
  }

  /** `h` itself has been put, and what it cuts has been deleted. */
  lemma TurnPut(u: map<Hash, Entry>, ix: Index, h: Hash, isHead: bool, ix': Index, store: map<Hash, Entry>, ix'': Index)
    requires Universe(u) && h in u && !NoNeed(u, ix, h) && EntriesOf(u, ix')
    requires TurnSoFar(u, ix, h, if u[h].kind.APPEND? then |u[h].next| else 0, ix')
    requires EntriesOf(u, ix) && EntriesOf(u, ix'')
    requires u[h].kind.APPEND? ==> ix'' == Put(ix', u[h], isHead)
    requires u[h].kind.CUT? ==> CutDone(u, Put(ix', u[h], isHead), store, h, ix'')
    ensures Turn(u, ix, h, isHead, ix'', Ok)
  {
    TurnPutTouches(u, ix, h, isHead, ix', store, ix'');
    hide AppendPointsTo, HeadsFree, AppendsCome, Ancestors, NewPoints, Settles, Demotes, Universe, Put, CutDone, Came,
         EntriesOf, AlreadyCut;
    if HeadsFree(ix) {
      TurnPutHeads(u, ix, h, isHead, ix', store, ix'');
    }
    if AppendsCome(u, ix, h) {
      TurnPutCame(u, ix, h, isHead, ix');
    }
    TurnPutAlone(u, ix, h, ix');
  }

  lemma TurnPutAlone(u: map<Hash, Entry>, ix: Index, h: Hash, ix': Index)
    requires Universe(u) && h in u && TurnSoFar(u, ix, h, if u[h].kind.APPEND? then |u[h].next| else 0, ix')
    ensures u[h].kind.APPEND? && (forall n :: n in u[h].next ==> NoNeed(u, ix, n)) ==> ix' == ix
  {
    hide NoNeed;
  }

  // ---------- The steps of a turn ----------

  /** The first `i` entries that `h` points to have been joined; `ok` says that the log is one without cuts. */
  ghost predicate Progress(ok: bool, u: map<Hash, Entry>, ix: Index, blocks: set<Hash>, h: Hash, i: nat,
                           pending: set<Hash>,
                           ix': Index, blocks': set<Hash>)
    requires Universe(u) && h in u && i <= |u[h].next|
  {
    && TurnSoFar(u, ix, h, i, ix') && (ok ==> SoFar(u, ix, blocks, h, i, pending, ix', blocks'))
    && ((forall j :: 0 <= j < i ==> NoNeed(u, ix, u[h].next[j])) ==> blocks' == blocks)
  }

  /** Where there is no need to join an entry, that is what its join comes to. */
  lemma Needed(ok: bool, u: map<Hash, Entry>, ix: Index, blocks: set<Hash>, entry: Entry, isHead: bool,
               pending: set<Hash>)
    requires Universe(u) && entry.hash in u && u[entry.hash] == entry
    requires ok ==> AppendOnly(u) && Holds(u, ix) && Flags(u, ix, pending)
    ensures NoNeed(u, ix, entry.hash) <==> entry.hash in ix || AlreadyCut(ix, entry)
    ensures NoNeed(u, ix, entry.hash) ==> Turn(u, ix, entry.hash, isHead, ix, Ok)
    ensures ok && NoNeed(u, ix, entry.hash) ==> JoinResult(u, ix, blocks, entry.hash, isHead, pending, ix, blocks, Ok)
    ensures ok ==> entry.kind.APPEND?
  {
    hide AlreadyCut, Turn, JoinResult, Holds, Flags, Universe;
    NeverCut(ok, u, ix, entry);
    if NoNeed(u, ix, entry.hash) {
      TurnNoNeed(u, ix, entry.hash, isHead);
      ResultBefore(ok, u, ix, blocks, entry.hash, isHead, pending);
    }
  }

  lemma ProgressStarts(ok: bool, u: map<Hash, Entry>, ix: Index, blocks: set<Hash>, h: Hash, pending: set<Hash>)
    requires Universe(u) && h in u && (ok ==> Holds(u, ix) && Flags(u, ix, pending))
    ensures Progress(ok, u, ix, blocks, h, 0, pending, ix, blocks)
  {
    TurnStarts(u, ix, h);
    SoFarNothing(ok, u, ix, blocks, h, pending);
  }

  lemma ProgressHolds(ok: bool, u: map<Hash, Entry>, ix: Index, blocks: set<Hash>, h: Hash, i: nat, pending: set<Hash>,
                      ix': Index, blocks': set<Hash>)
    requires Universe(u) && h in u && i <= |u[h].next| && Progress(ok, u, ix, blocks, h, i, pending, ix', blocks')
    ensures ok ==> Holds(u, ix') && Flags(u, ix', pending + Hashes(u[h].next[..i])) && blocks' == blocks
  {
    SoFarHolds(ok, u, ix, blocks, h, i, pending, ix', blocks');
  }

  lemma ProgressMissing(ok: bool, u: map<Hash, Entry>, ix: Index, blocks: set<Hash>, h: Hash, isHead: bool, i: nat,
                        pending: set<Hash>,
                        ix': Index, blocks': set<Hash>)
    requires Universe(u) && h in u && i < |u[h].next| && Progress(ok, u, ix, blocks, h, i, pending, ix', blocks')
             && !NoNeed(u, ix, h)
    requires var n := u[h].next[i]; n in u && n !in ix' && n !in blocks'
    ensures Turn(u, ix, h, isHead, ix', MissingEntry(u[h].next[i])) && !Found(u, ix, blocks, h)
    ensures ok ==> JoinResult(u, ix, blocks, h, isHead, pending, ix', blocks', MissingEntry(u[h].next[i]))
  {
    hide Turn, SoFar, JoinResult, Universe;
    TurnMissing(u, ix, h, isHead, i, ix', u[h].next[i]);
    SoFarMissing(ok, u, ix, blocks, h, isHead, i, pending, ix', blocks');
  }

  lemma SoFarUnchanged(u: map<Hash, Entry>, ix: Index, h: Hash, i: nat, ix': Index)
    requires Universe(u) && h in u && i <= |u[h].next| && TurnSoFar(u, ix, h, i, ix')
    ensures (forall j :: 0 <= j < i ==> NoNeed(u, ix, u[h].next[j])) ==> ix' == ix
  {
  }

  lemma ProgressNext(ok: bool, u: map<Hash, Entry>, ix: Index, blocks: set<Hash>, h: Hash, isHead: bool, i: nat,
                     pending: set<Hash>,
                     ix': Index, blocks': set<Hash>, ix'': Index, blocks'': set<Hash>, r: Result)
    requires Universe(u) && h in u && i < |u[h].next| && Progress(ok, u, ix, blocks, h, i, pending, ix', blocks')
             && !NoNeed(u, ix, h)
    requires u[h].next[i] in u && (u[h].next[i] in blocks' || u[h].next[i] in ix')
    requires Turn(u, ix', u[h].next[i], false, ix'', r)
    requires ok ==> JoinResult(u, ix', blocks', u[h].next[i], false, pending + Hashes(u[h].next[..i]), ix'', blocks'',
                               r)
    requires NoNeed(u, ix', u[h].next[i]) ==> blocks'' == blocks'
    ensures r.Ok? ==> Progress(ok, u, ix, blocks, h, i + 1, pending, ix'', blocks'')
    ensures r.MissingEntry? ==> Turn(u, ix, h, isHead, ix'', r) && !Found(u, ix, blocks, h)
    ensures ok && r.MissingEntry? ==> JoinResult(u, ix, blocks, h, isHead, pending, ix'', blocks'', r)
  {
    TurnIdle(u, ix', u[h].next[i], false, ix'', r);
    SoFarUnchanged(u, ix, h, i, ix');
    hide Turn, TurnSoFar, SoFar, JoinResult, NoNeed, Found, Universe;
    TurnNext(u, ix, h, isHead, i, ix', ix'', r);
    SoFarNext(ok, u, ix, blocks, h, isHead, i, pending, ix', blocks', ix'', blocks'', r);
  }

  lemma ProgressPut(ok: bool, u: map<Hash, Entry>, ix: Index, blocks: set<Hash>, h: Hash, isHead: bool,
                    pending: set<Hash>,
                    ix': Index, blocks': set<Hash>, store: map<Hash, Entry>, ix'': Index)
    requires Universe(u) && h in u && !NoNeed(u, ix, h) && EntriesOf(u, ix) && EntriesOf(u, ix') && EntriesOf(u, ix'')
    requires Progress(ok, u, ix, blocks, h, if u[h].kind.APPEND? then |u[h].next| else 0, pending, ix', blocks')
    requires ok ==> u[h].kind.APPEND?
    requires u[h].kind.APPEND? ==> ix'' == Put(ix', u[h], isHead)
    requires u[h].kind.CUT? ==> CutDone(u, Put(ix', u[h], isHead), store, h, ix'')
    ensures Turn(u, ix, h, isHead, ix'', Ok)
    ensures ok ==> JoinResult(u, ix, blocks, h, isHead, pending, ix'', blocks' + {h}, Ok)
  {
    hide Turn, TurnSoFar, SoFar, JoinResult, Put, CutDone;
    TurnPut(u, ix, h, isHead, ix', store, ix'');
    ResultPut(ok, u, ix, blocks, h, isHead, pending, ix', blocks');
  }

  // ---------- Turn by turn ----------

  /** The result of turn `i` of a join with the result `r`: only the last turn can fail. */
  function TurnResult(turns: seq<Index>, i: nat, r: Result): Result {
    if i + 2 < |turns| then Ok else r
  }

  /** The indices between which the turns of the loop of `join` over the entries `es` lead. */
  ghost predicate Turns(u: map<Hash, Entry>, es: seq<Entry>, turns: seq<Index>, r: Result)
    requires Universe(u) && Known(u, es)
  {
    && 0 < |turns| <= |es| + 1 && (r.Ok? ==> |turns| == |es| + 1)
    && (forall i :: 0 <= i < |turns| ==> EntriesOf(u, turns[i]))
    && forall i :: 0 <= i < |turns| - 1 ==>
         Turn(u, turns[i], es[i].hash, IsHead(es, es[i].hash), turns[i + 1], TurnResult(turns, i, r))
  }

  /** The turns of cuts, with the blocks there are between the turns. */
  ghost predicate CutTurns(u: map<Hash, Entry>, es: seq<Entry>, turns: seq<Index>, stores: seq<map<Hash, Entry>>,
                           r: Result)
    requires Universe(u) && Known(u, es)
  {
    && |stores| == |turns| <= |es| + 1
    && forall i :: 0 <= i < |turns| - 1 ==>
         CutTurn(u, turns[i], stores[i], es[i].hash, IsHead(es, es[i].hash), turns[i + 1], stores[i + 1],
                 TurnResult(turns, i, r))
  }

  lemma NoCutTurns(u: map<Hash, Entry>, es: seq<Entry>, ix: Index, store: map<Hash, Entry>, r: Result)
    requires Universe(u) && Known(u, es)
    ensures CutTurns(u, es, [ix], [store], r)
  {
  }

  lemma CutTurnsMore(u: map<Hash, Entry>, es: seq<Entry>, turns: seq<Index>, stores: seq<map<Hash, Entry>>,
                     ix': Index, store': map<Hash, Entry>, r: Result)
    requires Universe(u) && Known(u, es) && CutTurns(u, es, turns, stores, Ok) && 0 < |turns| <= |es|
    requires var k, e := |turns| - 1, es[|turns| - 1];
             CutTurn(u, turns[k], stores[k], e.hash, IsHead(es, e.hash), ix', store', r)
    ensures CutTurns(u, es, turns + [ix'], stores + [store'], r)
  {
    hide CutTurn, Universe, IsHead;
    var more, blocks := turns + [ix'], stores + [store'];
    assert forall i :: 0 <= i < |turns| ==> more[i] == turns[i] && blocks[i] == stores[i];
  }

  /** So far all has gone well, in any log. */
  ghost predicate RunsWell(u: map<Hash, Entry>, es: seq<Entry>, turns: seq<Index>, stores: seq<map<Hash, Entry>>)
    requires Universe(u) && Known(u, es)
  {
    TurnsSoFar(u, es, turns) && CutTurns(u, es, turns, stores, Ok)
  }

  lemma RunsOn(u: map<Hash, Entry>, es: seq<Entry>, turns: seq<Index>, stores: seq<map<Hash, Entry>>, i: nat,
               ix': Index, store': map<Hash, Entry>, r: Result)
    requires Universe(u) && Known(u, es) && RunsWell(u, es, turns, stores) && i + 1 == |turns| == |stores| <= |es|
    requires EntriesOf(u, ix') && Turn(u, turns[i], es[i].hash, IsHead(es, es[i].hash), ix', r)
    requires CutTurn(u, turns[i], stores[i], es[i].hash, IsHead(es, es[i].hash), ix', store', r)
    ensures r.Ok? ==> RunsWell(u, es, turns + [ix'], stores + [store'])
    ensures r.MissingEntry? ==> Turns(u, es, turns + [ix'], r) && CutTurns(u, es, turns + [ix'], stores + [store'], r)
    ensures es[i].hash in turns[i] ==> NoNeed(u, turns[i], es[i].hash) && r.Ok? && ix' == turns[i]
  {
    hide Turn, CutTurn, TurnsSoFar, CutTurns, Turns, IsHead, EntriesOf, Universe;
    TurnsMore(u, es, turns, ix', r);
    CutTurnsMore(u, es, turns, stores, ix', store', r);
    TurnIdle(u, turns[i], es[i].hash, IsHead(es, es[i].hash), ix', r);
  }

  lemma RunsEnd(u: map<Hash, Entry>, es: seq<Entry>, turns: seq<Index>, stores: seq<map<Hash, Entry>>)
    requires Universe(u) && Known(u, es) && RunsWell(u, es, turns, stores) && |turns| == |es| + 1
    ensures Turns(u, es, turns, Ok) && CutTurns(u, es, turns, stores, Ok)
  {
    hide CutTurns, TurnsSoFar, Turns;
    TurnsEnd(u, es, turns);
  }

  /** A turn in a log without cuts: it fails exactly if an ancestor is nowhere to be found. */
  ghost predicate CleanTurn(u: map<Hash, Entry>, blocks: set<Hash>, ix: Index, h: Hash, isHead: bool, ix': Index,
                            r: Result)
    requires Universe(u) && h in u
  {
    && Holds(u, ix) && Holds(u, ix') && h in blocks
    && (h !in ix ==> Puts(u, ix, blocks, h, isHead, ix', r))
    && (r.Ok? <==> Ancestors(u, h) <= ix.Keys + blocks)
    && (r.Ok? ==> ix'.Keys == ix.Keys + Ancestors(u, h))
  }

  ghost predicate CleanTurns(u: map<Hash, Entry>, blocks: set<Hash>, es: seq<Entry>, turns: seq<Index>, r: Result)
    requires Universe(u) && Known(u, es)
  {
    && 0 < |turns| <= |es| + 1
    && forall i :: 0 <= i < |turns| - 1 ==>
         CleanTurn(u, blocks, turns[i], es[i].hash, IsHead(es, es[i].hash), turns[i + 1], TurnResult(turns, i, r))
  }

  /** `turns` are the first of them: so far all has gone well. */
  ghost predicate TurnsSoFar(u: map<Hash, Entry>, es: seq<Entry>, turns: seq<Index>)
    requires Universe(u) && Known(u, es)
  {
    && 0 < |turns| <= |es| + 1 && (forall i :: 0 <= i < |turns| ==> EntriesOf(u, turns[i]))
    && forall i :: 0 <= i < |turns| - 1 ==> Turn(u, turns[i], es[i].hash, IsHead(es, es[i].hash), turns[i + 1], Ok)
  }

  lemma TurnsMore(u: map<Hash, Entry>, es: seq<Entry>, turns: seq<Index>, ix': Index, r: Result)
    requires Universe(u) && Known(u, es) && TurnsSoFar(u, es, turns) && |turns| <= |es| && EntriesOf(u, ix')
    requires var e := es[|turns| - 1]; Turn(u, turns[|turns| - 1], e.hash, IsHead(es, e.hash), ix', r)
    ensures r.Ok? ==> TurnsSoFar(u, es, turns + [ix'])
    ensures r.MissingEntry? ==> Turns(u, es, turns + [ix'], r)
  {
    hide Turn, EntriesOf, Universe, IsHead;
    var more := turns + [ix'];
    assert forall i :: 0 <= i < |turns| ==> more[i] == turns[i];
  }

  lemma TurnsEnd(u: map<Hash, Entry>, es: seq<Entry>, turns: seq<Index>)
    requires Universe(u) && Known(u, es) && TurnsSoFar(u, es, turns) && |turns| == |es| + 1
    ensures Turns(u, es, turns, Ok)
  {
    hide Turn, EntriesOf, Universe, IsHead;
  }

  lemma CleanTurnsMore(u: map<Hash, Entry>, blocks: set<Hash>, es: seq<Entry>, turns: seq<Index>, ix': Index, r: Result)
    requires Universe(u) && Known(u, es) && CleanTurns(u, blocks, es, turns, Ok) && |turns| <= |es|
    requires var e := es[|turns| - 1]; CleanTurn(u, blocks, turns[|turns| - 1], e.hash, IsHead(es, e.hash), ix', r)
    ensures CleanTurns(u, blocks, es, turns + [ix'], r)
  {
    hide CleanTurn, Universe, IsHead;
    var more := turns + [ix'];
    assert forall i :: 0 <= i < |turns| ==> more[i] == turns[i];
  }

  lemma IsCleanTurn(u: map<Hash, Entry>, blocks: set<Hash>, ix: Index, h: Hash, isHead: bool, pending: set<Hash>,
                    ix': Index, blocks': set<Hash>, r: Result)
    requires Universe(u) && h in u && Holds(u, ix) && h in blocks
    requires JoinResult(u, ix, blocks, h, isHead, pending, ix', blocks', r)
             && (h in ix ==> blocks' == blocks && r.Ok? && ix' == ix)
    ensures CleanTurn(u, blocks, ix, h, isHead, ix', r) && blocks' == blocks
  {
    hide Universe, Ancestors, Puts, Flags, Closed;
    match r
    case Ok =>
      assert blocks + {h} == blocks;
      if h in ix {
        assert Closed(u, ix.Keys);
        ClosedHasAncestors(u, ix.Keys, h);
      } else {
        JoinPuts(u, ix, blocks, h, isHead, ix', r);
      }
    case MissingEntry(m) =>
      assert blocks + {} == blocks;
      assert m in Ancestors(u, h);
  }

  lemma JoinPuts(u: map<Hash, Entry>, ix: Index, blocks: set<Hash>, h: Hash, isHead: bool, ix': Index, r: Result)
    requires Universe(u) && h in u && Puts(u, ix, blocks, h, isHead, ix', r) && h in blocks
    ensures ix'.Keys <= ix.Keys + blocks
  {
  }
  // ---------- The loop of `join` ----------

  lemma TurnIdle(u: map<Hash, Entry>, ix: Index, h: Hash, isHead: bool, ix': Index, r: Result)
    requires Universe(u) && h in u && Turn(u, ix, h, isHead, ix', r)
    ensures h in ix ==> NoNeed(u, ix, h) && r.Ok? && ix' == ix
  {
  }

  /** An entry to be found by its hash was not. */
  lemma NotFound(ok: bool, u: map<Hash, Entry>, ix: Index, store: map<Hash, Entry>, js: seq<Joinable>,
                 blocks: set<Hash>,
                 pending: set<Hash>, m: Hash)
    requires Universe(u) && EntriesOf(u, ix) && Known(u, ToJoin(ix, store, js))
    requires ByHash(m) in js && m !in ix && m !in store
    ensures Turns(u, ToJoin(ix, store, js), [ix], MissingEntry(m))
    ensures ok ==> CleanTurns(u, blocks, ToJoin(ix, store, js), [ix], MissingEntry(m))
    ensures ok ==> JoinOutcome(u, ix, store.Keys, js, pending, ix, MissingEntry(m))
  {
  }

  /** In a log without cuts, after the first `i` entries. */
  ghost predicate JoinSoFar(u: map<Hash, Entry>, blocks: set<Hash>, js: seq<Joinable>, es: seq<Entry>,
                            turns: seq<Index>, i: nat,
                            pending: set<Hash>, blocks': set<Hash>)
    requires Universe(u) && Known(u, es) && |turns| == i + 1 <= |es| + 1
  {
    && HashesOf(js) <= u.Keys && EntriesDone(u, HashesOf(js), turns[0], turns[i], es, i, pending)
    && CleanTurns(u, blocks, es, turns, Ok) && blocks' == blocks
  }

  lemma CollectedIs(u: map<Hash, Entry>, ix: Index, store: map<Hash, Entry>, js: seq<Joinable>, es: seq<Entry>,
                    references: map<Hash, Entry>)
    requires Collected(u, ix, store, js, |js|, es, references)
    ensures es == ToJoin(ix, store, js)
  {
    assert js[..|js|] == js;
  }

  lemma JoinStart(ok: bool, u: map<Hash, Entry>, ix: Index, store: map<Hash, Entry>, js: seq<Joinable>, es: seq<Entry>,
                  references: map<Hash, Entry>, pending: set<Hash>)
    requires Universe(u) && Known(u, es) && EntriesOf(u, ix) && Collected(u, ix, store, js, |js|, es, references)
    requires ok ==> Holds(u, ix) && Flags(u, ix, pending)
    ensures RunsWell(u, es, [ix], [store])
    ensures ok ==> JoinSoFar(u, store.Keys + BroughtBy(js), js, es, [ix], 0, pending, store.Keys + references.Keys)
  {
    hide HashesOf, BroughtBy, EntriesDone, Holds, Flags, ToJoin, Known, EntriesOf, Universe;
    assert js[..|js|] == js;
    NoCutTurns(u, es, ix, store, Ok);
    if ok {
      EntriesStart(u, ix, store, js, es, references, pending);
    }
  }

  lemma JoinPending(ok: bool, u: map<Hash, Entry>, blocks: set<Hash>, js: seq<Joinable>, es: seq<Entry>,
                    turns: seq<Index>, i: nat,
                    pending: set<Hash>, blocks': set<Hash>) returns (pending': set<Hash>)
    requires Universe(u) && Known(u, es) && |turns| == i + 1 <= |es| + 1
    requires ok ==> JoinSoFar(u, blocks, js, es, turns, i, pending, blocks')
    ensures ok ==> HashesOf(js) <= u.Keys && pending' == pending + Inner(u, HashesOf(js))
    ensures ok ==> Holds(u, turns[i]) && Flags(u, turns[i], pending')
  {
    pending' := {};
    if ok {
      pending' := pending + Inner(u, HashesOf(js));
      EntriesDoneHold(u, HashesOf(js), turns[0], turns[i], es, i, pending);
    }
  }

  /** One more turn. */
  lemma JoinTurn(ok: bool, u: map<Hash, Entry>, ix': Index, store: map<Hash, Entry>, blocks: set<Hash>,
                 js: seq<Joinable>,
                 es: seq<Entry>, turns: seq<Index>, i: nat, references: map<Hash, Entry>, heads: map<Hash, bool>,
                 pending: set<Hash>,
                 blocks': set<Hash>, blocks'': set<Hash>, r: Result)
    requires Universe(u) && Known(u, es) && |turns| == i + 1 <= |es| && BlocksOf(u, store)
             && blocks == store.Keys + BroughtBy(js)
    requires Collected(u, turns[0], store, js, |js|, es, references) && heads == Marked(es) && HeadsOf(heads, es, |es|)
    requires ok ==> JoinSoFar(u, blocks, js, es, turns, i, pending, blocks') && HashesOf(js) <= u.Keys
    requires ok ==> JoinResult(u, turns[i], blocks', es[i].hash, IsHead(es, es[i].hash),
                               pending + Inner(u, HashesOf(js)), ix', blocks'', r)
    requires es[i].hash in turns[i] ==> r.Ok? && ix' == turns[i] && blocks'' == blocks'
    ensures ok && r.Ok? ==> JoinSoFar(u, blocks, js, es, turns + [ix'], i + 1, pending, blocks'')
    ensures ok && r.MissingEntry? ==> CleanTurns(u, blocks, es, turns + [ix'], r)
    ensures ok && r.MissingEntry? ==> JoinOutcome(u, turns[0], store.Keys, js, pending, ix', r)
  {
    if ok {
      var h, hs := es[i].hash, HashesOf(js);
      var pending' := JoinPending(ok, u, blocks, js, es, turns, i, pending, blocks');
      TurnBlocks(u, turns[0], store, js, es, i, references, heads);
      hide HashesOf, BroughtBy, EntriesDone, CleanTurns, CleanTurn, Collected, HeadsOf, Marked, IsHead, Known,
           BlocksOf, Outcome, Puts;
      hide Universe, Holds, Flags, Inner, JoinOutcome;
      IsCleanTurn(u, blocks, turns[i], h, IsHead(es, h), pending', ix', blocks'', r);
      CleanTurnsMore(u, blocks, es, turns, ix', r);
      EntriesTurn(u, turns[0], turns[i], ix', store, blocks, js, es, i, references, heads, pending, r);
    }
  }

  lemma TurnBlocks(u: map<Hash, Entry>, ix: Index, store: map<Hash, Entry>, js: seq<Joinable>, es: seq<Entry>, i: nat,
                   references: map<Hash, Entry>, heads: map<Hash, bool>)
    requires Universe(u) && BlocksOf(u, store) && i < |es| && Collected(u, ix, store, js, |js|, es, references)
    requires heads == Marked(es) && HeadsOf(heads, es, |es|)
    ensures store.Keys + BroughtBy(js) == store.Keys + references.Keys && es[i].hash in store.Keys + references.Keys
    ensures es[i].hash in heads && heads[es[i].hash] == IsHead(es, es[i].hash)
  {
    assert js[..|js|] == js;
    ToJoinHasBlocks(u, ix, store, js, i);
    CollectedEntryKnown(u, ix, store, js, es, i, references, heads);
  }

  lemma JoinEnd(ok: bool, u: map<Hash, Entry>, store: map<Hash, Entry>, blocks: set<Hash>, js: seq<Joinable>,
                es: seq<Entry>,
                turns: seq<Index>, references: map<Hash, Entry>, pending: set<Hash>, blocks': set<Hash>)
    requires Universe(u) && Known(u, es) && |turns| == |es| + 1
             && Collected(u, turns[0], store, js, |js|, es, references)
    requires ok ==> Holds(u, turns[0]) && JoinSoFar(u, blocks, js, es, turns, |es|, pending, blocks')
    ensures ok ==> CleanTurns(u, blocks, es, turns, Ok)
    ensures ok ==> JoinOutcome(u, turns[0], store.Keys, js, pending, turns[|es|], Ok)
  {
    if ok {
      hide HashesOf, EntriesDone, CleanTurns, Collected, Known, Holds, Universe, JoinOutcome;
      EntriesEnd(u, turns[0], turns[|es|], store, js, es, references, pending);
    }
  }
}
