/** Runs of a log in which the head flags do not come to what one may expect. */
module LogWitnesses {
  import opened LogEntries
  import opened EntryIndexes
  import opened LogJoins
  import opened LogFailures
  import opened LogCuts
  import opened LogTurns
  import opened LogExacts
  import opened Logs
  import opened FailedJoins

  lemma Single(ix: Index, h: Hash)
    requires ix.Keys == {h}
    ensures ix == map[h := ix[h]]
  {
  }

  /** A cut that has been put into an empty log. */
  lemma CutAlone(u: map<Hash, Entry>, v: Entry, store: map<Hash, Entry>, ix: Index)
    requires Universe(u) && v.hash in u && u[v.hash] == v && v.kind.CUT? && EntriesOf(u, ix)
    requires CutDone(u, Put(map[], v, true), store, v.hash, ix)
    ensures ix == Put(map[], v, true)
  {
    assert Put(map[], v, true) == map[v.hash := ShallowEntry(v, true)];
    hide Below, HeadsFree;
    assert ix.Keys == {v.hash};
    Single(ix, v.hash);
  }

  /** Which of two entries are to be heads. */
  lemma MarkedTwo(a: Entry, c: Entry)
    requires a.hash != c.hash && a.hash !in a.next && c.hash !in c.next && c.hash !in a.next
    ensures IsHead([a, c], c.hash) && (IsHead([a, c], a.hash) <==> a.hash !in c.next)
  {
    var es := [a, c];
    MarkedNothing(es);
    MarkedStep(es, 0);
    MarkedStep(es, 1);
    UnmarkedHas(map[a.hash := true], a.next);
    UnmarkedHas(Marked(es[..1])[c.hash := true], c.next);
    assert es[..2] == es;
  }

  lemma JoinTwo(ix: Index, store: map<Hash, Entry>, a: Entry, c: Entry)
    ensures ToJoin(ix, store, [ByEntry(a), ByEntry(c)]) == [a, c]
    ensures BroughtBy([ByEntry(a), ByEntry(c)]) == {a.hash, c.hash}
  {
    var js := [ByEntry(a), ByEntry(c)];
    ToJoinStep(ix, store, js, 0);
    ToJoinStep(ix, store, js, 1);
    assert js[..0] == [] && js[..2] == js;
    assert js[0] in js && js[1] in js && a in js[0].Brings() && c in js[1].Brings();
  }

  // ---------- Cuts ----------

  ghost predicate CutStory(a: Entry, e: Entry, v: Entry, w: Entry, u: map<Hash, Entry>) {
    && u == map[a.hash := a, e.hash := e, v.hash := v, w.hash := w]
    && a.hash != e.hash && a.hash != v.hash && a.hash != w.hash && e.hash != v.hash && e.hash != w.hash
       && v.hash != w.hash
    && a.kind.APPEND? && e.kind.APPEND? && v.kind.CUT? && w.kind.APPEND?
    && a.next == [] && e.next == [a.hash] && w.next == [v.hash]
    && Before(a.time, e.time) && Before(v.time, w.time) && Before(e.time, v.time)
  }

  /** An entry that is put alone: all it points to is there, or is cut and has a block. */
  lemma TurnAlone(u: map<Hash, Entry>, ix: Index, blocks: set<Hash>, h: Hash, isHead: bool, ix': Index, r: Result)
    requires Universe(u) && h in u && u[h].kind.APPEND? && Turn(u, ix, h, isHead, ix', r)
    requires !NoNeed(u, ix, h) && Found(u, ix, blocks, h) && (Found(u, ix, blocks, h) ==> r.Ok?)
    ensures r.Ok? && ix' == Put(ix, u[h], isHead)
  {
  }

  lemma StoryIsKnown(a: Entry, e: Entry, v: Entry, w: Entry, u: map<Hash, Entry>)
    requires CutStory(a, e, v, w, u) && (v.next == [a.hash] || v.next == [e.hash])
    ensures Universe(u) && a.hash in u && e.hash in u && v.hash in u && w.hash in u
    ensures u[a.hash] == a && u[e.hash] == e && u[v.hash] == v && u[w.hash] == w
    ensures EntriesOf(u, map[]) && BlocksOf(u, map[]) && BlocksOf(u, map[a.hash := a])
    ensures a.kind.APPEND? && e.kind.APPEND? && v.kind.CUT? && w.kind.APPEND?
    ensures KnownInputs(u, [ByEntry(a), ByEntry(e)])
  {
  }

  lemma ReturnsPuts(a: Entry, e: Entry, v: Entry, w: Entry, u: map<Hash, Entry>)
    requires CutStory(a, e, v, w, u) && v.next == [a.hash]
    ensures var i1 := Put(map[], v, true);
            && i1 == map[v.hash := ShallowEntry(v, true)]
            && Put(Put(i1, e, true), w, true) ==
               map[v.hash := ShallowEntry(v, false), e.hash := ShallowEntry(e, true), w.hash := ShallowEntry(w, true)]
  {
    var i1 := Put(map[], v, true);
    assert i1 == map[v.hash := ShallowEntry(v, true)];
    assert Put(i1, e, true) == map[v.hash := ShallowEntry(v, true), e.hash := ShallowEntry(e, true)];
  }

  lemma ReturnsSteps(a: Entry, e: Entry, v: Entry, w: Entry, u: map<Hash, Entry>, blocks: set<Hash>)
    requires CutStory(a, e, v, w, u) && v.next == [a.hash] && a.gid == v.gid && a.hash in blocks
    ensures var i1 := Put(map[], v, true);
            var i3 := Put(Put(i1, e, true), w, true);
            && !NoNeed(u, i1, e.hash) && Found(u, i1, blocks, e.hash)
            && !NoNeed(u, i3, a.hash) && Found(u, i3, {}, a.hash)
  {
    ReturnsPuts(a, e, v, w, u);
    hide Put;
    assert IsCutBy(Put(map[], v, true), a, v.hash);
  }

  lemma ReturnsInTheEnd(a: Entry, e: Entry, v: Entry, w: Entry, u: map<Hash, Entry>)
    requires CutStory(a, e, v, w, u) && v.next == [a.hash]
    ensures var i4 := Put(Put(Put(Put(map[], v, true), e, true), w, true), a, true);
            a.hash in i4 && i4[a.hash].head && AppendPointsTo(i4, a.hash)
  {
    ReturnsPuts(a, e, v, w, u);
    var i3 := Put(Put(Put(map[], v, true), e, true), w, true);
    var i4 := Put(i3, a, true);
    assert i4 == i3[a.hash := ShallowEntry(a, true)];
    assert e.hash in i4 && i4[e.hash].entry == e;
  }

  lemma FoundMore(u: map<Hash, Entry>, ix: Index, blocks: set<Hash>, h: Hash)
    requires h in u && Found(u, ix, {}, h)
    ensures Found(u, ix, blocks, h)
  {
  }

  lemma HasBlock(store: map<Hash, Entry>, a: Entry)
    ensures a.hash in store.Keys + map[a.hash := a].Keys
  {
  }

  /** An entry `a` has been cut. Another on top of it is joined, and then one on top of the cut, which is
      no head any more; now `a` comes back as a head, though something points to it. */
  method ReturnsAsHead(a: Entry, e: Entry, v: Entry, w: Entry, ghost u: map<Hash, Entry>) returns (index: Index)
    requires CutStory(a, e, v, w, u) && v.next == [a.hash] && a.gid == v.gid
    ensures a.hash in index && index[a.hash].head && AppendPointsTo(index, a.hash)
  {
    hide *;
    StoryIsKnown(a, e, v, w, u);
    var log := new Log();
    log.PutAndProcess(v, false, true, u);
    CutAlone(u, v, map[][v.hash := v], log.entryIndex.index);
    ghost var i1, blocks := log.entryIndex.index, log.entryIndex.store.Keys + map[a.hash := a].Keys;
    HasBlock(log.entryIndex.store, a);
    ReturnsSteps(a, e, v, w, u, blocks);
    var r := log.JoinRecursively(e, true, map[a.hash := a], u, {});
    TurnAlone(u, i1, blocks, e.hash, true, log.entryIndex.index, r);
    log.PutAndProcess(w, false, true, u);
    ghost var i3 := log.entryIndex.index;
    var none: map<Hash, Entry> := map[];
    FoundMore(u, i3, log.entryIndex.store.Keys + none.Keys, a.hash);
    r := log.JoinRecursively(a, true, none, u, {});
    TurnAlone(u, i3, {}, a.hash, true, log.entryIndex.index, r);
    ReturnsInTheEnd(a, e, v, w, u);
    index := log.entryIndex.index;
  }

  /** The join of one cut that there is need for: it leaves the old index with the cut and without what is below
      it, deleted entry by entry, and likewise the blocks. */
  method JoinCut(log: Log, v: Entry, ghost u: map<Hash, Entry>) returns (r: Result)
    requires log.entryIndex.Valid() && Universe(u) && v.hash in u && u[v.hash] == v && v.kind.CUT?
    requires EntriesOf(u, log.entryIndex.index) && BlocksOf(u, log.entryIndex.store)
    requires !NoNeed(u, log.entryIndex.index, v.hash)
    modifies log.entryIndex
    ensures r.Ok? && log.entryIndex.Valid()
    ensures var put, store := old(log.entryIndex.index)[v.hash := ShallowEntry(v, true)],
            old(log.entryIndex.store)[v.hash := v];
            var gone := Below(u, put, store, v.hash);
            && log.entryIndex.index.Keys == old(log.entryIndex.index.Keys) + {v.hash} - gone
            && DeletedAs(put, log.entryIndex.index, gone) && log.entryIndex.store == store - gone
  {
    ghost var turns, stores;
    ghost var ix, store := log.entryIndex.index, log.entryIndex.store;
    OneCut(u, ix, store, v);
    hide *;
    r, turns, stores := log.Join([ByEntry(v)], u, {});
    OneCutTurn(u, v, turns, stores, r);
  }

  lemma OneCut(u: map<Hash, Entry>, ix: Index, store: map<Hash, Entry>, v: Entry)
    requires Universe(u) && v.hash in u && u[v.hash] == v && v.kind.CUT?
    ensures ToJoin(ix, store, [ByEntry(v)]) == [v] && Known(u, [v]) && KnownInputs(u, [ByEntry(v)])
            && IsHead([v], v.hash)
    ensures Put(ix, v, true) == ix[v.hash := ShallowEntry(v, true)]
    ensures Put(ix, v, true).Keys == ix.Keys + {v.hash}
  {
    OneIsHead(u, v);
    var js := [ByEntry(v)];
    ToJoinStep(ix, store, js, 0);
    assert js[..0] == [] && js[..1] == js;
  }

  lemma OneCutTurn(u: map<Hash, Entry>, v: Entry, turns: seq<Index>, stores: seq<map<Hash, Entry>>, r: Result)
    requires Universe(u) && v.hash in u && u[v.hash] == v && v.kind.CUT? && Known(u, [v]) && IsHead([v], v.hash)
    requires Turns(u, [v], turns, r) && CutTurns(u, [v], turns, stores, r) && !NoNeed(u, turns[0], v.hash)
    requires |turns| == 1 && r.MissingEntry? ==> ByHash(r.hash) in [ByEntry(v)]
    ensures |turns| == 2 && r.Ok?
    ensures var put, store := Put(turns[0], v, true), stores[0][v.hash := v];
            CutDone(u, put, store, v.hash, turns[1]) && stores[1] == store - Below(u, put, store, v.hash)
    ensures var put := Put(turns[0], v, true);
            var gone := Below(u, put, stores[0][v.hash := v], v.hash);
            turns[1].Keys == put.Keys - gone && DeletedAs(put, turns[1], gone)
  {
    assert |turns| == 2;
    hide NoNeed, IsHead, Universe, Put, Below, HeadsFree;
    assert CutTurn(u, turns[0], stores[0], v.hash, IsHead([v], v.hash), turns[1], stores[1], TurnResult(turns, 0, r));
  }

  lemma HidesSteps(a: Entry, e: Entry, v: Entry, w: Entry, u: map<Hash, Entry>)
    requires CutStory(a, e, v, w, u) && v.next == [e.hash] && e.gid == v.gid
    ensures var i1 := Put(map[], v, true);
            var i2 := Put(i1, a, false);
            && FlagsExact(i1) && i2.Keys == i1.Keys + {a.hash} && a.hash !in i1
            && !i2[a.hash].head && !AppendPointsTo(i2, a.hash)
            && !NoNeed(u, i1, a.hash) && Found(u, i1, {}, a.hash) && NoNeed(u, i2, e.hash)
    ensures !IsHead([a, e], a.hash) && Known(u, [a, e])
  {
    var i1 := Put(map[], v, true);
    assert i1 == map[v.hash := ShallowEntry(v, true)];
    var i2 := Put(i1, a, false);
    assert i2 == map[v.hash := ShallowEntry(v, true), a.hash := ShallowEntry(a, false)];
    MarkedTwo(a, e);
    assert IsCutBy(i2, e, v.hash);
  }

  lemma HidesTurns(a: Entry, e: Entry, u: map<Hash, Entry>, turns: seq<Index>, r: Result)
    requires Universe(u) && a.hash in u && e.hash in u && u[a.hash] == a && u[e.hash] == e && a.kind.APPEND?
    requires Known(u, [a, e]) && Turns(u, [a, e], turns, r)
    requires |turns| == 1 && r.MissingEntry? ==> ByHash(r.hash) in [ByEntry(a), ByEntry(e)]
    requires !NoNeed(u, turns[0], a.hash) && Found(u, turns[0], {}, a.hash)
             && NoNeed(u, Put(turns[0], a, false), e.hash)
    requires !IsHead([a, e], a.hash)
    ensures r.Ok? && turns[|turns| - 1] == Put(turns[0], a, false)
  {
    assert |turns| > 1;
    assert Turn(u, turns[0], a.hash, false, turns[1], TurnResult(turns, 0, r));
    hide NoNeed, Found, IsHead, Put, Universe, EntriesOf, Touches, AppendsCome, HeadsFree, AppendPointsTo, Came, Known;
    TurnAlone(u, turns[0], {}, a.hash, false, turns[1], TurnResult(turns, 0, r));
    assert |turns| == 3;
    assert Turn(u, turns[1], e.hash, IsHead([a, e], e.hash), turns[2], TurnResult(turns, 1, r));
  }

  /** A cut of `e` is the one head. Joining `a` and `e`, which is on top of it, marks `a` as no head, and
      then passes over `e`, which is cut already: `a` is no head, though nothing points to it, and nothing
      has been deleted. */
  method CutHidesHead(a: Entry, e: Entry, v: Entry, w: Entry, ghost u: map<Hash, Entry>)
    returns (r: Result, before: Index, index: Index)
    requires CutStory(a, e, v, w, u) && v.next == [e.hash] && e.gid == v.gid
    ensures r.Ok? && FlagsExact(before) && a.hash !in before && index.Keys == before.Keys + {a.hash}
    ensures !index[a.hash].head && !AppendPointsTo(index, a.hash)
  {
    hide *;
    StoryIsKnown(a, e, v, w, u);
    HidesSteps(a, e, v, w, u);
    var log := new Log();
    log.PutAndProcess(v, false, true, u);
    CutAlone(u, v, map[][v.hash := v], log.entryIndex.index);
    before := log.entryIndex.index;
    JoinTwo(before, log.entryIndex.store, a, e);
    ghost var turns, stores;
    r, turns, stores := log.Join([ByEntry(a), ByEntry(e)], u, {});
    HidesTurns(a, e, u, turns, r);
    index := log.entryIndex.index;
  }
  // ---------- Joins that fail ----------

  ghost predicate LossStory(a: Entry, b: Entry, c: Entry, u: map<Hash, Entry>) {
    && u == map[a.hash := a, b.hash := b, c.hash := c]
    && a.hash != b.hash && a.hash != c.hash && b.hash != c.hash
    && a.kind.APPEND? && b.kind.APPEND? && c.kind.APPEND? && a.next == [] && b.next == []
    && Before(a.time, c.time) && Before(b.time, c.time) && (c.next == [b.hash] || c.next == [a.hash, b.hash])
  }

  lemma LossIsKnown(a: Entry, b: Entry, c: Entry, u: map<Hash, Entry>)
    requires LossStory(a, b, c, u)
    ensures Universe(u) && AppendOnly(u) && Holds(u, map[]) && Flags(u, map[], {}) && EntriesOf(u, map[])
            && BlocksOf(u, map[])
    ensures a.hash in u && c.hash in u && u[a.hash] == a && u[c.hash] == c
    ensures Known(u, [a, c]) && Known(u, [c]) && KnownInputs(u, [ByEntry(a), ByEntry(c)])
    ensures KnownInputs(u, [WithReferences(c, [a])])
  {
  }

  lemma LossAvailable(a: Entry, b: Entry, c: Entry, u: map<Hash, Entry>)
    requires LossStory(a, b, c, u) && Universe(u)
    ensures Ancestors(u, a.hash) == {a.hash} && b.hash in Ancestors(u, c.hash)
    ensures FailsAtOnce(u, {a.hash}, {a.hash, c.hash}, c.hash)
    ensures c.next == [a.hash, b.hash] ==> !FailsAtOnce(u, {}, {a.hash, c.hash}, c.hash)
    ensures IsHead([a, c], a.hash) <==> a.hash !in c.next
  {
    MarkedTwo(a, c);
    assert b.hash in u[c.hash].next;
    NextBelow(u, c.hash, b.hash);
    if c.next == [a.hash, b.hash] {
      FirstIs({a.hash}, c.next, 1);
      FirstIs({}, c.next, 0);
      NoneUnindexed({}, a.next);
    } else {
      FirstIs({a.hash}, c.next, 0);
    }
  }

  lemma LossTurns(a: Entry, b: Entry, c: Entry, u: map<Hash, Entry>, turns: seq<Index>, r: Result)
    requires LossStory(a, b, c, u) && Universe(u) && Known(u, [a, c]) && Turns(u, [a, c], turns, r) && turns[0] == map[]
    requires |turns| == 1 && r.MissingEntry? ==> ByHash(r.hash) in [ByEntry(a), ByEntry(c)]
    requires CleanTurns(u, {a.hash, c.hash}, [a, c], turns, r)
    ensures r.MissingEntry? && turns[|turns| - 1] == map[a.hash := ShallowEntry(a, a.hash !in c.next)]
  {
    var es, blocks := [a, c], {a.hash, c.hash};
    hide *;
    LossAvailable(a, b, c, u);
    LossKnown(a, b, c, u);
    PutFirst(a, IsHead(es, a.hash));
    TurnsBound(u, es, turns, r);
    EnoughTurns(u, es, turns, r);
    assert |turns| > 1;
    JoinFailsExactly(u, blocks, es, turns, r);
    LossFails(u, turns[0].Keys, blocks, es);
    assert |turns| == 3;
    FirstAlone(u, es, turns, r);
    assert turns[1].Keys == {a.hash};
    FailingTurn(u, blocks, es, turns, r.hash);
  }

  lemma LossKnown(a: Entry, b: Entry, c: Entry, u: map<Hash, Entry>)
    requires LossStory(a, b, c, u) && Universe(u)
    ensures AppendOnly(u) && a.hash in u && u[a.hash] == a && c.hash in u && a.next == []
    ensures !(Ancestors(u, c.hash) <= {a.hash, c.hash}) <== b.hash in Ancestors(u, c.hash)
  {
  }

  lemma PutFirst(a: Entry, isHead: bool)
    requires a.next == []
    ensures Put(map[], a, isHead) == map[a.hash := ShallowEntry(a, isHead)]
  {
  }

  lemma EnoughTurns(u: map<Hash, Entry>, es: seq<Entry>, turns: seq<Index>, r: Result)
    requires Universe(u) && Known(u, es) && Turns(u, es, turns, r)
    ensures r.Ok? ==> |turns| == |es| + 1
  {
  }

  /** The first entry points to nothing, and is put into an empty log. */
  lemma FirstAlone(u: map<Hash, Entry>, es: seq<Entry>, turns: seq<Index>, r: Result)
    requires Universe(u) && AppendOnly(u) && Known(u, es) && Turns(u, es, turns, r) && |turns| > 1 && turns[0] == map[]
    requires |turns| > 2 && es[0].next == []
    ensures turns[1] == Put(map[], es[0], IsHead(es, es[0].hash))
  {
    var h := es[0].hash;
    assert Turn(u, turns[0], h, IsHead(es, h), turns[1], TurnResult(turns, 0, r));
    hide Turns, Turn, IsHead, Universe, Put;
    TurnAlone(u, turns[0], {}, h, IsHead(es, h), turns[1], Ok);
  }

  lemma LossFails(u: map<Hash, Entry>, keys: set<Hash>, blocks: set<Hash>, es: seq<Entry>)
    requires Universe(u) && Known(u, es) && |es| == 2 && keys == {}
    requires Ancestors(u, es[0].hash) <= blocks && !(Ancestors(u, es[1].hash) <= blocks)
    ensures Available(u, keys, blocks, es, 0) && Available(u, keys, blocks, es, 1) && !Available(u, keys, blocks, es, 2)
  {
    assert keys + blocks == blocks;
  }

  /** A join that has put an entry and then fails, and leaves the flags right: the second of the entries
      points to a missing one. */
  method PutThenFailed(a: Entry, b: Entry, c: Entry, ghost u: map<Hash, Entry>) returns (r: Result, index: Index)
    requires LossStory(a, b, c, u) && c.next == [b.hash]
    ensures r.MissingEntry? && index == map[a.hash := ShallowEntry(a, true)] && FlagsExact(index)
  {
    r, index := LoseOne(a, b, c, u);
  }

  /** A join that leaves the flags wrong, though the turn that fails puts nothing: the second of the
      entries points to the first one too, which is therefore put as no head. */
  method MarkedThenFailed(a: Entry, b: Entry, c: Entry, ghost u: map<Hash, Entry>) returns (r: Result, index: Index)
    requires LossStory(a, b, c, u) && c.next == [a.hash, b.hash]
    ensures r.MissingEntry? && index == map[a.hash := ShallowEntry(a, false)] && !AppendPointsTo(index, a.hash)
  {
    r, index := LoseOne(a, b, c, u);
  }

  method LoseOne(a: Entry, b: Entry, c: Entry, ghost u: map<Hash, Entry>) returns (r: Result, index: Index)
    requires LossStory(a, b, c, u)
    ensures r.MissingEntry? && index == map[a.hash := ShallowEntry(a, a.hash !in c.next)]
  {
    hide *;
    LossIsKnown(a, b, c, u);
    var log := new Log();
    JoinTwo(log.entryIndex.index, log.entryIndex.store, a, c);
    NoBlocks({a.hash, c.hash});
    ghost var turns, stores;
    r, turns, stores := log.Join([ByEntry(a), ByEntry(c)], u, {});
    LossTurns(a, b, c, u, turns, r);
    index := log.entryIndex.index;
  }

  lemma NoBlocks(blocks: set<Hash>)
    ensures var none: map<Hash, Entry> := map[]; none.Keys + blocks == blocks
  {
  }

  /** A join that leaves the flags wrong, of one entry: it points to two others, and only the first is
      handed over. That one is put, as no head, before the second is missed. */
  method HalfJoined(a: Entry, b: Entry, c: Entry, ghost u: map<Hash, Entry>) returns (r: Result, index: Index)
    requires LossStory(a, b, c, u) && c.next == [a.hash, b.hash]
    ensures r.MissingEntry? && index == map[a.hash := ShallowEntry(a, false)] && !AppendPointsTo(index, a.hash)
  {
    hide *;
    LossIsKnown(a, b, c, u);
    var log := new Log();
    JoinOne(log.entryIndex.index, log.entryIndex.store, a, c);
    NoBlocks({a.hash, c.hash});
    ghost var turns, stores;
    r, turns, stores := log.Join([WithReferences(c, [a])], u, {});
    HalfTurns(a, b, c, u, turns, r);
    index := log.entryIndex.index;
  }

  lemma JoinOne(ix: Index, store: map<Hash, Entry>, a: Entry, c: Entry)
    ensures ToJoin(ix, store, [WithReferences(c, [a])]) == [c]
    ensures BroughtBy([WithReferences(c, [a])]) == {a.hash, c.hash}
  {
    var js := [WithReferences(c, [a])];
    ToJoinStep(ix, store, js, 0);
    assert js[..0] == [] && js[..1] == js;
    assert js[0] in js && js[0].Brings() == [c, a] && a in js[0].Brings() && c in js[0].Brings();
  }

  lemma HalfTurns(a: Entry, b: Entry, c: Entry, u: map<Hash, Entry>, turns: seq<Index>, r: Result)
    requires LossStory(a, b, c, u) && c.next == [a.hash, b.hash] && Universe(u) && Known(u, [c]) && AppendOnly(u)
    requires Turns(u, [c], turns, r) && turns[0] == map[] && CleanTurns(u, {a.hash, c.hash}, [c], turns, r)
    requires |turns| == 1 && r.MissingEntry? ==> ByHash(r.hash) in [WithReferences(c, [a])]
    ensures r.MissingEntry? && turns[|turns| - 1] == map[a.hash := ShallowEntry(a, false)]
    ensures !AppendPointsTo(turns[|turns| - 1], a.hash)
  {
    var blocks := {a.hash, c.hash};
    assert |turns| == 2;
    LossAvailable(a, b, c, u);
    LossKnown(a, b, c, u);
    hide *;
    TheTurn(u, blocks, [c], turns, r, 0);
    OnlyTheLast(turns, r);
    NotFoundIn(u, blocks, [c], turns, r);
    assert turns[0].Keys == {};
    HalfIs(a, c, u, blocks, turns[1], IsHead([c], c.hash), r);
  }

  lemma NotFoundIn(u: map<Hash, Entry>, blocks: set<Hash>, es: seq<Entry>, turns: seq<Index>, r: Result)
    requires Universe(u) && AppendOnly(u) && Known(u, es) && |es| == 1 && |turns| == 2 && turns[0] == map[]
    requires Turns(u, es, turns, r) && CleanTurns(u, blocks, es, turns, r) && !(Ancestors(u, es[0].hash) <= blocks)
    ensures r.MissingEntry? && es[0].hash !in turns[1]
  {
    TheTurn(u, blocks, es, turns, r, 0);
    AppendsAlways(u, turns[0], es);
    TurnsCome(u, es, turns, r, 0);
    assert turns[0].Keys + blocks == blocks;
  }

  lemma HalfIs(a: Entry, c: Entry, u: map<Hash, Entry>, blocks: set<Hash>, ix: Index, isHead: bool, r: Result)
    requires Universe(u) && a.hash in u && c.hash in u && u[a.hash] == a && a.next == [] && blocks == {a.hash, c.hash}
    requires CleanTurn(u, blocks, map[], c.hash, isHead, ix, r) && r.MissingEntry?
             && !FailsAtOnce(u, {}, blocks, c.hash)
    requires c.hash !in ix
    ensures ix == map[a.hash := ShallowEntry(a, false)] && !AppendPointsTo(ix, a.hash)
  {
    var none: Index := map[];
    assert none.Keys == {};
    hide FailsAtOnce, Ancestors;
    assert ix != map[] && ix.Keys <= {a.hash};
    KeysOf(ix, a.hash);
  }

  lemma KeysOf(ix: Index, h: Hash)
    requires ix != map[] && ix.Keys <= {h}
    ensures ix.Keys == {h} && ix == map[h := ix[h]]
  {
    var x :| x in ix;
  }
}
