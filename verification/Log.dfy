/** The log: joining, and deleting recursively. */
module Logs {
  import opened LogEntries
  import opened EntryIndexes
  import opened LogJoins
  import opened LogFailures
  import opened LogCuts
  import opened LogTurns

  lemma DoomedAllPush(u: map<Hash, Entry>, ix: Index, store: map<Hash, Entry>, es: seq<Entry>, e: Entry)
    requires Universe(u) && Known(u, es) && e.hash in u && u[e.hash] == e
    ensures Known(u, es + [e])
    ensures DoomedAll(u, ix, store, es + [e]) == DoomedAll(u, ix, store, es) + Doomed(u, ix, store, e.hash)
    ensures StackWeight(u, es + [e]) == StackWeight(u, es) + Weight(u, e.hash)
  {
    assert (es + [e])[..|es + [e]| - 1] == es;
  }

  lemma DoomedAllPop(u: map<Hash, Entry>, ix: Index, store: map<Hash, Entry>, es: seq<Entry>)
    requires Universe(u) && Known(u, es) && |es| > 0
    ensures var e, rest := es[|es| - 1], es[..|es| - 1];
            && Known(u, rest) && e.hash in u && u[e.hash] == e
            && DoomedAll(u, ix, store, es) == DoomedAll(u, ix, store, rest) + Doomed(u, ix, store, e.hash)
            && StackWeight(u, es) == StackWeight(u, rest) + Weight(u, e.hash)
  {
  }

  /** The entries that a recursive deletion from `from` deletes, with or without the one it starts with. */
  ghost function AllDoomed(u: map<Hash, Entry>, ix: Index, store: map<Hash, Entry>, from: seq<Entry>,
                           skipFirst: bool): set<Hash>
    requires Universe(u) && Known(u, from)
  {
    if skipFirst && |from| > 0
    then DoomedAll(u, ix, store, from[..|from| - 1]) + Below(u, ix, store, from[|from| - 1].hash)
    else DoomedAll(u, ix, store, from)
  }

  lemma KnownIsKeyed(u: map<Hash, Entry>, ix: Index)
    requires Universe(u) && EntriesOf(u, ix)
    ensures Keyed(ix)
  {
  }

  lemma DeleteKnown(u: map<Hash, Entry>, ix: Index, store: map<Hash, Entry>, k: Hash)
    requires EntriesOf(u, ix) && BlocksOf(u, store)
    ensures Delete(ix, k).Keys == ix.Keys - {k}
    ensures EntriesOf(u, Delete(ix, k)) && BlocksOf(u, store - {k})
  {
    hide Delete;
    DeleteSize(ix, k);
  }

  /** What is left has not lost its flag. */
  ghost predicate HeadsStay(ix: Index, ix': Index) {
    forall x :: x in ix' && x in ix && ix[x].head ==> ix'[x].head
  }

  lemma HeadsStayed(ix: Index)
    ensures HeadsStay(ix, ix)
  {
  }

  lemma DeleteHeadsStay(ix: Index, ix': Index, k: Hash)
    requires HeadsStay(ix, ix') && ix'.Keys <= ix.Keys
    ensures HeadsStay(ix, Delete(ix', k))
  {
    forall x | x in Delete(ix', k)
      ensures x in ix' && (ix'[x].head ==> Delete(ix', k)[x].head)
    {
      DeleteRecord(ix', k, x);
    }
  }

  lemma PutKnown(u: map<Hash, Entry>, ix: Index, store: map<Hash, Entry>, entry: Entry, isHead: bool)
    requires EntriesOf(u, ix) && BlocksOf(u, store) && entry.hash in u && u[entry.hash] == entry
    ensures EntriesOf(u, Put(ix, entry, isHead)) && BlocksOf(u, store[entry.hash := entry])
  {
  }

  lemma NextKnown(u: map<Hash, Entry>, h: Hash, i: nat)
    requires Universe(u) && h in u && i < |u[h].next|
    ensures var n := u[h].next[i]; n in u && u[n].hash == n && Before(u[n].time, u[h].time)
  {
    assert u[h].next[i] in u[h].next;
  }

  lemma NestedKnown(u: map<Hash, Entry>, store: map<Hash, Entry>, references: map<Hash, Entry>, a: Hash)
    requires Universe(u) && a in u && BlocksOf(u, store) && BlocksOf(u, references) && (a in store || a in references)
    ensures var e := if a in references then references[a] else store[a];
            e.hash == a && u[a] == e
  {
  }

  lemma NoBlocksGone(store: map<Hash, Entry>, keys: set<Hash>)
    ensures store - ({} * keys) == store
  {
    assert {} * keys == {};
  }

  lemma BlockGone(store: map<Hash, Entry>, keys: set<Hash>, gone: set<Hash>, h: Hash)
    ensures store - ((gone + {h}) * keys) ==
            if h in keys - gone then store - (gone * keys) - {h} else store - (gone * keys)
  {
    if h in keys - gone {
      assert (gone + {h}) * keys == gone * keys + {h};
    } else {
      assert (gone + {h}) * keys == gone * keys;
    }
  }

  lemma DeleteStep(u: map<Hash, Entry>, ix: Index, ix': Index, store: map<Hash, Entry>, k: Hash)
    requires Universe(u) && EntriesOf(u, ix') && BlocksOf(u, store) && HeadsStay(ix, ix') && ix'.Keys <= ix.Keys
    ensures Keyed(ix') && Delete(ix', k).Keys == ix'.Keys - {k}
    ensures EntriesOf(u, Delete(ix', k)) && BlocksOf(u, store - {k}) && HeadsStay(ix, Delete(ix', k))
    ensures HeadsFree(ix') ==> HeadsFree(Delete(ix', k))
    ensures HeadsExact(ix') ==> HeadsExact(Delete(ix', k))
  {
    hide Delete, HeadsFree, HeadsExact, HeadsStay;
    KnownIsKeyed(u, ix');
    DeleteHeadsStay(ix, ix', k);
    DeleteKnown(u, ix', store, k);
    DeleteKeeps(ix', k);
  }

  lemma BelowHasBlocks(u: map<Hash, Entry>, ix: Index, store: map<Hash, Entry>, h: Hash)
    requires Universe(u) && h in u
    ensures Below(u, ix, store, h) * ix.Keys == Below(u, ix, store, h)
  {
    BelowIsProper(u, ix, store, h);
    DoomedAreAncestors(u, ix, store, h);
  }

  lemma IsDeletedAs(ix: Index, hs: seq<Hash>)
    ensures DeletedAs(ix, Deleted(ix, hs), Hashes(hs))
  {
  }

  lemma CutIsDone(u: map<Hash, Entry>, put: Index, store: map<Hash, Entry>, cut: Hash, ix: Index)
    requires Universe(u) && EntriesOf(u, put) && cut in put && u[cut].kind.CUT?
    requires ix.Keys == put.Keys - Below(u, put, store, cut)
    requires (HeadsFree(put) ==> HeadsFree(ix)) && HeadsStay(put, ix)
    requires DeletedAs(put, ix, Below(u, put, store, cut))
    ensures CutDone(u, put, store, cut, ix)
  {
    hide Below, HeadsFree;
    BelowIsProper(u, put, store, cut);
    forall x, d | x in ix && x in u && u[x].kind.APPEND? && d in u[x].next && d in put
      ensures d in ix
    {
      if d in Below(u, put, store, cut) {
        CutIsSafe(u, put, store, cut, d, x);
      }
    }
  }

  lemma BlocksMore(store: map<Hash, Entry>, references: map<Hash, Entry>, e: Entry)
    ensures store[e.hash := e].Keys + references.Keys == store.Keys + references.Keys + {e.hash}
  {
  }

  class Log {
    const entryIndex: EntryIndex

    constructor ()
      ensures fresh(entryIndex) && entryIndex.Valid() && entryIndex.index == map[] && entryIndex.store == map[]
    {
      entryIndex := new EntryIndex();
    }

    // ---------- Deleting recursively ----------

    /** The hashes that a recursive deletion has to delete: nothing is changed yet. */
    method PrepareDeleteRecursively(from: seq<Entry>, skipFirst: bool, ghost u: map<Hash, Entry>)
      returns (toDelete: seq<Hash>)
      requires Universe(u) && Known(u, from)
      requires EntriesOf(u, entryIndex.index) && BlocksOf(u, entryIndex.store)
      ensures Hashes(toDelete) == AllDoomed(u, entryIndex.index, entryIndex.store, from, skipFirst)
    {
      hide Doomed, DoomedAll, Below, BelowFirst, StackWeight, Weight, WeightOfNext, Universe, HasAlternative;
      ghost var ix, store := entryIndex.index, entryIndex.store;
      ghost var goal := AllDoomed(u, ix, store, from, skipFirst);
      var stack, counter := from, 0;
      toDelete := [];
      while |stack| > 0
        invariant Known(u, stack)
        invariant counter == 0 ==> stack == from && toDelete == []
        invariant counter > 0 ==> Hashes(toDelete) + DoomedAll(u, ix, store, stack) == goal
        decreases StackWeight(u, stack)
      {
        DoomedAllPop(u, ix, store, stack);
        ghost var before := stack;
        ghost var done := toDelete;
        var entry := stack[|stack| - 1];
        stack := stack[..|stack| - 1];
        ghost var rest := stack;
        BelowIsProper(u, ix, store, entry.hash);
        var skip := counter == 0 && skipFirst;
        if !skip {
          if entryIndex.Has(entry.hash) {
            toDelete := toDelete + [entry.hash];
          }
        }
        assert Hashes(toDelete) == Hashes(done) + if !skip && entry.hash in ix then {entry.hash} else {};
        BelowFirstAll(u, ix, store, entry.hash);
        for i := 0 to |entry.next|
          invariant Known(u, stack)
          invariant DoomedAll(u, ix, store, stack) ==
                    DoomedAll(u, ix, store, rest) + BelowFirst(u, ix, store, entry.hash, i)
          invariant StackWeight(u, stack) <= StackWeight(u, rest) + WeightOfNext(u, entry.hash, i)
        {
          var next := entry.next[i];
          BelowFirstStep(u, ix, store, entry.hash, i);
          WeightStep(u, entry.hash, i);
          if !HasAlternative(entryIndex.index, entry.hash, next) {
            if next in entryIndex.store {
              DoomedAllPush(u, ix, store, stack, entryIndex.store[next]);
              stack := stack + [entryIndex.store[next]];
            }
          }
        }
        WeightStep(u, entry.hash, |entry.next|);
        counter := counter + 1;
      }
      NoneDoomed(u, ix, store);
    }

    /** Deletes the entries of `hs`, in that order. */
    method DeleteAll(hs: seq<Hash>, ghost u: map<Hash, Entry>)
      requires entryIndex.Valid() && Universe(u) && EntriesOf(u, entryIndex.index) && BlocksOf(u, entryIndex.store)
      modifies entryIndex
      ensures entryIndex.Valid() && EntriesOf(u, entryIndex.index) && BlocksOf(u, entryIndex.store)
      ensures entryIndex.index.Keys == old(entryIndex.index.Keys) - Hashes(hs)
      ensures old(HeadsFree(entryIndex.index)) ==> HeadsFree(entryIndex.index)
      ensures old(HeadsExact(entryIndex.index)) ==> HeadsExact(entryIndex.index)
      ensures HeadsStay(old(entryIndex.index), entryIndex.index)
      ensures entryIndex.index == Deleted(old(entryIndex.index), hs)
      ensures entryIndex.store == old(entryIndex.store) - (Hashes(hs) * old(entryIndex.index.Keys))
    {
      hide *;
      NoHashes(hs);
      DeletedNothing(entryIndex.index, hs);
      NoBlocksGone(entryIndex.store, entryIndex.index.Keys);
      HeadsStayed(entryIndex.index);
      for i := 0 to |hs|
        invariant entryIndex.Valid() && EntriesOf(u, entryIndex.index) && BlocksOf(u, entryIndex.store)
        invariant entryIndex.index.Keys == old(entryIndex.index.Keys) - Hashes(hs[..i])
        invariant old(HeadsFree(entryIndex.index)) ==> HeadsFree(entryIndex.index)
        invariant old(HeadsExact(entryIndex.index)) ==> HeadsExact(entryIndex.index)
        invariant HeadsStay(old(entryIndex.index), entryIndex.index)
        invariant entryIndex.index == Deleted(old(entryIndex.index), hs[..i])
        invariant entryIndex.store == old(entryIndex.store) - (Hashes(hs[..i]) * old(entryIndex.index.Keys))
      {
        DeletedStep(old(entryIndex.index), hs, i);
        BlockGone(old(entryIndex.store), old(entryIndex.index.Keys), Hashes(hs[..i]), hs[i]);
        DeleteStep(u, old(entryIndex.index), entryIndex.index, entryIndex.store, hs[i]);
        HashesStep(hs, i);
        entryIndex.DeleteEntry(hs[i]);
      }
    }

    method DeleteRecursively(from: seq<Entry>, skipFirst: bool, ghost u: map<Hash, Entry>)
      requires entryIndex.Valid() && Universe(u) && Known(u, from)
      requires EntriesOf(u, entryIndex.index) && BlocksOf(u, entryIndex.store)
      modifies entryIndex
      ensures entryIndex.Valid() && EntriesOf(u, entryIndex.index) && BlocksOf(u, entryIndex.store)
      ensures entryIndex.index.Keys ==
              old(entryIndex.index.Keys - AllDoomed(u, entryIndex.index, entryIndex.store, from, skipFirst))
      ensures old(HeadsFree(entryIndex.index)) ==> HeadsFree(entryIndex.index)
      ensures old(HeadsExact(entryIndex.index)) ==> HeadsExact(entryIndex.index)
    {
      hide AllDoomed, HeadsFree, HeadsExact;
      var toDelete := PrepareDeleteRecursively(from, skipFirst, u);
      DeleteAll(toDelete, u);
    }

    /** What happens once an entry has been put: a cut deletes what is below it, itself not. */
    method ProcessEntry(entry: Entry, ghost u: map<Hash, Entry>) returns (pendingDeletes: seq<Hash>)
      requires Universe(u) && entry.hash in u && u[entry.hash] == entry
      requires EntriesOf(u, entryIndex.index) && BlocksOf(u, entryIndex.store)
      ensures Hashes(pendingDeletes) ==
              if entry.kind.CUT? then Below(u, entryIndex.index, entryIndex.store, entry.hash) else {}
    {
      if entry.kind.CUT? {
        hide Below;
        NoneDoomed(u, entryIndex.index, entryIndex.store);
        assert Known(u, [entry]);
        assert [entry][..0] == [];
        pendingDeletes := PrepareDeleteRecursively([entry], true, u);
      } else {
        pendingDeletes := [];
      }
    }

    /** Puts an entry and deletes what it cuts. After a cut, no entry that is left, other than
        cuts, points to one that is gone. */
    method PutAndProcess(entry: Entry, unique: bool, isHead: bool, ghost u: map<Hash, Entry>)
      requires entryIndex.Valid() && Universe(u) && entry.hash in u && u[entry.hash] == entry
      requires EntriesOf(u, entryIndex.index) && BlocksOf(u, entryIndex.store)
      requires unique ==> entry.hash !in entryIndex.index
      modifies entryIndex
      ensures entryIndex.Valid() && EntriesOf(u, entryIndex.index) && BlocksOf(u, entryIndex.store)
      ensures entry.kind.APPEND? ==> entryIndex.index == Put(old(entryIndex.index), entry, isHead) &&
                                     entryIndex.store == old(entryIndex.store)[entry.hash := entry]
      ensures entry.kind.CUT? ==>
                var put, store := Put(old(entryIndex.index), entry, isHead), old(entryIndex.store)[entry.hash := entry];
                && CutDone(u, put, store, entry.hash, entryIndex.index)
                && entryIndex.store == store - Below(u, put, store, entry.hash)
    {
      hide Below, HeadsFree, HeadsExact, Delete, Put, Demoted, Universe, CutDone, HeadsStay, EntriesOf, BlocksOf;
      PutKnown(u, entryIndex.index, entryIndex.store, entry, isHead);
      PutSize(entryIndex.index, entry, isHead);
      entryIndex.PutEntry(entry, unique, isHead);
      ghost var put, store := entryIndex.index, entryIndex.store;
      var pendingDeletes := ProcessEntry(entry, u);
      if entry.kind.CUT? {
        DeleteAll(pendingDeletes, u);
        BelowHasBlocks(u, put, store, entry.hash);
        IsDeletedAs(put, pendingDeletes);
        CutIsDone(u, put, store, entry.hash, entryIndex.index);
      }
    }

    // ---------- Joining ----------

    /** Joins an entry, bottom up. Without cuts: all its ancestors are then indexed, and the head
        flags are right but for the entry itself, when it is not said to be a head. It fails exactly
        if some ancestor is nowhere to be found. With cuts `Turn` says what it does to the flags. */
    method JoinRecursively(entry: Entry, isHead: bool, references: map<Hash, Entry>, ghost u: map<Hash, Entry>,
                           ghost pending: set<Hash>)
      returns (r: Result)
      requires entryIndex.Valid() && Universe(u) && entry.hash in u && u[entry.hash] == entry
      requires EntriesOf(u, entryIndex.index) && BlocksOf(u, entryIndex.store) && BlocksOf(u, references)
      modifies entryIndex
      ensures entryIndex.Valid() && EntriesOf(u, entryIndex.index) && BlocksOf(u, entryIndex.store)
      ensures old(NoNeed(u, entryIndex.index, entry.hash)) ==> entryIndex.store == old(entryIndex.store)
      ensures Turn(u, old(entryIndex.index), entry.hash, isHead, entryIndex.index, r)
      ensures CutTurn(u, old(entryIndex.index), old(entryIndex.store), entry.hash, isHead, entryIndex.index,
                      entryIndex.store, r)
      ensures Found(u, old(entryIndex.index), old(entryIndex.store.Keys) + references.Keys, entry.hash) ==> r.Ok?
      ensures AppendOnly(u) && old(Holds(u, entryIndex.index) && Flags(u, entryIndex.index, pending)) ==>
                && old(entryIndex.store.Keys) <= entryIndex.store.Keys
                && JoinResult(u, old(entryIndex.index), old(entryIndex.store.Keys) + references.Keys, entry.hash,
                              isHead, pending,
                              entryIndex.index, entryIndex.store.Keys + references.Keys, r)
      decreases entry.time.wallTime, entry.time.logical
    {
      hide JoinResult, Turn, Progress, NoNeed, Found, AlreadyCut, Holds, Flags, EntriesOf, BlocksOf, Universe, Hashes,
           Put, CutDone, AppendOnly, Below;
      ghost var ix, blocks, h := entryIndex.index, entryIndex.store.Keys + references.Keys, entry.hash;
      ghost var ok := AppendOnly(u) && Holds(u, ix) && Flags(u, ix, pending);
      Needed(ok, u, ix, blocks, entry, isHead, pending);
      if entryIndex.Has(entry.hash) {
        return Ok;
      }
      if AlreadyCut(entryIndex.index, entry) {
        return Ok;
      }
      ProgressStarts(ok, u, ix, blocks, h, pending);
      if entry.kind.APPEND? {
        for i := 0 to |entry.next|
          invariant entryIndex.Valid() && EntriesOf(u, entryIndex.index) && BlocksOf(u, entryIndex.store)
          invariant ok ==> old(entryIndex.store.Keys) <= entryIndex.store.Keys
          invariant Progress(ok, u, ix, blocks, h, i, pending, entryIndex.index,
                             entryIndex.store.Keys + references.Keys)
        {
          var a := entry.next[i];
          ghost var ix', blocks' := entryIndex.index, entryIndex.store.Keys + references.Keys;
          NextKnown(u, h, i);
          ProgressHolds(ok, u, ix, blocks, h, i, pending, ix', blocks');
          if !entryIndex.Has(a) {
            if a !in references && a !in entryIndex.store {
              ProgressMissing(ok, u, ix, blocks, h, isHead, i, pending, ix', blocks');
              return MissingEntry(a);
            }
            var nested := if a in references then references[a] else entryIndex.store[a];
            NestedKnown(u, entryIndex.store, references, a);
            r := JoinRecursively(nested, false, references, u, pending + Hashes(entry.next[..i]));
          } else {
            r := Ok;
            Needed(ok, u, ix', blocks', u[a], false, pending + Hashes(entry.next[..i]));
          }
          ProgressNext(ok, u, ix, blocks, h, isHead, i, pending, ix', blocks', entryIndex.index,
                       entryIndex.store.Keys + references.Keys, r);
          if r != Ok {
            return;
          }
        }
      }
      ghost var ix', blocks' := entryIndex.index, entryIndex.store.Keys + references.Keys;
      BlocksMore(entryIndex.store, references, entry);
      ghost var store' := entryIndex.store[h := entry];
      PutAndProcess(entry, false, isHead, u);
      r := Ok;
      ProgressPut(ok, u, ix, blocks, h, isHead, pending, ix', blocks', store', entryIndex.index);
    }

    /** Finds the entries to join. */
    method Collect(js: seq<Joinable>, ghost u: map<Hash, Entry>)
      returns (r: Result, entries: seq<Entry>, references: map<Hash, Entry>)
      requires Universe(u) && KnownInputs(u, js)
      requires EntriesOf(u, entryIndex.index) && BlocksOf(u, entryIndex.store)
      ensures r.Ok? ==> Collected(u, entryIndex.index, entryIndex.store, js, |js|, entries, references)
      ensures r.MissingEntry? ==> ByHash(r.hash) in js && r.hash !in entryIndex.index && r.hash !in entryIndex.store
    {
      hide Collected, BlocksOf, EntriesOf, Universe, EntryHashes, Known, KnownInputs;
      ghost var ix, store := entryIndex.index, entryIndex.store;
      entries, references := [], map[];
      NothingCollected(u, ix, store, js);
      for i := 0 to |js|
        invariant Collected(u, ix, store, js, i, entries, references)
      {
        var element := js[i];
        CollectTurn(u, ix, store, js, i, entries, references);
        match element
        case ByHash(h) =>
          if entryIndex.Has(h) {
            CollectedByHash(u, ix, store, js, i, entries, references);
            continue;
          }
          if h !in entryIndex.store {
            return MissingEntry(h), [], map[];
          }
          CollectedByHash(u, ix, store, js, i, entries, references);
          entries := entries + [entryIndex.store[h]];
        case ByEntry(e) =>
          BlocksOfMore(u, references, element.Brings(), 0);
          assert [e][..1] == [e];
          CollectedEntry(u, ix, store, js, i, entries, references, references[e.hash := e]);
          entries := entries + [e];
          references := references[e.hash := e];
        case WithReferences(e, refs) =>
          ghost var before, all := references, element.Brings();
          ghost var entriesBefore := entries;
          entries := entries + [e];
          BlocksOfMore(u, references, all, 0);
          assert all[..1] == [e];
          references := references[e.hash := e];
          for k := 0 to |refs|
            invariant BlocksOf(u, references) && references.Keys == before.Keys + EntryHashes(all[..k + 1])
          {
            BlocksOfMore(u, references, all, k + 1);
            references := references[refs[k].hash := refs[k]];
          }
          assert all[..|refs| + 1] == all;
          CollectedEntry(u, ix, store, js, i, entriesBefore, before, references);
      }
      assert js[..|js|] == js;
      r := Ok;
    }

    /** Which of the entries are to be heads. */
    static method MarkHeads(entries: seq<Entry>) returns (heads: map<Hash, bool>)
      ensures heads == Marked(entries) && HeadsOf(heads, entries, |entries|)
    {
      hide Marked, Unmarked, HeadsOf;
      heads := map[];
      MarkedNothing(entries);
      for i := 0 to |entries|
        invariant heads == Marked(entries[..i])
      {
        MarkedStep(entries, i);
        var entry := entries[i];
        if entry.hash in heads {
          continue;
        }
        heads := heads[entry.hash := true];
        ghost var before := heads;
        UnmarkedNothing(before, entry.next);
        for k := 0 to |entry.next|
          invariant heads == Unmarked(before, entry.next[..k])
        {
          UnmarkedStep(before, entry.next, k);
          heads := heads[entry.next[k] := false];
        }
      }
      MarkedAre(entries);
    }

    /** Joins entries, in turns of `JoinRecursively`. */
    method Join(js: seq<Joinable>, ghost u: map<Hash, Entry>, ghost pending: set<Hash>)
      returns (r: Result, ghost turns: seq<Index>, ghost stores: seq<map<Hash, Entry>>)
      requires entryIndex.Valid() && Universe(u) && KnownInputs(u, js)
      requires EntriesOf(u, entryIndex.index) && BlocksOf(u, entryIndex.store)
      modifies entryIndex
      ensures entryIndex.Valid() && EntriesOf(u, entryIndex.index) && BlocksOf(u, entryIndex.store)
      ensures |turns| > 0 && turns[0] == old(entryIndex.index) && turns[|turns| - 1] == entryIndex.index
      ensures Known(u, ToJoin(turns[0], old(entryIndex.store), js))
      ensures Turns(u, ToJoin(turns[0], old(entryIndex.store), js), turns, r)
      ensures |stores| == |turns| && stores[0] == old(entryIndex.store) && stores[|stores| - 1] == entryIndex.store
      ensures CutTurns(u, ToJoin(turns[0], old(entryIndex.store), js), turns, stores, r)
      ensures |turns| == 1 && r.MissingEntry? ==>
                ByHash(r.hash) in js && r.hash !in turns[0] && r.hash !in old(entryIndex.store)
      ensures AppendOnly(u) && old(Holds(u, entryIndex.index) && Flags(u, entryIndex.index, pending)) ==>
                && CleanTurns(u, old(entryIndex.store.Keys) + BroughtBy(js),
                              ToJoin(turns[0], old(entryIndex.store), js), turns, r)
                && JoinOutcome(u, old(entryIndex.index), old(entryIndex.store.Keys), js, pending, entryIndex.index, r)
    {
      hide *;
      ghost var ix, store := entryIndex.index, entryIndex.store;
      ghost var ok, blocks := AppendOnly(u) && Holds(u, ix) && Flags(u, ix, pending), store.Keys + BroughtBy(js);
      ghost var es := ToJoin(ix, store, js);
      ToJoinKnown(u, ix, store, js);
      var entries, references;
      r, entries, references := Collect(js, u);
      turns, stores := [ix], [store];
      NoCutTurns(u, es, ix, store, r);
      if r != Ok {
        NotFound(ok, u, ix, store, js, blocks, pending, r.hash);
        return;
      }
      CollectedIs(u, ix, store, js, entries, references);
      var heads := MarkHeads(entries);
      JoinStart(ok, u, ix, store, js, entries, references, pending);
      for i := 0 to |entries|
        invariant entryIndex.Valid() && EntriesOf(u, entryIndex.index) && BlocksOf(u, entryIndex.store)
        invariant r == Ok && |turns| == i + 1 == |stores| && turns[0] == ix && stores[0] == store
        invariant turns[i] == entryIndex.index && stores[i] == entryIndex.store && RunsWell(u, es, turns, stores)
        invariant ok ==> JoinSoFar(u, blocks, js, es, turns, i, pending, entryIndex.store.Keys + references.Keys)
      {
        var entry := entries[i];
        CollectedEntryKnown(u, ix, store, js, entries, i, references, heads);
        var isHead := heads[entry.hash];
        ghost var blocks' := entryIndex.store.Keys + references.Keys;
        ghost var pending' := JoinPending(ok, u, blocks, js, es, turns, i, pending, blocks');
        r := JoinRecursively(entry, isHead, references, u, pending');
        RunsOn(u, es, turns, stores, i, entryIndex.index, entryIndex.store, r);
        JoinTurn(ok, u, entryIndex.index, store, blocks, js, es, turns, i, references, heads, pending,
                 blocks', entryIndex.store.Keys + references.Keys, r);
        turns, stores := turns + [entryIndex.index], stores + [entryIndex.store];
        if r != Ok {
          return;
        }
      }
      RunsEnd(u, es, turns, stores);
      JoinEnd(ok, u, store, blocks, js, es, turns, references, pending, entryIndex.store.Keys + references.Keys);
    }
  }
}
