/** The index of a log: which entries it holds, which of them are heads, and how many there are. */
module EntryIndexes {
  import opened LogEntries

  /** The indexed entries that point to `h`. */
  function HasNext(ix: Index, h: Hash): set<Hash> {
    set x | x in ix && h in ix[x].entry.next
  }

  function CountHasNext(ix: Index, h: Hash): nat {
    |HasNext(ix, h)|
  }

  /** Some indexed entry that is not a cut points to `h`. */
  predicate AppendPointsTo(ix: Index, h: Hash) {
    exists x :: x in ix && ix[x].entry.kind.APPEND? && h in ix[x].entry.next
  }

  function Demoted(ix: Index, next: seq<Hash>): Index {
    map h | h in ix :: if h in next then ix[h].(head := false) else ix[h]
  }

  function Promoted(ix: Index, next: seq<Hash>): Index {
    map h | h in ix :: if h in next && CountHasNext(ix, h) == 0 then ix[h].(head := true) else ix[h]
  }

  /** The index after `entry` has been put. */
  function Put(ix: Index, entry: Entry, isHead: bool): Index {
    var ix' := ix[entry.hash := ShallowEntry(entry, isHead)];
    if entry.kind.CUT? then ix' else Demoted(ix', entry.next)
  }

  /** The index after the entry of `k` has been deleted. */
  function Delete(ix: Index, k: Hash): Index {
    if k !in ix then ix
    else if ix[k].entry.kind.CUT? then ix - {k}
    else Promoted(ix - {k}, ix[k].entry.next)
  }

  /** The index after the entries of `hs` have been deleted, in that order. */
  function Deleted(ix: Index, hs: seq<Hash>): Index {
    if |hs| == 0 then ix else Delete(Deleted(ix, hs[..|hs| - 1]), hs[|hs| - 1])
  }

  lemma DeletedStep(ix: Index, hs: seq<Hash>, i: nat)
    requires i < |hs|
    ensures Deleted(ix, hs[..i + 1]) == Delete(Deleted(ix, hs[..i]), hs[i])
  {
    assert hs[..i + 1][..i] == hs[..i];
  }

  lemma DeletedNothing(ix: Index, hs: seq<Hash>)
    ensures Deleted(ix, hs[..0]) == ix && hs[..|hs|] == hs
  {
  }

  lemma NoneHasNext(ix: Index, h: Hash)
    ensures CountHasNext(ix, h) == 0 <==> forall x :: x in ix ==> h !in ix[x].entry.next
  {
    assert forall x :: x in HasNext(ix, h) <==> x in ix && h in ix[x].entry.next;
    assert CountHasNext(ix, h) == 0 <==> HasNext(ix, h) == {};
  }

  /** Each entry is under its hash. */
  ghost predicate Keyed(ix: Index) {
    forall h :: h in ix ==> ix[h].entry.hash == h
  }

  // ---------- What every run of puts and deletions keeps ----------

  /** Each entry is under its hash, and a head is not pointed to by an entry that is not a cut. */
  ghost predicate HeadsFree(ix: Index) {
    forall h :: h in ix ==> ix[h].entry.hash == h && (ix[h].head ==> !AppendPointsTo(ix, h))
  }

  /** The heads are exactly the entries that no entry points to, apart from cuts. */
  ghost predicate FlagsExact(ix: Index) {
    forall h :: h in ix ==> ix[h].entry.hash == h && Right(ix, h)
  }

  /** The same, where there are no cuts. */
  ghost predicate HeadsExact(ix: Index) {
    && (forall h :: h in ix ==> ix[h].entry.hash == h && ix[h].entry.kind.APPEND?)
    && (forall h :: h in ix ==> (ix[h].head <==> !AppendPointsTo(ix, h)))
  }

  /** Some indexed cut points to `h`. */
  predicate CutPointsTo(ix: Index, h: Hash) {
    exists x :: x in ix && ix[x].entry.kind.CUT? && h in ix[x].entry.next
  }

  /** Deleting `k` gives the flag to all that it should: nothing that `k` points to is left with no
      pointer but those of cuts. */
  ghost predicate FlagsSurvive(ix: Index, k: Hash) {
    k in ix && ix[k].entry.kind.APPEND? ==>
      forall n :: n in ix[k].entry.next && n in ix - {k} && !AppendPointsTo(ix - {k}, n) ==> !CutPointsTo(ix - {k}, n)
  }

  /** A new hash, not pointed to by itself. */
  predicate NewTo(ix: Index, entry: Entry) {
    entry.hash !in ix && entry.hash !in entry.next
  }

  /** What a caller of `put` owes: besides, the right head argument. */
  ghost predicate MayPut(ix: Index, entry: Entry, isHead: bool) {
    NewTo(ix, entry) && (isHead <==> !AppendPointsTo(ix, entry.hash))
  }

  /** The flag of an entry says whether anything points to it, apart from cuts. */
  ghost predicate Right(ix: Index, h: Hash)
    requires h in ix
  {
    ix[h].head <==> !AppendPointsTo(ix, h)
  }

  lemma PutPoints(ix: Index, entry: Entry, isHead: bool, h: Hash)
    requires entry.hash !in ix
    ensures AppendPointsTo(Put(ix, entry, isHead), h) <==>
            AppendPointsTo(ix, h) || (entry.kind.APPEND? && h in entry.next)
  {
    var ix' := Put(ix, entry, isHead);
    assert forall x :: x in ix ==> x in ix' && ix'[x].entry == ix[x].entry;
    assert entry.hash in ix' && ix'[entry.hash].entry == entry;
  }

  lemma PutRecord(ix: Index, entry: Entry, isHead: bool, h: Hash)
    requires entry.hash !in ix && entry.hash !in entry.next && h in Put(ix, entry, isHead)
    ensures var r := Put(ix, entry, isHead)[h];
            if h == entry.hash then r == ShallowEntry(entry, isHead)
            else h in ix && r == if entry.kind.APPEND? && h in entry.next then ix[h].(head := false) else ix[h]
  {
  }

  lemma MapSize(ix: Index)
    ensures |ix| == |ix.Keys|
  {
  }

  lemma PutSize(ix: Index, entry: Entry, isHead: bool)
    ensures Put(ix, entry, isHead).Keys == ix.Keys + {entry.hash}
    ensures |Put(ix, entry, isHead)| == if entry.hash in ix then |ix| else |ix| + 1
  {
    var ix', base := Put(ix, entry, isHead), ix[entry.hash := ShallowEntry(entry, isHead)];
    assert base.Keys == ix.Keys + {entry.hash};
    assert Demoted(base, entry.next).Keys == base.Keys;
    MapSize(ix);
    MapSize(ix');
  }

  lemma PutKeeps(ix: Index, entry: Entry, isHead: bool)
    requires MayPut(ix, entry, isHead)
    ensures HeadsFree(ix) ==> HeadsFree(Put(ix, entry, isHead))
    ensures HeadsExact(ix) && entry.kind.APPEND? ==> HeadsExact(Put(ix, entry, isHead))
  {
    hide Put, AppendPointsTo;
    var ix' := Put(ix, entry, isHead);
    forall h | h in ix'
      ensures HeadsFree(ix) ==> ix'[h].entry.hash == h && (ix'[h].head ==> !AppendPointsTo(ix', h))
      ensures HeadsExact(ix) && entry.kind.APPEND? ==>
                ix'[h].entry.hash == h && ix'[h].entry.kind.APPEND? && (ix'[h].head <==> !AppendPointsTo(ix', h))
    {
      PutPoints(ix, entry, isHead, h);
      PutRecord(ix, entry, isHead, h);
    }
  }

  /** Putting keeps heads free of pointers exactly if what is put as a head is; and it keeps the flags
      exact exactly if the head argument is right. */
  lemma PutExact(ix: Index, entry: Entry, isHead: bool)
    requires NewTo(ix, entry)
    ensures HeadsFree(ix) ==> (HeadsFree(Put(ix, entry, isHead)) <==> (isHead ==> !AppendPointsTo(ix, entry.hash)))
    ensures FlagsExact(ix) ==> (FlagsExact(Put(ix, entry, isHead)) <==> (isHead <==> !AppendPointsTo(ix, entry.hash)))
  {
    hide Put, AppendPointsTo;
    var ix' := Put(ix, entry, isHead);
    PutSize(ix, entry, isHead);
    forall h | h in ix'
      ensures HeadsFree(ix) ==> ix'[h].entry.hash == h
      ensures HeadsFree(ix) ==> ((ix'[h].head ==> !AppendPointsTo(ix', h)) <==>
                                 (h == entry.hash && isHead ==> !AppendPointsTo(ix, h)))
      ensures FlagsExact(ix) ==> ix'[h].entry.hash == h
      ensures FlagsExact(ix) ==> (Right(ix', h) <==> (h == entry.hash ==> (isHead <==> !AppendPointsTo(ix, h))))
    {
      PutPoints(ix, entry, isHead, h);
      PutRecord(ix, entry, isHead, h);
    }
  }

  lemma DeleteSize(ix: Index, k: Hash)
    ensures Delete(ix, k).Keys == ix.Keys - {k}
    ensures |Delete(ix, k)| == if k in ix then |ix| - 1 else |ix|
    ensures forall h :: h in Delete(ix, k) ==> Delete(ix, k)[h].entry == ix[h].entry
  {
    var ix' := Delete(ix, k);
    assert ix'.Keys == ix.Keys - {k};
    MapSize(ix);
    MapSize(ix');
  }

  lemma DeletePoints(ix: Index, k: Hash, h: Hash)
    ensures AppendPointsTo(Delete(ix, k), h) ==> AppendPointsTo(ix, h)
    ensures AppendPointsTo(ix, h) && !AppendPointsTo(Delete(ix, k), h) ==>
              k in ix && ix[k].entry.kind.APPEND? && h in ix[k].entry.next
  {
    DeleteSize(ix, k);
    var ix' := Delete(ix, k);
    if AppendPointsTo(ix, h) {
      var x :| x in ix && ix[x].entry.kind.APPEND? && h in ix[x].entry.next;
      assert x != k ==> x in ix';
    }
  }

  /** What deletion does to the flag of an entry that stays. */
  lemma DeleteRecord(ix: Index, k: Hash, h: Hash)
    requires h in Delete(ix, k)
    ensures h in ix && Delete(ix, k)[h].entry == ix[h].entry
    ensures Delete(ix, k)[h].head ==> ix[h].head || !AppendPointsTo(Delete(ix, k), h)
    ensures ix[h].head ==> Delete(ix, k)[h].head
    ensures k in ix && ix[k].entry.kind.APPEND? && h in ix[k].entry.next
            && (forall x :: x in ix ==> ix[x].entry.kind.APPEND?) ==>
              (Delete(ix, k)[h].head <==> ix[h].head || !AppendPointsTo(Delete(ix, k), h))
  {
    var ix', rest := Delete(ix, k), ix - {k};
    assert ix'.Keys == rest.Keys;
    NoneHasNext(rest, h);
    assert forall x :: x in ix' ==> x in rest && ix'[x].entry == rest[x].entry;
  }

  lemma DeleteKeeps(ix: Index, k: Hash)
    ensures HeadsFree(ix) ==> HeadsFree(Delete(ix, k))
    ensures HeadsExact(ix) ==> HeadsExact(Delete(ix, k))
  {
    hide Delete, AppendPointsTo;
    var ix' := Delete(ix, k);
    forall h | h in ix'
      ensures HeadsFree(ix) ==> ix'[h].entry.hash == h && (ix'[h].head ==> !AppendPointsTo(ix', h))
      ensures HeadsExact(ix) ==>
                ix'[h].entry.hash == h && ix'[h].entry.kind.APPEND? && (ix'[h].head <==> !AppendPointsTo(ix', h))
    {
      DeletePoints(ix, k, h);
      DeleteRecord(ix, k, h);
    }
  }

  /** The flag of an entry after the deletion of one that points to it, apart from cuts. */
  lemma DeletePromotes(ix: Index, k: Hash, h: Hash)
    requires k in ix && ix[k].entry.kind.APPEND? && h in ix[k].entry.next && h in ix - {k}
    ensures h in Delete(ix, k)
    ensures Delete(ix, k)[h].head <==> ix[h].head || (!AppendPointsTo(ix - {k}, h) && !CutPointsTo(ix - {k}, h))
    ensures AppendPointsTo(Delete(ix, k), h) <==> AppendPointsTo(ix - {k}, h)
  {
    var ix', rest := Delete(ix, k), ix - {k};
    assert ix'.Keys == rest.Keys;
    NoneHasNext(rest, h);
    assert forall x :: x in ix' ==> x in rest && ix'[x].entry == rest[x].entry;
    assert forall x :: x in rest && h in rest[x].entry.next ==> AppendPointsTo(rest, h) || CutPointsTo(rest, h);
  }

  /** The flag of an entry that the deleted one does not point to, or only as a cut. */
  lemma DeleteLeaves(ix: Index, k: Hash, h: Hash)
    requires h in Delete(ix, k) && !(k in ix && ix[k].entry.kind.APPEND? && h in ix[k].entry.next)
    ensures h in ix && Delete(ix, k)[h].head == ix[h].head
    ensures AppendPointsTo(Delete(ix, k), h) <==> AppendPointsTo(ix, h)
  {
    DeletePoints(ix, k, h);
  }

  /** Where the flags are exact a deletion keeps them so exactly if nothing that the deleted entry
      points to is left with pointers of cuts alone. */
  lemma DeleteExact(ix: Index, k: Hash)
    requires FlagsExact(ix)
    ensures FlagsExact(Delete(ix, k)) <==> FlagsSurvive(ix, k)
  {
    hide Delete, AppendPointsTo, CutPointsTo;
    var ix' := Delete(ix, k);
    DeleteSize(ix, k);
    forall h | h in ix'
      ensures ix'[h].entry.hash == h
      ensures (ix'[h].head <==> !AppendPointsTo(ix', h)) <==>
              !(k in ix && ix[k].entry.kind.APPEND? && h in ix[k].entry.next && !AppendPointsTo(ix - {k}, h)
                && CutPointsTo(ix - {k}, h))
    {
      if k in ix && ix[k].entry.kind.APPEND? && h in ix[k].entry.next {
        DeletePromotes(ix, k, h);
        PointedToBy(ix, k, h);
      } else {
        DeleteLeaves(ix, k, h);
      }
    }
    assert ix'.Keys == (ix - {k}).Keys;
  }

  lemma PointedToBy(ix: Index, k: Hash, h: Hash)
    requires k in ix && ix[k].entry.kind.APPEND? && h in ix[k].entry.next
    ensures AppendPointsTo(ix, h)
  {
  }

  datatype Op = PutOp(entry: Entry, isHead: bool) | DeleteOp(k: Hash)

  function Apply(ix: Index, op: Op): Index {
    match op
    case PutOp(e, isHead) => Put(ix, e, isHead)
    case DeleteOp(k) => Delete(ix, k)
  }

  /** The index after a run of operations on an empty one. */
  function After(ops: seq<Op>): Index {
    if |ops| == 0 then map[] else Apply(After(ops[..|ops| - 1]), ops[|ops| - 1])
  }

  /** Each `put` of the run has been called as it may be. */
  ghost predicate Allowed(ops: seq<Op>) {
    |ops| > 0 ==>
      && Allowed(ops[..|ops| - 1])
      && (ops[|ops| - 1].PutOp? ==> MayPut(After(ops[..|ops| - 1]), ops[|ops| - 1].entry, ops[|ops| - 1].isHead))
  }

  /** After every run, a head is not pointed to; and if the run has never put a cut, the heads are
      exactly the entries that are not pointed to. */
  lemma {:induction false} RunKeeps(ops: seq<Op>)
    requires Allowed(ops)
    ensures HeadsFree(After(ops))
    ensures (forall op :: op in ops && op.PutOp? ==> op.entry.kind.APPEND?) ==> HeadsExact(After(ops))
  {
    hide HeadsFree, HeadsExact, MayPut, Put, Delete;
    if |ops| == 0 {
      EmptyIndex();
    } else {
      var op, init := ops[|ops| - 1], ops[..|ops| - 1];
      assert op in ops && forall o :: o in init ==> o in ops;
      RunKeeps(init);
      match op
      case PutOp(e, isHead) => PutKeeps(After(init), e, isHead);
      case DeleteOp(k) => DeleteKeeps(After(init), k);
    }
  }

  lemma EmptyIndex()
    ensures HeadsFree(map[]) && HeadsExact(map[]) && FlagsExact(map[])
  {
  }

  /** The flags are exact after every part of the run. */
  ghost predicate AlwaysExact(ops: seq<Op>) {
    FlagsExact(After(ops)) && (|ops| > 0 ==> AlwaysExact(ops[..|ops| - 1]))
  }

  /** Whatever is put is new. */
  ghost predicate Fresh(ops: seq<Op>) {
    |ops| > 0 ==>
      && Fresh(ops[..|ops| - 1])
      && (ops[|ops| - 1].PutOp? ==> NewTo(After(ops[..|ops| - 1]), ops[|ops| - 1].entry))
  }

  /** Every put of the run has the right head argument, and no deletion leaves an entry with pointers
      of cuts alone. */
  ghost predicate AllRight(ops: seq<Op>) {
    |ops| > 0 ==>
      var ix := After(ops[..|ops| - 1]);
      && AllRight(ops[..|ops| - 1])
      && match ops[|ops| - 1]
         case PutOp(e, isHead) => isHead <==> !AppendPointsTo(ix, e.hash)
         case DeleteOp(k) => FlagsSurvive(ix, k)
  }

  /** With cuts: the heads have been exactly the entries not pointed to, all through a run, exactly
      if every head argument has been right and no deletion has left an entry with pointers of cuts alone. */
  lemma {:induction false} RunExact(ops: seq<Op>)
    requires Fresh(ops)
    ensures AlwaysExact(ops) <==> AllRight(ops)
  {
    hide FlagsExact, NewTo, Put, Delete, FlagsSurvive, AppendPointsTo;
    if |ops| == 0 {
      EmptyIndex();
    } else {
      var op, init := ops[|ops| - 1], ops[..|ops| - 1];
      RunExact(init);
      if AlwaysExact(init) {
        match op
        case PutOp(e, isHead) => PutExact(After(init), e, isHead);
        case DeleteOp(k) => DeleteExact(After(init), k);
      }
    }
  }

  /** With cuts the other direction fails, even after the cut has gone: an entry that is left
      without any pointer to it, and is not a head. */
  lemma CutLeavesNoHead()
    ensures var a := Entry(1, 0, Timestamp(1, 0), [], APPEND);
            var b := Entry(2, 0, Timestamp(2, 0), [1], APPEND);
            var c := Entry(3, 0, Timestamp(3, 0), [1], CUT);
            var ix := Delete(Delete(Put(Put(Put(map[], a, true), b, true), c, true), 2), 3);
            1 in ix && !ix[1].head && !AppendPointsTo(ix, 1)
  {
    var a := Entry(1, 0, Timestamp(1, 0), [], APPEND);
    var b := Entry(2, 0, Timestamp(2, 0), [1], APPEND);
    var c := Entry(3, 0, Timestamp(3, 0), [1], CUT);
    var i1 := Put(map[], a, true);
    assert i1 == map[1 := ShallowEntry(a, true)];
    var i2 := Put(i1, b, true);
    assert i2 == map[1 := ShallowEntry(a, false), 2 := ShallowEntry(b, true)];
    var i3 := Put(i2, c, true);
    assert i3 == map[1 := ShallowEntry(a, false), 2 := ShallowEntry(b, true), 3 := ShallowEntry(c, true)];
    var rest := i3 - {2};
    assert 3 in HasNext(rest, 1);
    assert CountHasNext(rest, 1) != 0;
    var i4 := Delete(i3, 2);
    assert i4 == map[1 := ShallowEntry(a, false), 3 := ShallowEntry(c, true)];
    assert Delete(i4, 3) == map[1 := ShallowEntry(a, false)];
  }

  class EntryIndex {
    var index: Index
    var length: nat
    /** The block store. */
    var store: map<Hash, Entry>

    /** The length is the number of indexed entries. */
    ghost predicate Valid()
      reads this
    {
      length == |index|
    }

    constructor ()
      ensures index == map[] && length == 0 && store == map[]
      ensures Valid()
    {
      index, length, store := map[], 0, map[];
    }

    predicate Has(k: Hash)
      reads this
    {
      k in index
    }

    method PutEntry(entry: Entry, unique: bool, isHead: bool)
      requires Valid() && (unique ==> entry.hash !in index)
      modifies this
      ensures Valid() && index == Put(old(index), entry, isHead)
      ensures store == old(store)[entry.hash := entry]
    {
      PutSize(index, entry, isHead);
      if unique || !Has(entry.hash) {
        length := length + 1;
      }
      store := store[entry.hash := entry];
      index := index[entry.hash := ShallowEntry(entry, isHead)];
      UpdateNextHeadProperty(entry, false);
    }

    method DeleteEntry(k: Hash)
      requires Valid() && Keyed(index)
      modifies this
      ensures Valid() && index == Delete(old(index), k)
      ensures store == if k in old(index) then old(store) - {k} else old(store)
    {
      DeleteSize(index, k);
      if !Has(k) {
        return;
      }
      var from := index[k].entry;
      index := index - {k};
      store := store - {k};
      length := length - 1;
      UpdateNextHeadProperty(from, true);
    }

    /** Marks the entries that `from` points to: as heads, if nothing points to them any more, or as no heads. */
    method UpdateNextHeadProperty(from: Entry, isHead: bool)
      modifies this`index
      ensures index == if from.kind.CUT? then old(index)
                       else if isHead then Promoted(old(index), from.next) else Demoted(old(index), from.next)
    {
      if from.kind.CUT? {
        return;
      }
      hide Promoted, Demoted, CountHasNext;
      ghost var before := index;
      NoSteps(index);
      for i := 0 to |from.next|
        invariant index == if isHead then Promoted(before, from.next[..i]) else Demoted(before, from.next[..i])
      {
        var next := from.next[i];
        PromotedStep(before, from.next, i);
        DemotedStep(before, from.next, i);
        if next in index {
          if isHead {
            if CountHasNext(index, next) == 0 {
              index := index[next := index[next].(head := true)];
            }
          } else {
            index := index[next := index[next].(head := false)];
          }
        }
      }
      assert from.next[..|from.next|] == from.next;
    }

    static lemma NoSteps(ix: Index)
      ensures Promoted(ix, []) == ix && Demoted(ix, []) == ix
    {
    }

    static lemma DemotedStep(ix: Index, next: seq<Hash>, i: nat)
      requires i < |next|
      ensures var d := Demoted(ix, next[..i]);
              Demoted(ix, next[..i + 1]) == if next[i] in d then d[next[i] := d[next[i]].(head := false)] else d
    {
      assert next[..i + 1] == next[..i] + [next[i]];
    }

    static lemma PromotedStep(ix: Index, next: seq<Hash>, i: nat)
      requires i < |next|
      ensures var p := Promoted(ix, next[..i]);
              Promoted(ix, next[..i + 1]) ==
              if next[i] in p && CountHasNext(p, next[i]) == 0 then p[next[i] := p[next[i]].(head := true)] else p
    {
      assert next[..i + 1] == next[..i] + [next[i]];
      SameHasNext(ix, Promoted(ix, next[..i]), next[i]);
    }

    static lemma SameHasNext(ix: Index, ix': Index, h: Hash)
      ensures ix.Keys == ix'.Keys && (forall x :: x in ix ==> ix'[x].entry == ix[x].entry) ==>
                HasNext(ix, h) == HasNext(ix', h)
    {
    }
  }
}
