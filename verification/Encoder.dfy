/** The encoder: a stream of coded symbols driven by a binary min-heap. */
module Encoders {
  import opened Words
  import opened CodedSymbols

  datatype SymbolMapping = SymbolMapping(sourceIdx: nat, codedIdx: nat)

  // ---------- The queue ----------

  predicate Parent(p: nat, c: nat) {
    c == 2 * p + 1 || c == 2 * p + 2
  }

  /** Every parent that is at `from` or after it is not larger than its children. */
  ghost predicate HeapFrom(q: seq<SymbolMapping>, from: nat) {
    forall p, c {:trigger Parent(p, c)} :: from <= p < c < |q| && Parent(p, c) ==> q[p].codedIdx <= q[c].codedIdx
  }

  /** One entry for each source, with the index its mapping is at. */
  ghost function Entries(mappings: seq<Mapping>): multiset<SymbolMapping> {
    if |mappings| == 0 then multiset{}
    else
      var last := |mappings| - 1;
      Entries(mappings[..last]) + multiset{SymbolMapping(last, mappings[last].lastIdx)}
  }

  lemma {:induction false} EntriesCount(mappings: seq<Mapping>, e: SymbolMapping)
    ensures Entries(mappings)[e] ==
            if e.sourceIdx < |mappings| && mappings[e.sourceIdx].lastIdx == e.codedIdx then 1 else 0
  {
    if |mappings| > 0 {
      EntriesCount(mappings[..|mappings| - 1], e);
    }
  }

  lemma EntriesUpdate(mappings: seq<Mapping>, k: nat, m: Mapping)
    requires k < |mappings|
    ensures Entries(mappings[k := m]) ==
            Entries(mappings) - multiset{SymbolMapping(k, mappings[k].lastIdx)} + multiset{SymbolMapping(k, m.lastIdx)}
  {
    forall e
      ensures Entries(mappings[k := m])[e] ==
              (Entries(mappings) - multiset{SymbolMapping(k, mappings[k].lastIdx)} +
               multiset{SymbolMapping(k, m.lastIdx)})[e]
    {
      EntriesCount(mappings, e);
      EntriesCount(mappings[k := m], e);
    }
  }

  /** The queue holds every source once, with the index its mapping is at. */
  ghost predicate Indexed(q: seq<SymbolMapping>, mappings: seq<Mapping>) {
    multiset(q) == Entries(mappings)
  }

  lemma IndexedEntry(q: seq<SymbolMapping>, mappings: seq<Mapping>, p: nat)
    requires Indexed(q, mappings) && p < |q|
    ensures q[p].sourceIdx < |mappings| && q[p].codedIdx == mappings[q[p].sourceIdx].lastIdx
  {
    assert q[p] in multiset(q);
    EntriesCount(mappings, q[p]);
  }

  lemma IndexedSource(q: seq<SymbolMapping>, mappings: seq<Mapping>, k: nat) returns (p: nat)
    requires Indexed(q, mappings) && k < |mappings|
    ensures p < |q| && q[p] == SymbolMapping(k, mappings[k].lastIdx)
  {
    var e := SymbolMapping(k, mappings[k].lastIdx);
    EntriesCount(mappings, e);
    assert e in multiset(q);
    p :| 0 <= p < |q| && q[p] == e;
  }

  lemma {:induction false} RootIsLeast(q: seq<SymbolMapping>, p: nat)
    requires HeapFrom(q, 0) && p < |q|
    ensures q[0].codedIdx <= q[p].codedIdx
    decreases p
  {
    if p > 0 {
      assert Parent((p - 1) / 2, p);
      RootIsLeast(q, (p - 1) / 2);
    }
  }

  /** The root of the queue waits at the least index of all the mappings. */
  lemma RootBound(q: seq<SymbolMapping>, mappings: seq<Mapping>)
    requires HeapFrom(q, 0) && Indexed(q, mappings)
    ensures forall k :: 0 <= k < |mappings| ==> |q| > 0 && q[0].codedIdx <= mappings[k].lastIdx
  {
    forall k | 0 <= k < |mappings|
      ensures |q| > 0 && q[0].codedIdx <= mappings[k].lastIdx
    {
      var p := IndexedSource(q, mappings, k);
      RootIsLeast(q, p);
    }
  }

  function Swap(q: seq<SymbolMapping>, i: nat, j: nat): (r: seq<SymbolMapping>)
    requires i < |q| && j < |q|
    ensures |r| == |q| && multiset(r) == multiset(q)
  {
    q[i := q[j]][j := q[i]]
  }

  /** Heap order from `from` on, except between `hole` and its children. */
  ghost predicate HeapButChildren(q: seq<SymbolMapping>, from: nat, hole: nat) {
    && (forall p, c {:trigger Parent(p, c)} :: from <= p < c < |q| && Parent(p, c) && p != hole ==>
          q[p].codedIdx <= q[c].codedIdx)
    && (forall p, c {:trigger Parent(p, hole), Parent(hole, c)} ::
          from <= p < hole < c < |q| && Parent(p, hole) && Parent(hole, c) ==>
          q[p].codedIdx <= q[c].codedIdx)
  }

  /** Heap order, except between `hole` and its parent. */
  ghost predicate HeapButParent(q: seq<SymbolMapping>, hole: nat) {
    && (forall p, c {:trigger Parent(p, c)} :: 0 <= p < c < |q| && Parent(p, c) && c != hole ==>
          q[p].codedIdx <= q[c].codedIdx)
    && (forall p, c {:trigger Parent(p, hole), Parent(hole, c)} ::
          0 <= p < hole < c < |q| && Parent(p, hole) && Parent(hole, c) ==>
          q[p].codedIdx <= q[c].codedIdx)
  }

  lemma SwapDown(q: seq<SymbolMapping>, from: nat, cur: nat, child: nat)
    requires from <= cur < child < |q| && Parent(cur, child)
    requires HeapButChildren(q, from, cur)
    requires q[child].codedIdx < q[cur].codedIdx
    requires forall c :: cur < c < |q| && Parent(cur, c) ==> q[child].codedIdx <= q[c].codedIdx
    ensures HeapButChildren(Swap(q, cur, child), from, child)
  {
    var r := Swap(q, cur, child);
    forall p, c | from <= p < c < |r| && Parent(p, c) && p != child
      ensures r[p].codedIdx <= r[c].codedIdx
    {
      if c == cur {
        assert Parent(p, cur) && Parent(cur, child);
      }
    }
    forall p, c | from <= p < child < c < |r| && Parent(p, child) && Parent(child, c)
      ensures r[p].codedIdx <= r[c].codedIdx
    {
      assert p == cur;
    }
  }

  lemma SwapUp(q: seq<SymbolMapping>, parent: nat, cur: nat)
    requires parent < cur < |q| && Parent(parent, cur)
    requires HeapButParent(q, cur)
    requires q[cur].codedIdx < q[parent].codedIdx
    ensures HeapButParent(Swap(q, parent, cur), parent)
  {
    var r := Swap(q, parent, cur);
    forall p, c | 0 <= p < c < |r| && Parent(p, c) && c != parent
      ensures r[p].codedIdx <= r[c].codedIdx
    {
      if p == cur {
        assert Parent(parent, cur) && Parent(cur, c);
      }
    }
    forall p, c | 0 <= p < parent < c < |r| && Parent(p, parent) && Parent(parent, c)
      ensures r[p].codedIdx <= r[c].codedIdx
    {
      assert q[p].codedIdx <= q[parent].codedIdx;
    }
  }

  // ---------- The symbols due at an index ----------

  ghost function Due(symbols: seq<HashedSymbol>, mappings: seq<Mapping>, n: nat): multiset<HashedSymbol>
    requires |symbols| == |mappings|
  {
    if |symbols| == 0 then multiset{}
    else
      var last := |symbols| - 1;
      Due(symbols[..last], mappings[..last], n)
      + if mappings[last].lastIdx == n then multiset{symbols[last]} else multiset{}
  }

  /** The cell `r`, once all that waits at `n` has been counted. */
  ghost function Counting(r: CodedSymbol, symbols: seq<HashedSymbol>, mappings: seq<Mapping>, n: nat,
                          d: Direction): CodedSymbol
    requires |symbols| == |mappings|
  {
    Shift(r, Total(Due(symbols, mappings, n)), d)
  }

  lemma {:induction false} DueUpdate(symbols: seq<HashedSymbol>, mappings: seq<Mapping>, n: nat, k: nat, m: Mapping)
    requires |symbols| == |mappings| && k < |symbols|
    requires mappings[k].lastIdx == n && m.lastIdx != n
    ensures Due(symbols, mappings, n) == Due(symbols, mappings[k := m], n) + multiset{symbols[k]}
  {
    var last := |symbols| - 1;
    if k == last {
      assert mappings[k := m][..last] == mappings[..last];
    } else {
      assert mappings[k := m][..last] == mappings[..last][k := m];
      DueUpdate(symbols[..last], mappings[..last], n, k, m);
    }
  }

  /** From `ms` to `ms'`, some of the sources that wait at `n` have moved on. */
  ghost predicate Moving(s: Scheme, ms: seq<Mapping>, ms': seq<Mapping>, n: nat) {
    && |ms'| == |ms|
    && forall k :: 0 <= k < |ms| ==> ms'[k] == ms[k] || (ms[k].lastIdx == n && ms'[k] == s.next(ms[k]))
  }

  /** From `ms` to `ms'`, all of the sources that wait at `n`, and no other, have moved on. */
  ghost predicate Moved(s: Scheme, ms: seq<Mapping>, ms': seq<Mapping>, n: nat) {
    && |ms'| == |ms|
    && forall k :: 0 <= k < |ms| ==> ms'[k] == if ms[k].lastIdx == n then s.next(ms[k]) else ms[k]
  }

  /** One turn of the loop of `ApplyWindow`: the source `k` at the root moves on to `m`. */
  lemma RootMoves(symbols: seq<HashedSymbol>, mappings: seq<Mapping>, q: seq<SymbolMapping>, n: nat, k: nat, m: Mapping)
    requires |symbols| == |mappings| && |q| > 0 && q[0] == SymbolMapping(k, n)
    requires Indexed(q, mappings) && HeapFrom(q, 0)
    requires k < |mappings| && mappings[k].lastIdx == n < m.lastIdx
    ensures Indexed(q[0 := SymbolMapping(k, m.lastIdx)], mappings[k := m])
    ensures HeapFrom(q[0 := SymbolMapping(k, m.lastIdx)], 1)
  {
    EntriesUpdate(mappings, k, m);
  }

  /** The same turn, seen from the cell: what is counted and what is left add up as before. */
  lemma RootCounted(s: Scheme, symbols: seq<HashedSymbol>, before: seq<Mapping>, mappings: seq<Mapping>, n: nat, k: nat,
                    r: CodedSymbol, d: Direction)
    requires |symbols| == |mappings| && k < |mappings| && mappings[k].lastIdx == n
    requires Moving(s, before, mappings, n)
    ensures var ms := mappings[k := s.next(mappings[k])];
            && Moving(s, before, ms, n)
            && Counting(r.Apply(symbols[k], d), symbols, ms, n, d) == Counting(r, symbols, mappings, n, d)
            && |Due(symbols, ms, n)| < |Due(symbols, mappings, n)|
  {
    var m, x := s.next(mappings[k]), symbols[k];
    var ms := mappings[k := m];
    assert m.lastIdx > n;
    DueUpdate(symbols, mappings, n, k, m);
    TotalAdd(Due(symbols, ms, n), x);
    PlusCommutes(Total(Due(symbols, ms, n)), Unit(x));
    ShiftShift(r, Unit(x), Total(Due(symbols, ms, n)), d);
  }

  lemma {:induction false} DueNone(symbols: seq<HashedSymbol>, mappings: seq<Mapping>, n: nat)
    requires |symbols| == |mappings|
    requires forall k :: 0 <= k < |mappings| ==> mappings[k].lastIdx != n
    ensures Due(symbols, mappings, n) == multiset{}
  {
    if |symbols| > 0 {
      var last := |symbols| - 1;
      DueNone(symbols[..last], mappings[..last], n);
    }
  }

  lemma {:induction false} DueIsAt(s: Scheme, symbols: seq<HashedSymbol>, mappings: seq<Mapping>, n: nat)
    requires |symbols| == |mappings|
    requires forall k :: 0 <= k < |symbols| ==> mappings[k] == Advance(s, Start(symbols[k]), n)
    ensures Due(symbols, mappings, n) == At(s, multiset(symbols), n)
  {
    if |symbols| == 0 {
    } else {
      var last := |symbols| - 1;
      var init, x := symbols[..last], symbols[last];
      DueIsAt(s, init, mappings[..last], n);
      assert symbols == init + [x];
      AtAdd(s, multiset(init), x, n);
    }
  }

  lemma WindowPassed(s: Scheme, symbols: seq<HashedSymbol>, before: seq<Mapping>, mappings: seq<Mapping>,
                     q: seq<SymbolMapping>, n: nat)
    requires |symbols| == |mappings| && |q| > 0 && q[0].codedIdx != n
    requires Indexed(q, mappings) && HeapFrom(q, 0)
    requires Moving(s, before, mappings, n)
    requires forall k :: 0 <= k < |before| ==> n <= before[k].lastIdx
    ensures Moved(s, before, mappings, n) && q[0].codedIdx > n
    ensures Due(symbols, mappings, n) == multiset{}
  {
    IndexedEntry(q, mappings, 0);
    RootBound(q, mappings);
    DueNone(symbols, mappings, n);
  }

  /** Every symbol waits at the first index of its sequence that is not below `n`. */
  ghost predicate InStepAt(s: Scheme, symbols: seq<HashedSymbol>, ms: seq<Mapping>, n: nat) {
    && |symbols| == |ms|
    && forall k :: 0 <= k < |symbols| ==> ms[k] == Advance(s, Start(symbols[k]), n)
  }

  lemma InStepCounts(s: Scheme, symbols: seq<HashedSymbol>, ms: seq<Mapping>, ms': seq<Mapping>, n: nat)
    requires InStepAt(s, symbols, ms, n) && Moved(s, ms, ms', n)
    ensures Due(symbols, ms, n) == At(s, multiset(symbols), n)
    ensures InStepAt(s, symbols, ms', n + 1)
  {
    DueIsAt(s, symbols, ms, n);
    forall k | 0 <= k < |symbols|
      ensures ms'[k] == Advance(s, Start(symbols[k]), n + 1)
    {
      AdvanceStep(s, Start(symbols[k]), n);
    }
  }

  /** What one call of `ApplyWindow` makes of the mappings `ms` and the cell `sym`. */
  ghost predicate Window(s: Scheme, symbols: seq<HashedSymbol>, ms: seq<Mapping>, ms': seq<Mapping>, n: nat,
                         sym: CodedSymbol, d: Direction, r: CodedSymbol)
    requires |symbols| == |ms|
  {
    && Moved(s, ms, ms', n)
    && r == Counting(sym, symbols, ms, n, d)
  }

  /** When the root is no longer at `n`, everything that waited at `n` has been counted. */
  lemma WindowDone(s: Scheme, symbols: seq<HashedSymbol>, before: seq<Mapping>, mappings: seq<Mapping>,
                   q: seq<SymbolMapping>, n: nat, sym: CodedSymbol, d: Direction, r: CodedSymbol)
    requires |symbols| == |mappings| && |q| > 0 && q[0].codedIdx != n
    requires Indexed(q, mappings) && HeapFrom(q, 0)
    requires Moving(s, before, mappings, n)
    requires forall k :: 0 <= k < |before| ==> n <= before[k].lastIdx
    requires |before| == |mappings| && Counting(r, symbols, mappings, n, d) == Counting(sym, symbols, before, n, d)
    ensures Window(s, symbols, before, mappings, n, sym, d, r) && q[0].codedIdx > n
  {
    WindowPassed(s, symbols, before, mappings, q, n);
    PlusZero(r);
  }

  /** While every symbol is in step, the next cell is the cell of all the symbols. */
  lemma WindowInStep(s: Scheme, symbols: seq<HashedSymbol>, ms: seq<Mapping>, ms': seq<Mapping>, n: nat,
                     sym: CodedSymbol, d: Direction, r: CodedSymbol)
    requires InStepAt(s, symbols, ms, n) && Window(s, symbols, ms, ms', n, sym, d, r)
    ensures InStepAt(s, symbols, ms', n + 1) && r == Shift(sym, CellOf(s, multiset(symbols), n), d)
  {
    InStepCounts(s, symbols, ms, ms', n);
  }

  // ---------- Removing a source from the queue ----------

  /** A queue entry after the source `pos` has gone: the sources behind it move down by one. */
  function Lowered(e: SymbolMapping, pos: nat): SymbolMapping {
    if e.sourceIdx > pos then e.(sourceIdx := e.sourceIdx - 1) else e
  }

  function AllLowered(q: seq<SymbolMapping>, pos: nat): (r: seq<SymbolMapping>)
    ensures |r| == |q| && forall i :: 0 <= i < |q| ==> r[i] == Lowered(q[i], pos)
  {
    seq(|q|, i requires 0 <= i < |q| => Lowered(q[i], pos))
  }

  /** The queue without the entries of source `pos`, the other entries lowered. */
  function Reindexed(q: seq<SymbolMapping>, pos: nat): seq<SymbolMapping> {
    if |q| == 0 then []
    else
      var last := q[|q| - 1];
      Reindexed(q[..|q| - 1], pos) + if last.sourceIdx == pos then [] else [Lowered(last, pos)]
  }

  lemma {:induction false} ReindexedConcat(a: seq<SymbolMapping>, b: seq<SymbolMapping>, pos: nat)
    ensures Reindexed(a + b, pos) == Reindexed(a, pos) + Reindexed(b, pos)
  {
    if |b| == 0 {
      assert a + b == a;
    } else {
      assert (a + b)[..|a + b| - 1] == a + b[..|b| - 1];
      ReindexedConcat(a, b[..|b| - 1], pos);
    }
  }

  lemma {:induction false} ReindexedNone(q: seq<SymbolMapping>, pos: nat)
    requires forall i :: 0 <= i < |q| ==> q[i].sourceIdx != pos
    ensures Reindexed(q, pos) == AllLowered(q, pos)
  {
    if |q| > 0 {
      ReindexedNone(q[..|q| - 1], pos);
      assert AllLowered(q, pos) == AllLowered(q[..|q| - 1], pos) + [Lowered(q[|q| - 1], pos)];
    }
  }

  function Raised(e: SymbolMapping, pos: nat): SymbolMapping {
    if e.sourceIdx < pos then e else e.(sourceIdx := e.sourceIdx + 1)
  }

  lemma CountAppend(q: seq<SymbolMapping>, x: SymbolMapping, e: SymbolMapping)
    ensures multiset(q + [x])[e] == multiset(q)[e] + if x == e then 1 else 0
  {
  }

  lemma LoweredRaised(x: SymbolMapping, pos: nat, e: SymbolMapping)
    ensures x.sourceIdx != pos && Lowered(x, pos) == e <==> x == Raised(e, pos)
  {
  }

  lemma {:induction false} ReindexedCount(q: seq<SymbolMapping>, pos: nat, e: SymbolMapping)
    ensures multiset(Reindexed(q, pos))[e] == multiset(q)[Raised(e, pos)]
  {
    if |q| > 0 {
      var init, last := q[..|q| - 1], q[|q| - 1];
      ReindexedCount(init, pos, e);
      LoweredRaised(last, pos, e);
      assert multiset(q)[Raised(e, pos)] ==
             multiset(init)[Raised(e, pos)] + if last == Raised(e, pos) then 1 else 0 by {
        assert q == init + [last];
        CountAppend(init, last, Raised(e, pos));
      }
      if last.sourceIdx == pos {
        assert Reindexed(q, pos) == Reindexed(init, pos);
      } else {
        assert Reindexed(q, pos) == Reindexed(init, pos) + [Lowered(last, pos)];
        CountAppend(Reindexed(init, pos), Lowered(last, pos), e);
      }
    }
  }

  lemma RaisedEntry(mappings: seq<Mapping>, ms: seq<Mapping>, pos: nat, e: SymbolMapping)
    requires pos < |mappings| == |ms| + 1
    requires forall k :: 0 <= k < |ms| ==> ms[k] == mappings[if k < pos then k else k + 1]
    ensures Entries(ms)[e] == Entries(mappings)[Raised(e, pos)]
  {
    EntriesCount(ms, e);
    EntriesCount(mappings, Raised(e, pos));
  }

  lemma ReindexedIndexed(q: seq<SymbolMapping>, mappings: seq<Mapping>, pos: nat)
    requires Indexed(q, mappings) && pos < |mappings|
    ensures Indexed(Reindexed(q, pos), mappings[..pos] + mappings[pos + 1..])
  {
    var ms := mappings[..pos] + mappings[pos + 1..];
    forall e
      ensures multiset(Reindexed(q, pos))[e] == Entries(ms)[e]
    {
      ReindexedCount(q, pos, e);
      RaisedEntry(mappings, ms, pos, e);
    }
  }

  /** The entries before `c` are all lowered, those from `c` on are re-indexed; so are those from
      `m` on, once the entry of source `pos` at `m` has gone. */
  lemma ReindexedStep(q: seq<SymbolMapping>, pos: nat, m: nat, c: nat)
    requires m < c <= |q| && q[m].sourceIdx == pos
    requires forall i :: m < i < c ==> q[i].sourceIdx != pos
    ensures var r := AllLowered(q[..c], pos) + Reindexed(q[c..], pos);
            r[..m] + r[m + 1..] == AllLowered(q[..m], pos) + Reindexed(q[m..], pos)
  {
    ReindexedFrom(q, pos, m, c);
    LoweredSplit(q, pos, m, c, Reindexed(q[c..], pos));
  }

  lemma ReindexedFrom(q: seq<SymbolMapping>, pos: nat, m: nat, c: nat)
    requires m < c <= |q| && q[m].sourceIdx == pos
    requires forall i :: m < i < c ==> q[i].sourceIdx != pos
    ensures Reindexed(q[m..], pos) == AllLowered(q[m + 1..c], pos) + Reindexed(q[c..], pos)
  {
    var mid := q[m + 1..c];
    ReindexedNone(mid, pos);
    assert q[m + 1..] == mid + q[c..];
    ReindexedConcat(mid, q[c..], pos);
    assert q[m..] == [q[m]] + q[m + 1..];
    ReindexedConcat([q[m]], q[m + 1..], pos);
  }

  lemma LoweredSplit(q: seq<SymbolMapping>, pos: nat, m: nat, c: nat, rest: seq<SymbolMapping>)
    requires m < c <= |q|
    ensures var r := AllLowered(q[..c], pos) + rest;
            r[..m] + r[m + 1..] == AllLowered(q[..m], pos) + (AllLowered(q[m + 1..c], pos) + rest)
  {
    var r := AllLowered(q[..c], pos) + rest;
    assert r[..m] == AllLowered(q[..m], pos);
    assert r[m + 1..] == AllLowered(q[m + 1..c], pos) + rest;
  }

  function RemoveFirst(symbols: seq<HashedSymbol>, x: HashedSymbol): seq<HashedSymbol> {
    if |symbols| == 0 then []
    else if symbols[0] == x then symbols[1..]
    else [symbols[0]] + RemoveFirst(symbols[1..], x)
  }

  lemma {:induction false} RemoveFirstContents(symbols: seq<HashedSymbol>, x: HashedSymbol)
    ensures multiset(RemoveFirst(symbols, x)) == multiset(symbols) - multiset{x}
  {
    if |symbols| > 0 {
      assert symbols == [symbols[0]] + symbols[1..];
      RemoveFirstContents(symbols[1..], x);
    }
  }

  lemma {:induction false} RemoveFirstAt(symbols: seq<HashedSymbol>, x: HashedSymbol, pos: nat)
    requires pos < |symbols| && symbols[pos] == x && x !in symbols[..pos]
    ensures RemoveFirst(symbols, x) == symbols[..pos] + symbols[pos + 1..]
  {
    if pos > 0 {
      assert symbols[0] in symbols[..pos];
      var rest := symbols[1..];
      assert rest[..pos - 1] == symbols[1..pos];
      assert symbols[..pos] == [symbols[0]] + symbols[1..pos];
      assert rest[pos..] == symbols[pos + 1..];
      RemoveFirstAt(rest, x, pos - 1);
    }
  }

  lemma {:induction false} RemoveFirstAbsent(symbols: seq<HashedSymbol>, x: HashedSymbol)
    requires x !in symbols
    ensures RemoveFirst(symbols, x) == symbols
  {
    if |symbols| > 0 {
      RemoveFirstAbsent(symbols[1..], x);
    }
  }

  lemma LoweredWhole(r: seq<SymbolMapping>, q: seq<SymbolMapping>, pos: nat)
    requires |r| == |q| && forall j :: 0 <= j < |q| ==> r[j] == Lowered(q[j], pos)
    ensures r == AllLowered(q[..|q|], pos) + Reindexed(q[|q|..], pos)
  {
    assert q[..|q|] == q;
  }

  lemma ReindexedWhole(q: seq<SymbolMapping>, pos: nat, c: nat)
    requires c <= |q| && forall i :: 0 <= i < c ==> q[i].sourceIdx != pos
    ensures AllLowered(q[..c], pos) + Reindexed(q[c..], pos) == Reindexed(q, pos)
  {
    ReindexedNone(q[..c], pos);
    ReindexedConcat(q[..c], q[c..], pos);
    assert q[..c] + q[c..] == q;
  }

  lemma InStepAdded(s: Scheme, symbols: seq<HashedSymbol>, ms: seq<Mapping>, n: nat, x: HashedSymbol)
    requires InStepAt(s, symbols, ms, n)
    ensures InStepAt(s, symbols + [x], ms + [Advance(s, Start(x), n)], n)
  {
  }

  lemma InStepRemoved(s: Scheme, symbols: seq<HashedSymbol>, ms: seq<Mapping>, n: nat, pos: nat)
    requires |symbols| == |ms| && pos < |symbols|
    ensures InStepAt(s, symbols, ms, n) ==>
              InStepAt(s, symbols[..pos] + symbols[pos + 1..], ms[..pos] + ms[pos + 1..], n)
  {
  }

  // ---------- The encoder ----------

  class Encoder {
    const scheme: Scheme
    var symbols: seq<HashedSymbol>
    var mappings: seq<Mapping>
    var queue: seq<SymbolMapping>
    var nextIdx: nat

    ghost predicate Valid()
      reads this
    {
      && |symbols| == |mappings|
      && Indexed(queue, mappings)
      && HeapFrom(queue, 0)
    }

    ghost predicate InStep()
      reads this
    {
      InStepAt(scheme, symbols, mappings, nextIdx)
    }

    /** The root, and so some symbol, waits at an index that has already been produced. */
    ghost predicate Stalled()
      reads this
    {
      |queue| > 0 && queue[0].codedIdx < nextIdx
    }

    ghost function Contents(): multiset<HashedSymbol>
      reads this
    {
      multiset(symbols)
    }

    constructor (s: Scheme)
      ensures scheme == s && symbols == [] && nextIdx == 0
      ensures Valid() && InStep()
    {
      scheme := s;
      symbols, mappings, queue, nextIdx := [], [], [], 0;
    }

    constructor Clone(e: Encoder)
      requires e.Valid()
      ensures scheme == e.scheme && symbols == e.symbols && mappings == e.mappings
      ensures queue == e.queue && nextIdx == e.nextIdx
      ensures Valid()
    {
      scheme := e.scheme;
      symbols, mappings, queue, nextIdx := e.symbols, e.mappings, e.queue, e.nextIdx;
    }

    method AddHashedSymbolWithMapping(x: HashedSymbol, m: Mapping)
      requires Valid()
      modifies this
      ensures Valid()
      ensures symbols == old(symbols) + [x] && mappings == old(mappings) + [m] && nextIdx == old(nextIdx)
      ensures multiset(queue) == multiset(old(queue)) + multiset{SymbolMapping(|old(symbols)|, m.lastIdx)}
    {
      assert (mappings + [m])[..|mappings|] == mappings;
      symbols := symbols + [x];
      mappings := mappings + [m];
      queue := queue + [SymbolMapping(|symbols| - 1, m.lastIdx)];
      assert multiset(queue) == multiset(old(queue)) + multiset{SymbolMapping(|old(symbols)|, m.lastIdx)};

      ghost var added := queue;
      var cur := |queue| - 1;
      while cur > 0
        modifies this`queue
        invariant 0 <= cur < |queue| == |added|
        invariant multiset(queue) == multiset(added)
        invariant HeapButParent(queue, cur)
      {
        var parent := (cur - 1) / 2;
        assert Parent(parent, cur);
        if cur == parent || queue[parent].codedIdx <= queue[cur].codedIdx {
          break;
        }
        SwapUp(queue, parent, cur);
        queue := Swap(queue, parent, cur);
        cur := parent;
      }
    }

    /** The same, for a mapping that waits where the other symbols of this encoder wait. */
    method AddInStep(x: HashedSymbol, m: Mapping)
      requires Valid() && InStep() && m == Advance(scheme, Start(x), nextIdx)
      modifies this
      ensures Valid() && InStep()
      ensures symbols == old(symbols) + [x] && nextIdx == old(nextIdx)
      ensures Contents() == old(Contents()) + multiset{x}
    {
      hide InStepAt, Indexed, HeapFrom, Advance;
      InStepAdded(scheme, symbols, mappings, nextIdx, x);
      AddHashedSymbolWithMapping(x, m);
    }

    method AddHashedSymbol(x: HashedSymbol)
      requires Valid()
      modifies this
      ensures Valid()
      ensures symbols == old(symbols) + [x] && mappings == old(mappings) + [Mapping(x.hash, 0)]
      ensures nextIdx == old(nextIdx)
      ensures old(InStep() && nextIdx == 0) ==> InStep()
      ensures old(nextIdx) > 0 ==> Stalled()
    {
      AddHashedSymbolWithMapping(x, Start(x));
      RootBound(queue, mappings);
      assert mappings[|mappings| - 1].lastIdx == 0;
    }

    method AddSymbol(x: Word)
      requires Valid()
      modifies this
      ensures Valid()
      ensures symbols == old(symbols) + [HashedSymbol(x, scheme.hash(x))] && nextIdx == old(nextIdx)
      ensures old(InStep() && nextIdx == 0) ==> InStep()
      ensures old(nextIdx) > 0 ==> Stalled()
    {
      AddHashedSymbol(HashedSymbol(x, scheme.hash(x)));
    }

    /** Restores the heap order below `start`. The same loop stands at the end of `ApplyWindow`. */
    method HeapifyDown(start: nat)
      requires HeapFrom(queue, start + 1)
      modifies this`queue
      ensures HeapFrom(queue, start)
      ensures multiset(queue) == multiset(old(queue)) && |queue| == |old(queue)|
    {
      var cur := start;
      while true
        invariant start <= cur
        invariant multiset(queue) == multiset(old(queue)) && |queue| == |old(queue)|
        invariant HeapButChildren(queue, start, cur)
        decreases |queue| - cur
      {
        var child := 2 * cur + 1;
        if child >= |queue| {
          break;
        }
        assert Parent(cur, child);
        var right := child + 1;
        if right < |queue| && queue[right].codedIdx < queue[child].codedIdx {
          child := right;
        }
        assert Parent(cur, child);
        if queue[cur].codedIdx <= queue[child].codedIdx {
          break;
        }
        SwapDown(queue, start, cur, child);
        queue := Swap(queue, cur, child);
        cur := child;
      }
    }

    method BuildQueueHeap()
      requires |symbols| == |mappings| && Indexed(queue, mappings)
      modifies this`queue
      ensures Valid()
      ensures multiset(queue) == multiset(old(queue))
    {
      var i := |queue| / 2;
      while i > 0
        invariant 0 <= i <= |queue| / 2
        invariant HeapFrom(queue, i)
        invariant multiset(queue) == multiset(old(queue)) && |queue| == |old(queue)|
      {
        i := i - 1;
        HeapifyDown(i);
      }
    }

    /** Moves the symbol at the root on to its next index, and fixes the head of the queue. */
    method MoveRootOn()
      requires Valid() && |queue| > 0
      modifies this`mappings, this`queue
      ensures Valid() && |queue| == |old(queue)|
      ensures |mappings| == |old(mappings)| && old(queue)[0].sourceIdx < |mappings|
      ensures var k := old(queue)[0].sourceIdx; mappings == old(mappings)[k := scheme.next(old(mappings)[k])]
    {
      IndexedEntry(queue, mappings, 0);
      var k := queue[0].sourceIdx;
      var m := scheme.next(mappings[k]);
      RootMoves(symbols, mappings, queue, queue[0].codedIdx, k, m);
      mappings := mappings[k := m];
      queue := queue[0 := queue[0].(codedIdx := m.lastIdx)];
      HeapifyDown(0);
    }

    /** The loop of `ApplyWindow`: counts into `r` every symbol that waits at `nextIdx`. */
    method Drain(sym: CodedSymbol, d: Direction) returns (r: CodedSymbol)
      requires Valid() && |queue| > 0
      modifies this`mappings, this`queue
      ensures Valid() && |queue| > 0 && queue[0].codedIdx != nextIdx
      ensures old(queue[0].codedIdx) != nextIdx ==> r == sym && mappings == old(mappings) && queue == old(queue)
      ensures Moving(scheme, old(mappings), mappings, nextIdx)
      ensures Counting(r, symbols, mappings, nextIdx, d) == old(Counting(sym, symbols, mappings, nextIdx, d))
    {
      r := sym;
      ghost var before := mappings;
      while queue[0].codedIdx == nextIdx
        invariant |queue| > 0 && Valid()
        invariant old(queue[0].codedIdx) != nextIdx ==> r == sym && mappings == before && queue == old(queue)
        invariant Counting(r, symbols, mappings, nextIdx, d) == old(Counting(sym, symbols, mappings, nextIdx, d))
        invariant Moving(scheme, before, mappings, nextIdx)
        decreases |Due(symbols, mappings, nextIdx)|
      {
        IndexedEntry(queue, mappings, 0);
        RootCounted(scheme, symbols, before, mappings, nextIdx, queue[0].sourceIdx, r, d);
        r := r.Apply(symbols[queue[0].sourceIdx], d);
        MoveRootOn();
      }
    }

    /** Symbols in step are never stalled. */
    lemma InStepRuns()
      requires Valid()
      ensures InStep() ==> !Stalled()
    {
      if InStep() && |queue| > 0 {
        IndexedEntry(queue, mappings, 0);
      }
    }

    /** The next cell, counted into `sym`, or out of it. */
    method ApplyWindow(sym: CodedSymbol, d: Direction) returns (r: CodedSymbol)
      requires Valid()
      modifies this
      ensures Valid()
      ensures symbols == old(symbols) && nextIdx == old(nextIdx) + 1
      ensures old(Stalled()) ==> Stalled() && r == sym && mappings == old(mappings)
      ensures !old(Stalled()) ==> Window(scheme, symbols, old(mappings), mappings, old(nextIdx), sym, d, r)
    {
      RootBound(queue, mappings);
      if |queue| == 0 {
        r := sym;
        PlusZero(sym);
        nextIdx := nextIdx + 1;
        return;
      }
      r := Drain(sym, d);
      if !old(Stalled()) {
        WindowDone(scheme, symbols, old(mappings), mappings, queue, nextIdx, sym, d, r);
      }
      nextIdx := nextIdx + 1;
    }

    /** `ApplyWindow`, seen from an encoder all of whose symbols are in step. */
    method ApplyWindowInStep(sym: CodedSymbol, d: Direction) returns (r: CodedSymbol)
      requires Valid() && InStep()
      modifies this
      ensures Valid() && InStep()
      ensures symbols == old(symbols) && nextIdx == old(nextIdx) + 1
      ensures r == Shift(sym, CellOf(scheme, old(Contents()), old(nextIdx)), d)
    {
      hide Indexed, HeapFrom, InStepAt;
      InStepRuns();
      r := ApplyWindow(sym, d);
      WindowInStep(scheme, symbols, old(mappings), mappings, old(nextIdx), sym, d, r);
    }

    method ProduceNextCodedSymbol() returns (r: CodedSymbol)
      requires Valid()
      modifies this
      ensures Valid()
      ensures symbols == old(symbols) && nextIdx == old(nextIdx) + 1
      ensures old(InStep()) ==> InStep() && r == CellOf(scheme, Contents(), old(nextIdx))
      ensures old(Stalled()) ==> Stalled() && r == ZERO
    {
      hide Indexed, HeapFrom, InStepAt, CellOf, Window, Plus;
      InStepRuns();
      r := ApplyWindow(ZERO, ADD);
      if old(InStep()) {
        WindowInStep(scheme, symbols, old(mappings), mappings, old(nextIdx), ZERO, ADD, r);
        PlusZero(CellOf(scheme, Contents(), old(nextIdx)));
      }
    }

    /** Drops the queue entries of source `pos`, whose symbol and mapping have been removed. */
    method DropSource(pos: nat)
      modifies this`queue
      ensures queue == Reindexed(old(queue), pos)
    {
      hide Reindexed, AllLowered;
      ghost var q := queue;
      var marks: seq<nat> := [];
      for i := 0 to |queue|
        invariant |queue| == |q|
        invariant forall j :: 0 <= j < |q| ==> queue[j] == if j < i then Lowered(q[j], pos) else q[j]
        invariant forall j :: 0 <= j < |marks| ==> marks[j] < i && q[marks[j]].sourceIdx == pos
        invariant forall j, k :: 0 <= j < k < |marks| ==> marks[j] < marks[k]
        invariant forall j :: 0 <= j < i && q[j].sourceIdx == pos ==> j in marks
      {
        if queue[i].sourceIdx == pos {
          marks := marks + [i];
        } else if queue[i].sourceIdx > pos {
          queue := queue[i := Lowered(queue[i], pos)];
        }
      }
      var t := |marks|;
      ghost var c := |q|;
      LoweredWhole(queue, q, pos);
      while t > 0
        invariant 0 <= t <= |marks| && c == if t < |marks| then marks[t] else |q|
        invariant queue == AllLowered(q[..c], pos) + Reindexed(q[c..], pos)
      {
        t := t - 1;
        var m := marks[t];
        ReindexedStep(q, pos, m, c);
        queue := queue[..m] + queue[m + 1..];
        c := m;
      }
      ReindexedWhole(q, pos, c);
    }

    /** Removes the symbol at `pos`, and rebuilds the queue without it. */
    method RemoveAt(pos: nat)
      requires Valid() && pos < |symbols|
      modifies this
      ensures Valid()
      ensures symbols == old(symbols[..pos] + symbols[pos + 1..])
      ensures mappings == old(mappings[..pos] + mappings[pos + 1..])
      ensures nextIdx == old(nextIdx)
    {
      hide Reindexed, Entries;
      ReindexedIndexed(queue, mappings, pos);
      symbols := symbols[..pos] + symbols[pos + 1..];
      mappings := mappings[..pos] + mappings[pos + 1..];
      DropSource(pos);
      BuildQueueHeap();
    }

    method RemoveSymbol(x: Word)
      requires Valid()
      modifies this
      ensures Valid()
      ensures symbols == RemoveFirst(old(symbols), HashedSymbol(x, scheme.hash(x))) && nextIdx == old(nextIdx)
      ensures Contents() == old(Contents()) - multiset{HashedSymbol(x, scheme.hash(x))}
      ensures old(InStep()) ==> InStep()
    {
      var h := HashedSymbol(x, scheme.hash(x));
      RemoveFirstContents(symbols, h);
      var pos := 0;
      while pos < |symbols| && symbols[pos] != h
        invariant 0 <= pos <= |symbols| && h !in symbols[..pos]
      {
        pos := pos + 1;
      }
      if pos < |symbols| {
        RemoveFirstAt(symbols, h, pos);
        InStepRemoved(scheme, symbols, mappings, nextIdx, pos);
        RemoveAt(pos);
      } else {
        RemoveFirstAbsent(symbols, h);
      }
    }
  }
}
