/** The mathematics of peeling: what the residual cells of a signed collection of symbols say about
    the collection, and what taking one symbol out of it does to the cells and to the schedule. */
module Peeling {
  import opened Collections
  import opened Words
  import opened CodedSymbols

  /** The cell that counts `p` in and `n` out. */
  ghost function Net(p: multiset<HashedSymbol>, n: multiset<HashedSymbol>): CodedSymbol {
    Minus(Total(p), Total(n))
  }

  /** The cell `j` of the collection that holds `p` counted in and `n` counted out. */
  ghost function Residual(s: Scheme, p: multiset<HashedSymbol>, n: multiset<HashedSymbol>, j: nat): CodedSymbol {
    Net(At(s, p, j), At(s, n, j))
  }

  /** How many symbols are counted in cell `j`, in or out. */
  ghost function Weight(s: Scheme, p: multiset<HashedSymbol>, n: multiset<HashedSymbol>, j: nat): nat {
    |At(s, p, j)| + |At(s, n, j)|
  }

  predicate Pure(s: Scheme, c: CodedSymbol) {
    (c.count == 1 || c.count == -1) && c.hash == s.hash(c.symbol)
  }

  predicate Empty(c: CodedSymbol) {
    c.count == 0 && c.hash == {}
  }

  ghost predicate Honest(s: Scheme, m: multiset<HashedSymbol>) {
    forall x :: x in m ==> x.hash == s.hash(x.symbol)
  }

  /** Cell `j` does not look like one symbol, or like nothing, unless it is. */
  ghost predicate NotFalse(s: Scheme, p: multiset<HashedSymbol>, n: multiset<HashedSymbol>, j: nat) {
    && (Pure(s, Residual(s, p, n, j)) ==> Weight(s, p, n, j) == 1)
    && (Empty(Residual(s, p, n, j)) ==> Weight(s, p, n, j) == 0)
  }

  // ---------- Reading a cell ----------

  lemma AtSubset(s: Scheme, m: multiset<HashedSymbol>, j: nat)
    ensures At(s, m, j) <= m
  {
    forall x
      ensures At(s, m, j)[x] <= m[x]
    {
      AtCount(s, m, j, x);
    }
  }

  lemma Singleton(m: multiset<HashedSymbol>) returns (x: HashedSymbol)
    requires |m| == 1
    ensures m == multiset{x}
  {
    x := OneOf(m);
    assert |m - multiset{x}| == 0;
    assert m == (m - multiset{x}) + multiset{x};
  }

  /** The symbol counted in a cell of weight one can be read off the cell. */
  lemma One(s: Scheme, p: multiset<HashedSymbol>, n: multiset<HashedSymbol>, j: nat) returns (x: HashedSymbol)
    requires Honest(s, p) && Honest(s, n)
    requires Weight(s, p, n, j) == 1
    ensures Hits(s, x, j)
    ensures var c := Residual(s, p, n, j);
            && x == HashedSymbol(c.symbol, c.hash) && Pure(s, c)
            && if c.count == 1 then x in p else c.count == -1 && x in n
  {
    var a, b := At(s, p, j), At(s, n, j);
    if |a| == 1 {
      x := Singleton(a);
      assert b == multiset{};
      TotalOne(x);
      PlusZero(Unit(x));
      AtCount(s, p, j, x);
      assert a[x] == 1;
    } else {
      x := Singleton(b);
      assert a == multiset{};
      TotalOne(x);
      XorSelfInverse(x.symbol, {});
      XorSelfInverse(x.hash, {});
      AtCount(s, n, j, x);
      assert b[x] == 1;
    }
  }

  /** Cell `c` tells whether the number `w` of symbols it counts is one, or zero. */
  ghost predicate Tells(s: Scheme, c: CodedSymbol, w: nat) {
    (Pure(s, c) <==> w == 1) && (Empty(c) <==> w == 0)
  }

  lemma NothingIsEmpty(a: multiset<HashedSymbol>, b: multiset<HashedSymbol>)
    requires |a| + |b| == 0
    ensures Empty(Net(a, b))
  {
    assert a == multiset{} && b == multiset{};
    PlusZero(ZERO);
  }

  /** A cell that is not false tells how many symbols it counts, up to one. */
  lemma CellTells(s: Scheme, p: multiset<HashedSymbol>, n: multiset<HashedSymbol>, j: nat)
    requires Honest(s, p) && Honest(s, n)
    ensures Weight(s, p, n, j) == 1 ==> Pure(s, Residual(s, p, n, j))
    ensures Weight(s, p, n, j) == 0 ==> Empty(Residual(s, p, n, j))
    ensures NotFalse(s, p, n, j) ==> Tells(s, Residual(s, p, n, j), Weight(s, p, n, j))
  {
    if Weight(s, p, n, j) == 1 {
      var _ := One(s, p, n, j);
    }
    if Weight(s, p, n, j) == 0 {
      NothingIsEmpty(At(s, p, j), At(s, n, j));
    }
  }

  /** A cell is false exactly if it counts two symbols or more, and either its count and the sum of their
      hashes are zero, or its count is one, or minus one, and the sum of their hashes is the hash of their sum. */
  lemma FalseCells(s: Scheme, p: multiset<HashedSymbol>, n: multiset<HashedSymbol>, j: nat)
    requires Honest(s, p) && Honest(s, n)
    ensures var c, ins, outs := Residual(s, p, n, j), At(s, p, j), At(s, n, j);
            && c.count == |ins| - |outs| && c.hash == Xor(Total(ins).hash, Total(outs).hash)
            && c.symbol == Xor(Total(ins).symbol, Total(outs).symbol)
            && (!NotFalse(s, p, n, j) <==>
                  && |ins| + |outs| >= 2
                  && (|| (c.count == 0 && c.hash == {})
                      || ((c.count == 1 || c.count == -1) && c.hash == s.hash(c.symbol))))
  {
    hide At, Total, Hits;
    TotalCount(At(s, p, j));
    TotalCount(At(s, n, j));
    if |At(s, p, j)| + |At(s, n, j)| <= 1 {
      CellTells(s, p, n, j);
    }
  }

  // ---------- Taking one symbol out ----------

  lemma AtRemove(s: Scheme, m: multiset<HashedSymbol>, x: HashedSymbol, j: nat)
    requires x in m
    ensures At(s, m, j) == At(s, m - multiset{x}, j) + if Hits(s, x, j) then multiset{x} else multiset{}
  {
    AtAdd(s, m - multiset{x}, x, j);
    assert m - multiset{x} + multiset{x} == m;
  }

  lemma PeelIn(s: Scheme, p: multiset<HashedSymbol>, n: multiset<HashedSymbol>, x: HashedSymbol, j: nat)
    requires x in p
    ensures var c, p' := Residual(s, p, n, j), p - multiset{x};
            && Residual(s, p', n, j) == (if Hits(s, x, j) then c.Apply(x, REMOVE) else c)
            && Weight(s, p, n, j) == Weight(s, p', n, j) + if Hits(s, x, j) then 1 else 0
  {
    hide At, Total, Hits;
    AtRemove(s, p, x, j);
    if Hits(s, x, j) {
      var t := CellOf(s, p - multiset{x}, j);
      TotalAdd(At(s, p - multiset{x}, j), x);
      MinusMoves(Plus(t, Unit(x)), CellOf(s, n, j), Unit(x));
      PlusMinus(t, Unit(x));
    } else {
      assert At(s, p, j) == At(s, p - multiset{x}, j);
    }
  }

  lemma PeelOut(s: Scheme, p: multiset<HashedSymbol>, n: multiset<HashedSymbol>, x: HashedSymbol, j: nat)
    requires x in n
    ensures var c, n' := Residual(s, p, n, j), n - multiset{x};
            && Residual(s, p, n', j) == (if Hits(s, x, j) then c.Apply(x, ADD) else c)
            && Weight(s, p, n, j) == Weight(s, p, n', j) + if Hits(s, x, j) then 1 else 0
  {
    hide At, Total, Hits;
    AtRemove(s, n, x, j);
    if Hits(s, x, j) {
      var t := CellOf(s, n - multiset{x}, j);
      TotalAdd(At(s, n - multiset{x}, j), x);
      MinusMoves(CellOf(s, p, j), t, Unit(x));
      PlusMinus(Minus(CellOf(s, p, j), t), Unit(x));
    } else {
      assert At(s, n, j) == At(s, n - multiset{x}, j);
    }
  }

  // ---------- The schedule ----------

  /** Exactly the cells in `light` have been scheduled, each once: they wait, or have been processed. */
  ghost predicate Queued(light: set<nat>, pending: seq<nat>, done: set<nat>) {
    && Distinct(pending)
    && (forall j :: j in pending ==> j !in done)
    && (forall j :: j in light <==> j in pending || j in done)
  }

  lemma QueueStep(light: set<nat>, light': set<nat>, pending: seq<nat>, done: set<nat>, newly: seq<nat>)
    requires Queued(light, pending, done) && |pending| > 0
    requires Distinct(newly) && light <= light'
    requires forall j :: j in newly <==> j in light' && j !in light
    ensures Queued(light', pending[1..] + newly, done + {pending[0]})
  {
    var c, rest := pending[0], pending[1..];
    assert forall j :: j in pending <==> j == c || j in rest;
    assert c in pending && c !in rest;
    assert forall j :: j in rest + newly <==> j in rest || j in newly;
    assert forall i :: 0 <= i < |newly| ==> newly[i] in newly;
    assert forall i :: 0 <= i < |rest| ==> rest[i] in rest;
  }

  /** How many symbols the first `k` cells count. */
  ghost function Weights(s: Scheme, p: multiset<HashedSymbol>, n: multiset<HashedSymbol>, k: nat): seq<nat> {
    seq(k, j requires 0 <= j < k => Weight(s, p, n, j))
  }

  ghost function Light(ws: seq<nat>): set<nat> {
    set j | 0 <= j < |ws| && ws[j] <= 1
  }

  ghost predicate AllZero(ws: seq<nat>, done: set<nat>) {
    forall j :: j in done ==> j < |ws| && ws[j] == 0
  }

  /** The cells hold what is left of the difference; exactly those that count at most one symbol
      have been scheduled, each once, and those already processed (`done`) are empty. */
  ghost predicate Scheduled(s: Scheme, p: multiset<HashedSymbol>, n: multiset<HashedSymbol>,
                            coded: seq<CodedSymbol>, pending: seq<nat>, done: set<nat>) {
    && (forall j :: 0 <= j < |coded| ==> coded[j] == Residual(s, p, n, j))
    && Queued(Light(Weights(s, p, n, |coded|)), pending, done)
    && AllZero(Weights(s, p, n, |coded|), done)
  }

  /** A scheduled cell is there, and counts at most one symbol. */
  lemma PendingIsLight(s: Scheme, p: multiset<HashedSymbol>, n: multiset<HashedSymbol>,
                       coded: seq<CodedSymbol>, pending: seq<nat>, done: set<nat>, i: nat)
    requires Scheduled(s, p, n, coded, pending, done) && i < |pending|
    ensures pending[i] < |coded| && Weight(s, p, n, pending[i]) <= 1 && pending[i] !in done
  {
    assert pending[i] in pending;
    assert pending[i] in Light(Weights(s, p, n, |coded|));
  }

  /** `coded` with the symbol `x` counted in, or out, wherever its index sequence says. */
  ghost predicate Spread(s: Scheme, coded: seq<CodedSymbol>, coded': seq<CodedSymbol>, x: HashedSymbol, d: Direction) {
    && |coded'| == |coded|
    && forall j :: 0 <= j < |coded| ==> coded'[j] == if Hits(s, x, j) then coded[j].Apply(x, d) else coded[j]
  }

  /** The cells below `k`, in order, that count `x` and are pure. */
  function PureCells(s: Scheme, coded: seq<CodedSymbol>, x: HashedSymbol, k: nat): seq<nat>
    requires k <= |coded|
  {
    if k == 0 then []
    else PureCells(s, coded, x, k - 1) + if Hits(s, x, k - 1) && Pure(s, coded[k - 1]) then [k - 1] else []
  }

  lemma {:induction false} PureCellsAre(s: Scheme, coded: seq<CodedSymbol>, x: HashedSymbol, k: nat)
    requires k <= |coded|
    ensures var r := PureCells(s, coded, x, k);
            && (forall j :: j in r <==> 0 <= j < k && Hits(s, x, j) && Pure(s, coded[j]))
            && Distinct(r)
  {
    if k > 0 {
      PureCellsAre(s, coded, x, k - 1);
      var r := PureCells(s, coded, x, k - 1);
      assert forall i :: 0 <= i < |r| ==> r[i] in r;
    }
  }

  lemma {:induction false} NoPureCells(s: Scheme, coded: seq<CodedSymbol>, x: HashedSymbol, k: nat, n: nat)
    requires k <= n <= |coded| && n <= Advance(s, Start(x), k).lastIdx
    ensures PureCells(s, coded, x, n) == PureCells(s, coded, x, k)
  {
    if k < n {
      AdvanceGap(s, Start(x), k, n - 1);
      NoPureCells(s, coded, x, k, n - 1);
    }
  }

  lemma {:induction false} PureCellsKept(s: Scheme, coded: seq<CodedSymbol>, coded': seq<CodedSymbol>,
                                         x: HashedSymbol, n: nat)
    requires n <= |coded| == |coded'| && forall j :: 0 <= j < n ==> coded'[j] == coded[j]
    ensures PureCells(s, coded', x, n) == PureCells(s, coded, x, n)
  {
    if n > 0 {
      PureCellsKept(s, coded, coded', x, n - 1);
    }
  }

  /** `coded` has `x` counted in, or out, as far as cell `k`. */
  ghost predicate SpreadTo(s: Scheme, coded: seq<CodedSymbol>, coded': seq<CodedSymbol>, x: HashedSymbol,
                           d: Direction, k: nat) {
    && |coded'| == |coded|
    && forall j :: 0 <= j < |coded| ==> coded'[j] == if j < k && Hits(s, x, j) then coded[j].Apply(x, d) else coded[j]
  }

  lemma NoHits(s: Scheme, x: HashedSymbol, k: nat, n: nat)
    requires k <= n <= Advance(s, Start(x), k).lastIdx
    ensures forall j :: k <= j < n ==> !Hits(s, x, j)
  {
    forall j | k <= j < n
      ensures !Hits(s, x, j)
    {
      AdvanceGap(s, Start(x), k, j);
    }
  }

  /** One turn of the loop of `ApplyNewSymbol`: `n` is the next index after those below `k`. */
  lemma SpreadStep(s: Scheme, coded: seq<CodedSymbol>, coded': seq<CodedSymbol>, x: HashedSymbol, d: Direction,
                   k: nat, n: nat)
    requires SpreadTo(s, coded, coded', x, d, k)
    requires k <= n < |coded| && n == Advance(s, Start(x), k).lastIdx
    ensures Advance(s, Start(x), n + 1) == s.next(Advance(s, Start(x), k))
    ensures var c := coded'[n].Apply(x, d);
            && SpreadTo(s, coded, coded'[n := c], x, d, n + 1)
            && PureCells(s, coded'[n := c], x, n + 1) == PureCells(s, coded', x, k) + if Pure(s, c) then [n] else []
  {
    NoHits(s, x, k, n);
    AdvanceGap(s, Start(x), k, n);
    AdvanceStep(s, Start(x), n);
    NoPureCells(s, coded', x, k, n);
    PureCellsKept(s, coded', coded'[n := coded'[n].Apply(x, d)], x, n);
  }

  lemma SpreadDone(s: Scheme, coded: seq<CodedSymbol>, coded': seq<CodedSymbol>, x: HashedSymbol, d: Direction, k: nat)
    requires SpreadTo(s, coded, coded', x, d, k)
    requires k <= |coded| <= Advance(s, Start(x), k).lastIdx
    ensures Spread(s, coded, coded', x, d)
    ensures PureCells(s, coded', x, |coded|) == PureCells(s, coded', x, k)
    ensures Advance(s, Start(x), |coded|) == Advance(s, Start(x), k)
  {
    NoHits(s, x, k, |coded|);
    NoPureCells(s, coded', x, k, |coded|);
    AdvanceGap(s, Start(x), k, |coded|);
  }

  /** Processing a scheduled cell that is empty. */
  lemma ProcessEmpty(s: Scheme, p: multiset<HashedSymbol>, n: multiset<HashedSymbol>,
                     coded: seq<CodedSymbol>, pending: seq<nat>, done: set<nat>)
    requires Scheduled(s, p, n, coded, pending, done) && |pending| > 0
    requires Weight(s, p, n, pending[0]) == 0
    ensures Scheduled(s, p, n, coded, pending[1..], done + {pending[0]})
  {
    var ws := Weights(s, p, n, |coded|);
    PendingIsLight(s, p, n, coded, pending, done, 0);
    QueueStep(Light(ws), Light(ws), pending, done, []);
    assert pending[1..] + [] == pending[1..];
  }

  /** From `p, n` to `p', n'`, the symbol `x` has gone, from the side that `d` says. */
  ghost predicate Gone(p: multiset<HashedSymbol>, n: multiset<HashedSymbol>, p': multiset<HashedSymbol>,
                       n': multiset<HashedSymbol>,
                       x: HashedSymbol, d: Direction) {
    if d.REMOVE? then x in p && p' == p - multiset{x} && n' == n
    else x in n && n' == n - multiset{x} && p' == p
  }

  lemma Peel(s: Scheme, p: multiset<HashedSymbol>, n: multiset<HashedSymbol>, p': multiset<HashedSymbol>,
             n': multiset<HashedSymbol>,
             x: HashedSymbol, d: Direction, j: nat)
    requires Gone(p, n, p', n', x, d)
    ensures var c := Residual(s, p, n, j);
            Residual(s, p', n', j) == if Hits(s, x, j) then c.Apply(x, d) else c
    ensures Weight(s, p, n, j) == Weight(s, p', n', j) + if Hits(s, x, j) then 1 else 0
  {
    if d.REMOVE? {
      PeelIn(s, p, n, x, j);
    } else {
      PeelOut(s, p, n, x, j);
    }
  }

  /** None of the cells below `k` that `x` hits looks like one symbol, unless it is. */
  ghost predicate NoneFalse(s: Scheme, p: multiset<HashedSymbol>, n: multiset<HashedSymbol>, x: HashedSymbol, k: nat) {
    forall j :: 0 <= j < k && Hits(s, x, j) && Pure(s, Residual(s, p, n, j)) ==> Weight(s, p, n, j) == 1
  }

  /** Once `x` has gone, the cells that have become light are the pure ones among those that counted it. */
  lemma NewlyLight(s: Scheme, p: multiset<HashedSymbol>, n: multiset<HashedSymbol>, p': multiset<HashedSymbol>,
                   n': multiset<HashedSymbol>,
                   x: HashedSymbol, d: Direction, j: nat, k: nat)
    requires Honest(s, p') && Honest(s, n') && NoneFalse(s, p', n', x, k) && j < k && Gone(p, n, p', n', x, d)
    ensures Weight(s, p', n', j) <= Weight(s, p, n, j)
    ensures Hits(s, x, j) && Pure(s, Residual(s, p', n', j)) <==> Weight(s, p', n', j) <= 1 < Weight(s, p, n, j)
  {
    Peel(s, p, n, p', n', x, d, j);
    CellTells(s, p', n', j);
  }

  lemma WeightsStep(ws: seq<nat>, ws': seq<nat>, pending: seq<nat>, done: set<nat>, newly: seq<nat>)
    requires Queued(Light(ws), pending, done) && AllZero(ws, done) && |pending| > 0
    requires |ws| == |ws'| && forall j :: 0 <= j < |ws| ==> ws'[j] <= ws[j]
    requires Distinct(newly) && forall j :: j in newly <==> 0 <= j < |ws| && ws'[j] <= 1 < ws[j]
    requires pending[0] < |ws| && ws'[pending[0]] == 0
    ensures Queued(Light(ws'), pending[1..] + newly, done + {pending[0]}) && AllZero(ws', done + {pending[0]})
  {
    QueueStep(Light(ws), Light(ws'), pending, done, newly);
  }

  lemma PeeledCell(s: Scheme, p: multiset<HashedSymbol>, n: multiset<HashedSymbol>, p': multiset<HashedSymbol>,
                   n': multiset<HashedSymbol>,
                   coded: seq<CodedSymbol>, coded': seq<CodedSymbol>, x: HashedSymbol, d: Direction, j: nat)
    requires Honest(s, p') && Honest(s, n') && NoneFalse(s, p', n', x, |coded|)
    requires Gone(p, n, p', n', x, d) && Spread(s, coded, coded', x, d)
    requires j < |coded| && coded[j] == Residual(s, p, n, j)
    ensures var w, w' := Weight(s, p, n, j), Weight(s, p', n', j);
            && w == w' + (if Hits(s, x, j) then 1 else 0)
            && coded'[j] == Residual(s, p', n', j)
            && (Hits(s, x, j) && Pure(s, coded'[j]) <==> w' <= 1 < w)
  {
    Peel(s, p, n, p', n', x, d, j);
    NewlyLight(s, p, n, p', n', x, d, j, |coded|);
  }

  /** What `x` going does to the weights `ws` of all the cells. */
  ghost predicate Peeled(s: Scheme, ws: seq<nat>, ws': seq<nat>, coded': seq<CodedSymbol>, x: HashedSymbol) {
    && |ws| == |ws'| == |coded'|
    && (forall j :: 0 <= j < |ws| ==> ws[j] == ws'[j] + if Hits(s, x, j) then 1 else 0)
    && (forall j :: 0 <= j < |ws| ==> (Hits(s, x, j) && Pure(s, coded'[j]) <==> ws'[j] <= 1 < ws[j]))
  }

  lemma PeeledCells(s: Scheme, p: multiset<HashedSymbol>, n: multiset<HashedSymbol>, p': multiset<HashedSymbol>,
                    n': multiset<HashedSymbol>,
                    coded: seq<CodedSymbol>, coded': seq<CodedSymbol>, x: HashedSymbol, d: Direction)
    requires Honest(s, p') && Honest(s, n') && NoneFalse(s, p', n', x, |coded|)
    requires Gone(p, n, p', n', x, d) && Spread(s, coded, coded', x, d)
    requires forall j :: 0 <= j < |coded| ==> coded[j] == Residual(s, p, n, j)
    ensures Peeled(s, Weights(s, p, n, |coded|), Weights(s, p', n', |coded|), coded', x)
    ensures forall j :: 0 <= j < |coded'| ==> coded'[j] == Residual(s, p', n', j)
  {
    forall j: nat | j < |coded|
      ensures Weight(s, p, n, j) == Weight(s, p', n', j) + (if Hits(s, x, j) then 1 else 0)
              && coded'[j] == Residual(s, p', n', j)
      ensures Hits(s, x, j) && Pure(s, coded'[j]) <==> Weight(s, p', n', j) <= 1 < Weight(s, p, n, j)
    {
      PeeledCell(s, p, n, p', n', coded, coded', x, d, j);
    }
  }

  lemma PeeledSchedule(s: Scheme, ws: seq<nat>, ws': seq<nat>, coded': seq<CodedSymbol>, pending: seq<nat>,
                       done: set<nat>, x: HashedSymbol)
    requires Peeled(s, ws, ws', coded', x)
    requires Queued(Light(ws), pending, done) && AllZero(ws, done)
    requires |pending| > 0 && pending[0] < |ws| && ws[pending[0]] == 1 && Hits(s, x, pending[0])
    ensures var pending' := pending[1..] + PureCells(s, coded', x, |coded'|);
            Queued(Light(ws'), pending', done + {pending[0]}) && AllZero(ws', done + {pending[0]})
  {
    PureCellsAre(s, coded', x, |coded'|);
    WeightsStep(ws, ws', pending, done, PureCells(s, coded', x, |coded'|));
  }

  /** Processing a scheduled cell that counts the one symbol `x`. */
  lemma ProcessPure(s: Scheme, p: multiset<HashedSymbol>, n: multiset<HashedSymbol>, p': multiset<HashedSymbol>,
                    n': multiset<HashedSymbol>,
                    coded: seq<CodedSymbol>, coded': seq<CodedSymbol>, pending: seq<nat>, done: set<nat>,
                    x: HashedSymbol, d: Direction)
    requires Honest(s, p') && Honest(s, n') && NoneFalse(s, p', n', x, |coded|)
    requires Scheduled(s, p, n, coded, pending, done) && |pending| > 0
    requires Weight(s, p, n, pending[0]) == 1 && Hits(s, x, pending[0])
    requires Gone(p, n, p', n', x, d) && Spread(s, coded, coded', x, d)
    ensures Scheduled(s, p', n', coded', pending[1..] + PureCells(s, coded', x, |coded'|), done + {pending[0]})
  {
    PendingIsLight(s, p, n, coded, pending, done, 0);
    PeeledCells(s, p, n, p', n', coded, coded', x, d);
    PeeledSchedule(s, Weights(s, p, n, |coded|), Weights(s, p', n', |coded|), coded', pending, done, x);
  }

  lemma QueueAdd(light: set<nat>, pending: seq<nat>, done: set<nat>, c: nat)
    requires Queued(light, pending, done) && c !in light
    ensures Queued(light + {c}, pending + [c], done)
  {
    assert forall j :: j in pending + [c] <==> j in pending || j == c;
    assert forall i :: 0 <= i < |pending| ==> pending[i] in pending;
  }

  lemma WeightsAdd(ws: seq<nat>, w: nat, pending: seq<nat>, done: set<nat>)
    requires Queued(Light(ws), pending, done) && AllZero(ws, done)
    ensures Queued(Light(ws + [w]), if w <= 1 then pending + [|ws|] else pending, done) && AllZero(ws + [w], done)
  {
    assert Light(ws + [w]) == Light(ws) + if w <= 1 then {|ws|} else {};
    if w <= 1 {
      QueueAdd(Light(ws), pending, done, |ws|);
    }
  }

  /** A new cell is scheduled when it is pure or empty. */
  lemma AddCell(s: Scheme, p: multiset<HashedSymbol>, n: multiset<HashedSymbol>,
                coded: seq<CodedSymbol>, pending: seq<nat>, done: set<nat>, c: CodedSymbol)
    requires Honest(s, p) && Honest(s, n) && NotFalse(s, p, n, |coded|)
    requires Scheduled(s, p, n, coded, pending, done)
    requires c == Residual(s, p, n, |coded|)
    ensures Scheduled(s, p, n, coded + [c], Arrive(s, pending, |coded|, c), done)
  {
    var k := |coded|;
    CellTells(s, p, n, k);
    WeightsAdd(Weights(s, p, n, k), Weight(s, p, n, k), pending, done);
    assert Weights(s, p, n, k + 1) == Weights(s, p, n, k) + [Weight(s, p, n, k)];
  }

  ghost function Below(k: nat): (r: set<nat>)
    ensures |r| == k && forall j :: j in r <==> 0 <= j < k
  {
    if k == 0 then {} else Below(k - 1) + {k - 1}
  }

  lemma BelowCount(done: set<nat>, k: nat)
    requires forall j :: j in done ==> j < k
    ensures |done| <= k
    ensures |done| == k <==> done == Below(k)
  {
    assert done <= Below(k);
    assert |Below(k)| == |done| + |Below(k) - done|;
    assert Below(k) - done == {} ==> done == Below(k);
  }

  /** Once nothing is pending, all cells have been processed exactly when nothing is left of the
      difference. */
  lemma AllDone(s: Scheme, p: multiset<HashedSymbol>, n: multiset<HashedSymbol>, coded: seq<CodedSymbol>,
                done: set<nat>)
    requires Scheduled(s, p, n, coded, [], done) && |coded| > 0
    ensures |done| == |coded| <==> p == multiset{} && n == multiset{}
  {
    assert done == Light(Weights(s, p, n, |coded|));
    BelowCount(done, |coded|);
    if |done| == |coded| {
      DoneIsAll(s, p, n, coded, [], done);
    }
    if p == multiset{} && n == multiset{} {
      forall j | 0 <= j < |coded|
        ensures j in done
      {
        assert Weight(s, p, n, j) == 0;
      }
      assert done == Below(|coded|);
    }
  }

  /** Even with cells pending: when all cells have been processed, nothing is left of the difference,
      because every symbol is counted in cell 0. */
  lemma DoneIsAll(s: Scheme, p: multiset<HashedSymbol>, n: multiset<HashedSymbol>,
                  coded: seq<CodedSymbol>, pending: seq<nat>, done: set<nat>)
    requires Scheduled(s, p, n, coded, pending, done) && 0 < |coded| == |done|
    ensures p == multiset{} && n == multiset{}
  {
    BelowCount(done, |coded|);
    assert 0 in done;
    assert Weight(s, p, n, 0) == 0;
    AllInCellZero(s, p);
    AllInCellZero(s, n);
  }

  lemma AllInCellZero(s: Scheme, m: multiset<HashedSymbol>)
    ensures At(s, m, 0) == m
  {
    forall x
      ensures At(s, m, 0)[x] == m[x]
    {
      AtCount(s, m, 0, x);
    }
  }

  // ---------- What arrives ----------

  lemma XorSolves(a: Word, c: Word, b: Word, r: Word, l: Word, p: Word, n: Word)
    requires Xor(Xor(a, n), l) == Xor(Xor(Xor(c, b), p), r)
    ensures Xor(Xor(Xor(Xor(a, c), b), r), l) == Xor(p, n)
  {
    forall k
      ensures k in Xor(Xor(Xor(Xor(a, c), b), r), l) <==> k in Xor(p, n)
    {
      assert k in Xor(Xor(a, n), l) <==> k in Xor(Xor(Xor(c, b), p), r);
    }
  }

  lemma CellSolves(a: CodedSymbol, c: CodedSymbol, b: CodedSymbol, r: CodedSymbol, l: CodedSymbol, p: CodedSymbol,
                   n: CodedSymbol)
    requires Plus(Plus(a, n), l) == Plus(Plus(Plus(c, b), p), r)
    ensures Plus(Minus(Minus(Minus(a, c), b), r), l) == Minus(p, n)
  {
    XorSolves(a.symbol, c.symbol, b.symbol, r.symbol, l.symbol, p.symbol, n.symbol);
    XorSolves(a.hash, c.hash, b.hash, r.hash, l.hash, p.hash, n.hash);
  }

  /** Taking the window `b` and the decoded symbols `r` out of a cell of the stream `a - c`, and
      putting the decoded symbols `l` in, leaves the cell of what is left of the difference. */
  lemma ArrivedCell(s: Scheme, a: multiset<HashedSymbol>, c: multiset<HashedSymbol>, b: multiset<HashedSymbol>,
                    r: multiset<HashedSymbol>, l: multiset<HashedSymbol>, j: nat)
    requires r <= a - (c + b) && l <= (c + b) - a
    ensures Plus(Minus(Minus(Minus(CellOf(s, a, j), CellOf(s, c, j)), CellOf(s, b, j)), CellOf(s, r, j)),
                 CellOf(s, l, j))
            == Residual(s, a - (c + b) - r, (c + b) - a - l, j)
  {
    var p, n := a - (c + b) - r, (c + b) - a - l;
    assert a + n + l == c + b + p + r;
    CellOfUnion(s, a + n, l, j);
    CellOfUnion(s, a, n, j);
    CellOfUnion(s, c + b + p, r, j);
    CellOfUnion(s, c + b, p, j);
    CellOfUnion(s, c, b, j);
    CellSolves(CellOf(s, a, j), CellOf(s, c, j), CellOf(s, b, j), CellOf(s, r, j), CellOf(s, l, j), CellOf(s, p, j),
               CellOf(s, n, j));
  }

  // ---------- Runs without false cells ----------

  datatype Step = SendCell | TryDecode

  /** The schedule after cell `k` has arrived. */
  function Arrive(s: Scheme, pending: seq<nat>, k: nat, cell: CodedSymbol): seq<nat> {
    if Pure(s, cell) || Empty(cell) then pending + [k] else pending
  }

  /** The first `k` cells of what is left of the difference. */
  ghost function Cells(s: Scheme, p: multiset<HashedSymbol>, n: multiset<HashedSymbol>, k: nat): seq<CodedSymbol> {
    seq(k, j requires 0 <= j < k => Residual(s, p, n, j))
  }

  /** The schedule once `x` has gone. */
  ghost function Rescheduled(s: Scheme, p: multiset<HashedSymbol>, n: multiset<HashedSymbol>, k: nat,
                             pending: seq<nat>, x: HashedSymbol): seq<nat>
    requires |pending| > 0
  {
    pending[1..] + PureCells(s, Cells(s, p, n, k), x, k)
  }

  /** The one assumption about the hash: in this run no cell that the decoder looks at, when it
      arrives or when a symbol is taken out of it, looks like one symbol, or like nothing, unless it
      is. Of the difference `p` in, `n` out is left, and `k` cells have arrived. */
  ghost predicate Clean(s: Scheme, p: multiset<HashedSymbol>, n: multiset<HashedSymbol>, k: nat, pending: seq<nat>,
                        steps: seq<Step>)
    decreases |steps|, |p| + |n|, |pending|
  {
    |steps| > 0 ==>
      match steps[0]
      case SendCell =>
        && NotFalse(s, p, n, k)
        && Clean(s, p, n, k + 1, Arrive(s, pending, k, Residual(s, p, n, k)), steps[1..])
      case TryDecode =>
        if |pending| == 0 then Clean(s, p, n, k, pending, steps[1..])
        else
          var c := Residual(s, p, n, pending[0]);
          var x := HashedSymbol(c.symbol, c.hash);
          if c.count == 1 && x in p then
            && NoneFalse(s, p - multiset{x}, n, x, k)
            && Clean(s, p - multiset{x}, n, k, Rescheduled(s, p - multiset{x}, n, k, pending, x), steps)
          else if c.count == -1 && x in n then
            && NoneFalse(s, p, n - multiset{x}, x, k)
            && Clean(s, p, n - multiset{x}, k, Rescheduled(s, p, n - multiset{x}, k, pending, x), steps)
          else Clean(s, p, n, k, pending[1..], steps)
  }

  /** No part of the difference looks like one symbol, or like nothing, unless it is. */
  ghost predicate NoFalsePure(s: Scheme, p0: multiset<HashedSymbol>, n0: multiset<HashedSymbol>) {
    forall p, n {:trigger Net(p, n)} :: p <= p0 && n <= n0 ==>
      && (Pure(s, Net(p, n)) ==> |p| + |n| == 1)
      && (Empty(Net(p, n)) ==> |p| + |n| == 0)
  }

  lemma NoFalsePureCells(s: Scheme, p0: multiset<HashedSymbol>, n0: multiset<HashedSymbol>,
                         p: multiset<HashedSymbol>, n: multiset<HashedSymbol>, j: nat)
    requires NoFalsePure(s, p0, n0) && p <= p0 && n <= n0
    ensures NotFalse(s, p, n, j)
  {
    AtSubset(s, p, j);
    AtSubset(s, n, j);
    assert Residual(s, p, n, j) == Net(At(s, p, j), At(s, n, j));
  }

  /** Then every run is without false cells. */
  lemma {:induction false} NoFalsePureIsClean(s: Scheme, p0: multiset<HashedSymbol>, n0: multiset<HashedSymbol>,
                                              p: multiset<HashedSymbol>, n: multiset<HashedSymbol>, k: nat,
                                              pending: seq<nat>, steps: seq<Step>)
    requires NoFalsePure(s, p0, n0) && p <= p0 && n <= n0
    ensures Clean(s, p, n, k, pending, steps)
    decreases |steps|, |p| + |n|, |pending|
  {
    hide NoFalsePure, Rescheduled, Residual;
    if |steps| > 0 {
      match steps[0]
      case SendCell =>
        NoFalsePureCells(s, p0, n0, p, n, k);
        NoFalsePureIsClean(s, p0, n0, p, n, k + 1, Arrive(s, pending, k, Residual(s, p, n, k)), steps[1..]);
      case TryDecode =>
        if |pending| == 0 {
          NoFalsePureIsClean(s, p0, n0, p, n, k, pending, steps[1..]);
        } else {
          var c := Residual(s, p, n, pending[0]);
          var x := HashedSymbol(c.symbol, c.hash);
          if c.count == 1 && x in p {
            NoneFalseAnywhere(s, p0, n0, p - multiset{x}, n, x, k);
            NoFalsePureIsClean(s, p0, n0, p - multiset{x}, n, k, Rescheduled(s, p - multiset{x}, n, k, pending, x),
                               steps);
          } else if c.count == -1 && x in n {
            NoneFalseAnywhere(s, p0, n0, p, n - multiset{x}, x, k);
            NoFalsePureIsClean(s, p0, n0, p, n - multiset{x}, k, Rescheduled(s, p, n - multiset{x}, k, pending, x),
                               steps);
          } else {
            NoFalsePureIsClean(s, p0, n0, p, n, k, pending[1..], steps);
          }
        }
    }
  }

  lemma NoneFalseAnywhere(s: Scheme, p0: multiset<HashedSymbol>, n0: multiset<HashedSymbol>,
                          p: multiset<HashedSymbol>, n: multiset<HashedSymbol>, x: HashedSymbol, k: nat)
    requires NoFalsePure(s, p0, n0) && p <= p0 && n <= n0
    ensures NoneFalse(s, p, n, x, k)
  {
    hide NoFalsePure;
    forall j: nat | j < k
      ensures Pure(s, Residual(s, p, n, j)) ==> Weight(s, p, n, j) == 1
    {
      NoFalsePureCells(s, p0, n0, p, n, j);
    }
  }

  /** Where only one side has symbols of its own nothing is false, whatever the hash: the count tells. */
  lemma OneSideIsNeverFalse(s: Scheme, m: multiset<HashedSymbol>)
    ensures NoFalsePure(s, m, multiset{}) && NoFalsePure(s, multiset{}, m)
  {
    forall p, n | p <= m && n <= multiset{}
      ensures Net(p, n).count == |p| && Net(n, p).count == -|p| && |n| == 0
    {
      assert n == multiset{};
      TotalCount(p);
      TotalCount(n);
    }
  }

  /** A symbol that is there twice cancels itself: with one on the other side it looks like that one. */
  lemma TwiceLooksLikeOne(s: Scheme, x: HashedSymbol, y: HashedSymbol)
    requires y.hash == s.hash(y.symbol)
    ensures Net(multiset{x, x}, multiset{y}) == Unit(y) && Pure(s, Unit(y))
  {
    TotalOne(y);
    TotalOne(x);
    assert multiset{x, x} == multiset{x} + multiset{x};
    TotalUnion(multiset{x}, multiset{x});
    XorSelfInverse(y.symbol, x.symbol);
    XorSelfInverse(y.hash, x.hash);
    XorSelfInverse(x.symbol, {});
    XorSelfInverse(x.hash, {});
  }

  /** So there is always a false part in a difference with a symbol twice on one side and any on the other. */
  lemma RepeatedIsFalse(s: Scheme, p0: multiset<HashedSymbol>, n0: multiset<HashedSymbol>, x: HashedSymbol,
                        y: HashedSymbol)
    requires p0[x] >= 2 && y in n0 && y.hash == s.hash(y.symbol)
    ensures !NoFalsePure(s, p0, n0)
  {
    TwiceLooksLikeOne(s, x, y);
    assert multiset{x, x} <= p0 && multiset{y} <= n0;
  }

  /** And so a decoder is misled, whatever the hash: when the sender has `x` twice and the receiver
      has `y`, the first cell shows `y` as a symbol of the sender; once that has been taken out the
      only cell is counted, nothing is scheduled, and the decoder says it has decoded. */
  lemma RepeatedMisleads(s: Scheme, x: HashedSymbol, y: HashedSymbol)
    requires y.hash == s.hash(y.symbol)
    ensures var c := Residual(s, multiset{x, x}, multiset{y}, 0);
            && Arrive(s, [], 0, c) == [0] && c.count == 1 && HashedSymbol(c.symbol, c.hash) == y
            && Empty(c.Apply(y, REMOVE)) && PureCells(s, [c.Apply(y, REMOVE)], y, 1) == []
  {
    AllInCellZero(s, multiset{x, x});
    AllInCellZero(s, multiset{y});
    TwiceLooksLikeOne(s, x, y);
    XorSelfInverse(y.hash, {});
    hide Net, At, Hits;
    assert PureCells(s, [Unit(y).Apply(y, REMOVE)], y, 0) == [];
  }

  // ---------- The state of a decoder ----------

  /** What has been decoded is there once. */
  ghost predicate Once(p0: multiset<HashedSymbol>, r: multiset<HashedSymbol>) {
    forall x :: x in r ==> p0[x] == 1
  }

  // What peeling comes to

  /** No one of the first `k` cells counts one symbol alone: there is nothing to begin with. */
  ghost predicate Stopping(s: Scheme, p: multiset<HashedSymbol>, n: multiset<HashedSymbol>, k: nat) {
    forall j :: 0 <= j < k ==> Weight(s, p, n, j) != 1
  }

  /** Whatever has nothing to begin with, with as many cells or more, has been left as it is. */
  ghost predicate Untouched(s: Scheme, p0: multiset<HashedSymbol>, n0: multiset<HashedSymbol>,
                            r: multiset<HashedSymbol>, l: multiset<HashedSymbol>, k: nat) {
    forall p, n, m :: k <= m && p <= p0 && n <= n0 && Stopping(s, p, n, m) ==> p <= p0 - r && n <= n0 - l
  }

  /** `p` and `n` have nothing to begin with, and there is no more of the difference of which this is so. */
  ghost predicate LargestStopping(s: Scheme, p0: multiset<HashedSymbol>, n0: multiset<HashedSymbol>,
                                  p: multiset<HashedSymbol>, n: multiset<HashedSymbol>, k: nat) {
    && p <= p0 && n <= n0 && Stopping(s, p, n, k)
    && forall p', n' :: p' <= p0 && n' <= n0 && Stopping(s, p', n', k) ==> p' <= p && n' <= n
  }

  /** Some part of the difference has nothing to begin with. */
  ghost predicate HasStopping(s: Scheme, p0: multiset<HashedSymbol>, n0: multiset<HashedSymbol>, k: nat) {
    exists p, n :: p <= p0 && n <= n0 && |p| + |n| > 0 && Stopping(s, p, n, k)
  }

  lemma SizeUpTo(a: multiset<HashedSymbol>, b: multiset<HashedSymbol>)
    requires a <= b
    ensures |a| <= |b|
  {
    assert b == a + (b - a);
  }

  lemma WeightUpTo(s: Scheme, p: multiset<HashedSymbol>, n: multiset<HashedSymbol>,
                   p': multiset<HashedSymbol>, n': multiset<HashedSymbol>, j: nat)
    requires p <= p' && n <= n'
    ensures Weight(s, p, n, j) <= Weight(s, p', n', j)
  {
    forall x
      ensures At(s, p, j)[x] <= At(s, p', j)[x] && At(s, n, j)[x] <= At(s, n', j)[x]
    {
      AtCount(s, p, j, x);
      AtCount(s, p', j, x);
      AtCount(s, n, j, x);
      AtCount(s, n', j, x);
    }
    SizeUpTo(At(s, p, j), At(s, p', j));
    SizeUpTo(At(s, n, j), At(s, n', j));
  }

  lemma HitWeighs(s: Scheme, p: multiset<HashedSymbol>, n: multiset<HashedSymbol>, x: HashedSymbol, j: nat)
    requires (x in p || x in n) && Hits(s, x, j)
    ensures Weight(s, p, n, j) >= 1
  {
    AtCount(s, p, j, x);
    AtCount(s, n, j, x);
    assert x in At(s, p, j) || x in At(s, n, j);
  }

  /** A symbol that is alone in a cell is in nothing that has nothing to begin with. */
  lemma AloneIsOutside(s: Scheme, p0: multiset<HashedSymbol>, n0: multiset<HashedSymbol>,
                       p: multiset<HashedSymbol>, n: multiset<HashedSymbol>, x: HashedSymbol, j: nat, k: nat)
    requires p <= p0 && n <= n0 && Stopping(s, p, n, k) && j < k
    requires Weight(s, p0, n0, j) == 1 && Hits(s, x, j)
    ensures x !in p && x !in n
  {
    WeightUpTo(s, p, n, p0, n0, j);
    if x in p || x in n {
      HitWeighs(s, p, n, x, j);
    }
  }

  /** Taking out a symbol that is alone in a cell leaves these as they are. */
  lemma StillUntouched(s: Scheme, p0: multiset<HashedSymbol>, n0: multiset<HashedSymbol>,
                       r: multiset<HashedSymbol>, l: multiset<HashedSymbol>, r': multiset<HashedSymbol>,
                       l': multiset<HashedSymbol>, k: nat, x: HashedSymbol, d: Direction, j: nat)
    requires Untouched(s, p0, n0, r, l, k) && r <= p0 && l <= n0 && Found(r, l, r', l', x, d) && j < k
    requires Weight(s, p0 - r, n0 - l, j) == 1 && Hits(s, x, j)
    ensures Untouched(s, p0, n0, r', l', k)
  {
    hide Stopping, Weight, Hits;
    forall p, n, m | k <= m && p <= p0 && n <= n0 && Stopping(s, p, n, m)
      ensures p <= p0 - r' && n <= n0 - l'
    {
      AloneIsOutside(s, p0 - r, n0 - l, p, n, x, j, m);
      OneLess(p0, r, p, x);
      OneLess(n0, l, n, x);
    }
  }

  lemma OneLess(m: multiset<HashedSymbol>, r: multiset<HashedSymbol>, p: multiset<HashedSymbol>, x: HashedSymbol)
    requires p <= m - r && x !in p
    ensures p <= m - (r + multiset{x})
  {
  }

  lemma NothingTouched(s: Scheme, p0: multiset<HashedSymbol>, n0: multiset<HashedSymbol>, k: nat)
    ensures Untouched(s, p0, n0, multiset{}, multiset{}, k)
  {
    assert p0 - multiset{} == p0 && n0 - multiset{} == n0;
  }

  lemma UntouchedLater(s: Scheme, p0: multiset<HashedSymbol>, n0: multiset<HashedSymbol>,
                       r: multiset<HashedSymbol>, l: multiset<HashedSymbol>, k: nat)
    requires Untouched(s, p0, n0, r, l, k)
    ensures Untouched(s, p0, n0, r, l, k + 1)
  {
    hide Stopping;
  }

  /** Two symbols, of which one is alone in cell 1: every part of them can be begun with. */
  lemma PartedBegin(s: Scheme, x: HashedSymbol, y: HashedSymbol, k: nat)
    requires Hits(s, x, 1) && !Hits(s, y, 1) && k >= 2
    ensures !HasStopping(s, multiset{x, y}, multiset{}, k)
  {
    forall p, n | p <= multiset{x, y} && n <= multiset{} && |p| + |n| > 0
      ensures !Stopping(s, p, n, k)
    {
      assert n == multiset{} && multiset{x, y} == multiset{x} + multiset{y};
      AllInCellZero(s, p);
      AllInCellZero(s, n);
      AtNothing(s, 1);
      if |p| == 1 {
        assert Weight(s, p, n, 0) == 1;
      } else {
        SizeUpTo(p, multiset{x, y});
        SameSize(p, multiset{x, y});
        AtUnion(s, multiset{x}, multiset{y}, 1);
        AtOne(s, x, 1);
        AtOne(s, y, 1);
        assert At(s, p, 1) == multiset{x};
        assert Weight(s, p, n, 1) == 1;
      }
    }
  }

  lemma AtNothing(s: Scheme, j: nat)
    ensures At(s, multiset{}, j) == multiset{}
  {
  }

  lemma SameSize(a: multiset<HashedSymbol>, b: multiset<HashedSymbol>)
    requires a <= b && |a| >= |b|
    ensures a == b
  {
    assert b == a + (b - a) && |b - a| == 0;
  }

  /** There is one such largest part: what is decoded does not depend on the order of decoding. */
  lemma LargestIsOne(s: Scheme, p0: multiset<HashedSymbol>, n0: multiset<HashedSymbol>, k: nat,
                     p: multiset<HashedSymbol>, n: multiset<HashedSymbol>,
                     p': multiset<HashedSymbol>, n': multiset<HashedSymbol>)
    requires LargestStopping(s, p0, n0, p, n, k) && LargestStopping(s, p0, n0, p', n', k)
    ensures p == p' && n == n'
  {
  }

  /** Of the difference `p0` in, `n0` out, the symbols `r` and `l` have been decoded, and `steps` are
      still to come. */
  ghost predicate State(s: Scheme, p0: multiset<HashedSymbol>, n0: multiset<HashedSymbol>,
                        r: multiset<HashedSymbol>, l: multiset<HashedSymbol>,
                        coded: seq<CodedSymbol>, pending: seq<nat>, done: set<nat>, num: nat, steps: seq<Step>) {
    && Honest(s, p0) && Honest(s, n0)
    && r <= p0 && l <= n0 && Once(p0, r) && Once(n0, l)
    && Scheduled(s, p0 - r, n0 - l, coded, pending, done)
    && num == |done| && Untouched(s, p0, n0, r, l, |coded|)
    && Clean(s, p0 - r, n0 - l, |coded|, pending, steps)
  }

  lemma HonestPart(s: Scheme, m: multiset<HashedSymbol>, part: multiset<HashedSymbol>)
    requires Honest(s, m) && part <= m
    ensures Honest(s, part)
  {
  }

  /** What the next scheduled cell says: its count is one, minus one or zero, and what it says is so. */
  lemma NextCell(s: Scheme, p0: multiset<HashedSymbol>, n0: multiset<HashedSymbol>,
                 r: multiset<HashedSymbol>, l: multiset<HashedSymbol>,
                 coded: seq<CodedSymbol>, pending: seq<nat>, done: set<nat>, num: nat, steps: seq<Step>)
    requires State(s, p0, n0, r, l, coded, pending, done, num, steps) && |pending| > 0
    ensures pending[0] < |coded| && pending[0] !in done && coded[pending[0]] == Residual(s, p0 - r, n0 - l, pending[0])
    ensures var c := coded[pending[0]];
            var x, w := HashedSymbol(c.symbol, c.hash), Weight(s, p0 - r, n0 - l, pending[0]);
            && (c.count == 0 || c.count == 1 || c.count == -1)
            && (c.count == 0 ==> w == 0)
            && (c.count != 0 ==> w == 1 && Hits(s, x, pending[0]))
            && (c.count == 1 ==> x in p0 - r)
            && (c.count == -1 ==> x in n0 - l)
  {
    hide Clean;
    var p, n, j := p0 - r, n0 - l, pending[0];
    HonestPart(s, p0, p);
    HonestPart(s, n0, n);
    PendingIsLight(s, p, n, coded, pending, done, 0);
    CellTells(s, p, n, j);
    if Weight(s, p, n, j) == 1 {
      var x := One(s, p, n, j);
    }
  }

  lemma StepEmpty(s: Scheme, p0: multiset<HashedSymbol>, n0: multiset<HashedSymbol>,
                  r: multiset<HashedSymbol>, l: multiset<HashedSymbol>,
                  coded: seq<CodedSymbol>, pending: seq<nat>, done: set<nat>, num: nat, steps: seq<Step>)
    requires State(s, p0, n0, r, l, coded, pending, done, num, steps) && |steps| > 0 && steps[0].TryDecode?
    requires |pending| > 0 && pending[0] < |coded| && coded[pending[0]].count == 0
    ensures State(s, p0, n0, r, l, coded, pending[1..], done + {pending[0]}, num + 1, steps)
  {
    NextCell(s, p0, n0, r, l, coded, pending, done, num, steps);
    hide Weight, Residual;
    ProcessEmpty(s, p0 - r, n0 - l, coded, pending, done);
  }

  /** `r'`, `l'` are the decoded symbols `r`, `l` and `x`. */
  ghost predicate Found(r: multiset<HashedSymbol>, l: multiset<HashedSymbol>, r': multiset<HashedSymbol>,
                        l': multiset<HashedSymbol>,
                        x: HashedSymbol, d: Direction) {
    if d.REMOVE? then r' == r + multiset{x} && l' == l else r' == r && l' == l + multiset{x}
  }

  lemma FoundIsGone(p0: multiset<HashedSymbol>, n0: multiset<HashedSymbol>, r: multiset<HashedSymbol>,
                    l: multiset<HashedSymbol>,
                    r': multiset<HashedSymbol>, l': multiset<HashedSymbol>, x: HashedSymbol, d: Direction)
    requires r <= p0 && l <= n0 && Found(r, l, r', l', x, d)
    requires if d.REMOVE? then x in p0 - r else x in n0 - l
    ensures r' <= p0 && l' <= n0 && Gone(p0 - r, n0 - l, p0 - r', n0 - l', x, d)
  {
    assert d.REMOVE? ==> p0 - r - multiset{x} == p0 - r';
    assert d.ADD? ==> n0 - l - multiset{x} == n0 - l';
  }

  /** A symbol alone in a cell is there once. */
  lemma AloneIsOnce(s: Scheme, p: multiset<HashedSymbol>, n: multiset<HashedSymbol>, x: HashedSymbol, j: nat)
    requires Weight(s, p, n, j) == 1 && Hits(s, x, j)
    ensures p[x] <= 1 && n[x] <= 1
  {
    AtCount(s, p, j, x);
    AtCount(s, n, j, x);
  }

  lemma FoundOnce(s: Scheme, p0: multiset<HashedSymbol>, r: multiset<HashedSymbol>, x: HashedSymbol)
    requires r <= p0 && Once(p0, r) && x in p0 - r && (p0 - r)[x] <= 1
    ensures Once(p0, r + multiset{x})
  {
  }

  /** The schedule is the one that the assumption speaks of. */
  lemma SameSchedule(s: Scheme, p: multiset<HashedSymbol>, n: multiset<HashedSymbol>, coded: seq<CodedSymbol>,
                     pending: seq<nat>, x: HashedSymbol)
    requires |pending| > 0 && forall j :: 0 <= j < |coded| ==> coded[j] == Residual(s, p, n, j)
    ensures pending[1..] + PureCells(s, coded, x, |coded|) == Rescheduled(s, p, n, |coded|, pending, x)
  {
    assert coded == Cells(s, p, n, |coded|);
  }

  /** What the assumption says when a symbol is found. */
  lemma CleanFound(s: Scheme, p: multiset<HashedSymbol>, n: multiset<HashedSymbol>, p': multiset<HashedSymbol>,
                   n': multiset<HashedSymbol>,
                   k: nat, pending: seq<nat>, steps: seq<Step>, x: HashedSymbol, d: Direction)
    requires Clean(s, p, n, k, pending, steps) && |steps| > 0 && steps[0].TryDecode? && |pending| > 0
    requires var c := Residual(s, p, n, pending[0]);
             x == HashedSymbol(c.symbol, c.hash) && c.count == if d.REMOVE? then 1 else -1
    requires Gone(p, n, p', n', x, d)
    ensures NoneFalse(s, p', n', x, k) && Clean(s, p', n', k, Rescheduled(s, p', n', k, pending, x), steps)
  {
    hide Residual, Rescheduled, NoneFalse;
  }

  lemma StepPure(s: Scheme, p0: multiset<HashedSymbol>, n0: multiset<HashedSymbol>,
                 r: multiset<HashedSymbol>, l: multiset<HashedSymbol>, r': multiset<HashedSymbol>,
                 l': multiset<HashedSymbol>,
                 coded: seq<CodedSymbol>, coded': seq<CodedSymbol>, pending: seq<nat>, done: set<nat>, num: nat,
                 steps: seq<Step>,
                 x: HashedSymbol, d: Direction)
    requires State(s, p0, n0, r, l, coded, pending, done, num, steps) && |steps| > 0 && steps[0].TryDecode?
    requires |pending| > 0 && pending[0] < |coded| && coded[pending[0]].count == if d.REMOVE? then 1 else -1
    requires x == HashedSymbol(coded[pending[0]].symbol, coded[pending[0]].hash)
    requires Spread(s, coded, coded', x, d) && Found(r, l, r', l', x, d)
    ensures State(s, p0, n0, r', l', coded', pending[1..] + PureCells(s, coded', x, |coded'|), done + {pending[0]},
                  num + 1, steps)
  {
    hide Clean, NoneFalse, Weight, Residual, Once, Honest, Rescheduled, Untouched, Scheduled, Spread, PureCells, Hits;
    var p, n, p', n' := p0 - r, n0 - l, p0 - r', n0 - l';
    NextCell(s, p0, n0, r, l, coded, pending, done, num, steps);
    FoundIsGone(p0, n0, r, l, r', l', x, d);
    AloneIsOnce(s, p, n, x, pending[0]);
    FoundIsOnce(s, p0, n0, r, l, r', l', x, d);
    StillUntouched(s, p0, n0, r, l, r', l', |coded|, x, d, pending[0]);
    CleanFound(s, p, n, p', n', |coded|, pending, steps, x, d);
    HonestPart(s, p0, p');
    HonestPart(s, n0, n');
    ProcessPure(s, p, n, p', n', coded, coded', pending, done, x, d);
    SameScheduleAfter(s, p', n', coded', pending, done + {pending[0]}, x);
    assert |coded'| == |coded| by { SameLength(s, coded, coded', x, d); }
  }

  lemma SameLength(s: Scheme, coded: seq<CodedSymbol>, coded': seq<CodedSymbol>, x: HashedSymbol, d: Direction)
    requires Spread(s, coded, coded', x, d)
    ensures |coded'| == |coded|
  {
  }

  lemma SameScheduleAfter(s: Scheme, p: multiset<HashedSymbol>, n: multiset<HashedSymbol>, coded: seq<CodedSymbol>,
                          pending: seq<nat>, done: set<nat>, x: HashedSymbol)
    requires |pending| > 0
    requires Scheduled(s, p, n, coded, pending[1..] + PureCells(s, coded, x, |coded|), done)
    ensures pending[1..] + PureCells(s, coded, x, |coded|) == Rescheduled(s, p, n, |coded|, pending, x)
  {
    SameSchedule(s, p, n, coded, pending, x);
  }

  lemma FoundIsOnce(s: Scheme, p0: multiset<HashedSymbol>, n0: multiset<HashedSymbol>,
                    r: multiset<HashedSymbol>, l: multiset<HashedSymbol>, r': multiset<HashedSymbol>,
                    l': multiset<HashedSymbol>, x: HashedSymbol, d: Direction)
    requires r <= p0 && l <= n0 && Once(p0, r) && Once(n0, l) && Found(r, l, r', l', x, d)
    requires if d.REMOVE? then x in p0 - r else x in n0 - l
    requires (p0 - r)[x] <= 1 && (n0 - l)[x] <= 1
    ensures Once(p0, r') && Once(n0, l')
  {
    if d.REMOVE? {
      FoundOnce(s, p0, r, x);
    } else {
      FoundOnce(s, n0, l, x);
    }
  }

  lemma StepArrive(s: Scheme, p0: multiset<HashedSymbol>, n0: multiset<HashedSymbol>,
                   r: multiset<HashedSymbol>, l: multiset<HashedSymbol>,
                   coded: seq<CodedSymbol>, pending: seq<nat>, done: set<nat>, num: nat, steps: seq<Step>,
                   cell: CodedSymbol)
    requires State(s, p0, n0, r, l, coded, pending, done, num, steps) && |steps| > 0 && steps[0].SendCell?
    requires cell == Residual(s, p0 - r, n0 - l, |coded|)
    ensures State(s, p0, n0, r, l, coded + [cell], Arrive(s, pending, |coded|, cell), done, num, steps[1..])
  {
    HonestPart(s, p0, p0 - r);
    HonestPart(s, n0, n0 - l);
    UntouchedLater(s, p0, n0, r, l, |coded|);
    hide Untouched;
    AddCell(s, p0 - r, n0 - l, coded, pending, done, cell);
  }

  /** A try to decode is over. */
  lemma StepTried(s: Scheme, p0: multiset<HashedSymbol>, n0: multiset<HashedSymbol>,
                  r: multiset<HashedSymbol>, l: multiset<HashedSymbol>, coded: seq<CodedSymbol>, done: set<nat>,
                  num: nat, steps: seq<Step>)
    requires State(s, p0, n0, r, l, coded, [], done, num, steps) && |steps| > 0 && steps[0].TryDecode?
    ensures State(s, p0, n0, r, l, coded, [], done, num, steps[1..])
  {
  }

  /** With nothing pending, all cells are done exactly when all of the difference has been decoded. */
  lemma StateDone(s: Scheme, p0: multiset<HashedSymbol>, n0: multiset<HashedSymbol>,
                  r: multiset<HashedSymbol>, l: multiset<HashedSymbol>, coded: seq<CodedSymbol>, done: set<nat>,
                  num: nat, steps: seq<Step>)
    requires State(s, p0, n0, r, l, coded, [], done, num, steps) && |coded| > 0
    ensures num == |coded| <==> r == p0 && l == n0
  {
    hide Clean, Once, Honest;
    AllDone(s, p0 - r, n0 - l, coded, done);
    assert p0 == r + (p0 - r) && n0 == l + (n0 - l);
  }

  /** With nothing pending, what is left of the difference is the largest part that has nothing to begin
      with; so all has been decoded exactly if there is none. */
  lemma StateStops(s: Scheme, p0: multiset<HashedSymbol>, n0: multiset<HashedSymbol>,
                   r: multiset<HashedSymbol>, l: multiset<HashedSymbol>, coded: seq<CodedSymbol>, done: set<nat>,
                   num: nat, steps: seq<Step>)
    requires State(s, p0, n0, r, l, coded, [], done, num, steps)
    ensures LargestStopping(s, p0, n0, p0 - r, n0 - l, |coded|)
    ensures r == p0 && l == n0 <==> !HasStopping(s, p0, n0, |coded|)
  {
    hide Clean, Once, Honest, Scheduled, Stopping, Untouched, LargestStopping, HasStopping;
    RestStops(s, p0 - r, n0 - l, coded, done);
    RestIsLargest(s, p0, n0, r, l, |coded|);
    LargestTells(s, p0, n0, p0 - r, n0 - l, |coded|);
    assert p0 == r + (p0 - r) && n0 == l + (n0 - l);
    assert |p0 - r| + |n0 - l| == 0 <==> p0 - r == multiset{} && n0 - l == multiset{};
  }

  lemma RestIsLargest(s: Scheme, p0: multiset<HashedSymbol>, n0: multiset<HashedSymbol>,
                      r: multiset<HashedSymbol>, l: multiset<HashedSymbol>, k: nat)
    requires r <= p0 && l <= n0 && Untouched(s, p0, n0, r, l, k) && Stopping(s, p0 - r, n0 - l, k)
    ensures LargestStopping(s, p0, n0, p0 - r, n0 - l, k)
  {
    hide Stopping;
  }

  lemma LargestTells(s: Scheme, p0: multiset<HashedSymbol>, n0: multiset<HashedSymbol>,
                     p: multiset<HashedSymbol>, n: multiset<HashedSymbol>, k: nat)
    requires LargestStopping(s, p0, n0, p, n, k)
    ensures HasStopping(s, p0, n0, k) <==> |p| + |n| > 0
  {
    hide Stopping;
    if p', n' :| p' <= p0 && n' <= n0 && |p'| + |n'| > 0 && Stopping(s, p', n', k) {
      SizeUpTo(p', p);
      SizeUpTo(n', n);
    }
  }

  lemma RestStops(s: Scheme, p: multiset<HashedSymbol>, n: multiset<HashedSymbol>, coded: seq<CodedSymbol>,
                  done: set<nat>)
    requires Scheduled(s, p, n, coded, [], done)
    ensures Stopping(s, p, n, |coded|)
  {
    var ws := Weights(s, p, n, |coded|);
    forall j | 0 <= j < |coded|
      ensures Weight(s, p, n, j) != 1
    {
      assert ws[j] <= 1 ==> j in Light(ws);
    }
  }

  /** All cells are counted only when all of the difference has been decoded, and only of a
      difference that has no symbol twice. */
  lemma NumSaysAll(s: Scheme, p0: multiset<HashedSymbol>, n0: multiset<HashedSymbol>,
                   r: multiset<HashedSymbol>, l: multiset<HashedSymbol>,
                   coded: seq<CodedSymbol>, pending: seq<nat>, done: set<nat>, num: nat, steps: seq<Step>)
    requires State(s, p0, n0, r, l, coded, pending, done, num, steps) && 0 < |coded| == num
    ensures r == p0 && l == n0 && Once(p0, p0) && Once(n0, n0)
  {
    hide Clean, Honest;
    DoneIsAll(s, p0 - r, n0 - l, coded, pending, done);
    assert p0 == r + (p0 - r) && n0 == l + (n0 - l);
  }

  lemma StateBounds(s: Scheme, p0: multiset<HashedSymbol>, n0: multiset<HashedSymbol>,
                    r: multiset<HashedSymbol>, l: multiset<HashedSymbol>,
                    coded: seq<CodedSymbol>, pending: seq<nat>, done: set<nat>, num: nat, steps: seq<Step>)
    requires State(s, p0, n0, r, l, coded, pending, done, num, steps)
    ensures r <= p0 && l <= n0
  {
  }

  lemma DoneBound(s: Scheme, p0: multiset<HashedSymbol>, n0: multiset<HashedSymbol>,
                  r: multiset<HashedSymbol>, l: multiset<HashedSymbol>,
                  coded: seq<CodedSymbol>, pending: seq<nat>, done: set<nat>, num: nat, steps: seq<Step>)
    requires State(s, p0, n0, r, l, coded, pending, done, num, steps)
    ensures num <= |coded|
  {
    BelowCount(done, |coded|);
  }
}
