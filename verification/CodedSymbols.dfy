/** Coded symbols (cells), and the index sequence that says in which cells a symbol is counted. */
module CodedSymbols {
  import opened Collections
  import opened Words

  datatype Direction = ADD | REMOVE

  datatype HashedSymbol = HashedSymbol(symbol: Word, hash: Word)

  datatype CodedSymbol = CodedSymbol(symbol: Word, hash: Word, count: int) {
    /** Counts one symbol in, or out of, this cell. */
    function Apply(x: HashedSymbol, d: Direction): CodedSymbol {
      CodedSymbol(Xor(symbol, x.symbol), Xor(hash, x.hash), if d.ADD? then count + 1 else count - 1)
    }
  }

  const ZERO := CodedSymbol({}, {}, 0)

  function Unit(x: HashedSymbol): CodedSymbol {
    CodedSymbol(x.symbol, x.hash, 1)
  }

  function Plus(a: CodedSymbol, b: CodedSymbol): CodedSymbol {
    CodedSymbol(Xor(a.symbol, b.symbol), Xor(a.hash, b.hash), a.count + b.count)
  }

  function Minus(a: CodedSymbol, b: CodedSymbol): CodedSymbol {
    CodedSymbol(Xor(a.symbol, b.symbol), Xor(a.hash, b.hash), a.count - b.count)
  }

  function Shift(a: CodedSymbol, b: CodedSymbol, d: Direction): CodedSymbol {
    if d.ADD? then Plus(a, b) else Minus(a, b)
  }

  // ---------- Cells form an abelian group ----------

  lemma PlusSwap(a: CodedSymbol, b: CodedSymbol, c: CodedSymbol)
    ensures Plus(Plus(a, b), c) == Plus(Plus(a, c), b) == Plus(a, Plus(b, c))
  {
    XorAssociates(a.symbol, b.symbol, c.symbol);
    XorAssociates(a.symbol, c.symbol, b.symbol);
    XorCommutes(b.symbol, c.symbol);
    XorAssociates(a.hash, b.hash, c.hash);
    XorAssociates(a.hash, c.hash, b.hash);
    XorCommutes(b.hash, c.hash);
  }

  lemma PlusCommutes(a: CodedSymbol, b: CodedSymbol)
    ensures Plus(a, b) == Plus(b, a)
  {
    XorCommutes(a.symbol, b.symbol);
    XorCommutes(a.hash, b.hash);
  }

  lemma PlusZero(a: CodedSymbol)
    ensures Plus(a, ZERO) == a == Plus(ZERO, a) && Minus(a, ZERO) == a
  {
    XorSelfInverse(a.symbol, {});
    XorSelfInverse(a.hash, {});
  }

  lemma PlusMinus(a: CodedSymbol, b: CodedSymbol)
    ensures Minus(Plus(a, b), b) == a == Plus(Minus(a, b), b)
  {
    XorSelfInverse(a.symbol, b.symbol);
    XorSelfInverse(a.hash, b.hash);
  }

  lemma ShiftShift(a: CodedSymbol, b: CodedSymbol, c: CodedSymbol, d: Direction)
    ensures Shift(Shift(a, b, d), c, d) == Shift(a, Plus(b, c), d)
  {
    XorAssociates(a.symbol, b.symbol, c.symbol);
    XorAssociates(a.hash, b.hash, c.hash);
  }

  /** Taking `c` out of `a - b` is taking it out of `a`, or putting it into `b`. */
  lemma MinusMoves(a: CodedSymbol, b: CodedSymbol, c: CodedSymbol)
    ensures Minus(Minus(a, b), c) == Minus(Minus(a, c), b) == Minus(a, Plus(b, c))
    ensures Plus(Minus(a, b), c) == Minus(Plus(a, c), b) == Minus(a, Minus(b, c))
  {
    XorAssociates(a.symbol, b.symbol, c.symbol);
    XorAssociates(a.symbol, c.symbol, b.symbol);
    XorCommutes(b.symbol, c.symbol);
    XorAssociates(a.hash, b.hash, c.hash);
    XorAssociates(a.hash, c.hash, b.hash);
    XorCommutes(b.hash, c.hash);
  }

  // ---------- The fold of a collection of symbols ----------

  /** The cell that counts exactly the symbols of `m`. */
  ghost function Total(m: multiset<HashedSymbol>): CodedSymbol
    decreases |m|
  {
    if |m| == 0 then ZERO
    else
      var x := OneOf(m);
      Plus(Total(m - multiset{x}), Unit(x))
  }

  lemma RemoveBoth(m: multiset<HashedSymbol>, x: HashedSymbol, y: HashedSymbol)
    ensures m - multiset{x} - multiset{y} == m - multiset{y} - multiset{x}
    ensures x != y ==> (m - multiset{x})[y] == m[y]
  {
  }

  /** The fold does not depend on the order in which it visits the symbols. */
  lemma {:induction false} TotalRemove(m: multiset<HashedSymbol>, x: HashedSymbol)
    requires x in m
    ensures Total(m) == Plus(Total(m - multiset{x}), Unit(x))
    decreases |m|
  {
    var y := OneOf(m);
    if y != x {
      RemoveBoth(m, x, y);
      RemoveBoth(m, y, x);
      TotalRemove(m - multiset{y}, x);
      TotalRemove(m - multiset{x}, y);
      PlusSwap(Total(m - multiset{x} - multiset{y}), Unit(x), Unit(y));
    }
  }

  lemma TotalOne(x: HashedSymbol)
    ensures Total(multiset{x}) == Unit(x)
  {
    TotalRemove(multiset{x}, x);
    assert multiset{x} - multiset{x} == multiset{};
    PlusZero(Unit(x));
  }

  lemma TotalAdd(m: multiset<HashedSymbol>, x: HashedSymbol)
    ensures Total(m + multiset{x}) == Plus(Total(m), Unit(x))
  {
    TotalRemove(m + multiset{x}, x);
    assert m + multiset{x} - multiset{x} == m;
  }

  lemma {:induction false} TotalUnion(m: multiset<HashedSymbol>, n: multiset<HashedSymbol>)
    ensures Total(m + n) == Plus(Total(m), Total(n))
    decreases |n|
  {
    if |n| == 0 {
      assert m + n == m;
      PlusZero(Total(m));
    } else {
      var x := OneOf(n);
      var n' := n - multiset{x};
      TotalUnion(m, n');
      TotalAdd(m + n', x);
      assert m + n == m + n' + multiset{x};
      PlusSwap(Total(m), Total(n'), Unit(x));
    }
  }

  lemma {:induction false} TotalCount(m: multiset<HashedSymbol>)
    ensures Total(m).count == |m|
    decreases |m|
  {
    if |m| > 0 {
      TotalCount(m - multiset{OneOf(m)});
    }
  }

  // ---------- Index sequences ----------

  /** The state of the generator of a symbol's index sequence. */
  datatype Mapping = Mapping(prng: Word, lastIdx: nat)

  /** What the coder is given: the hash of a symbol, and the step of an index sequence. Any hash
      and any step will do, as long as an index sequence strictly increases. */
  datatype RawScheme = RawScheme(hash: Word -> Word, next: Mapping -> Mapping) {
    ghost predicate Increasing() {
      forall m :: next(m).lastIdx > m.lastIdx
    }
  }

  type Scheme = s: RawScheme | s.Increasing()
    ghost witness RawScheme(w => w, (m: Mapping) => m.(lastIdx := m.lastIdx + 1))

  function Start(x: HashedSymbol): Mapping {
    Mapping(x.hash, 0)
  }

  /** The first state of the sequence from `m` on whose index is not below `n`. */
  function Advance(s: Scheme, m: Mapping, n: nat): (r: Mapping)
    ensures r.lastIdx >= n
    decreases n - m.lastIdx
  {
    if m.lastIdx >= n then m else Advance(s, s.next(m), n)
  }

  lemma {:induction false} AdvanceStep(s: Scheme, m: Mapping, n: nat)
    requires m.lastIdx <= n
    ensures var a := Advance(s, m, n);
            Advance(s, m, n + 1) == if a.lastIdx == n then s.next(a) else a
    decreases n - m.lastIdx
  {
    if m.lastIdx < n {
      var m' := s.next(m);
      if m'.lastIdx <= n {
        AdvanceStep(s, m', n);
      }
    }
  }

  /** Between two indices of a sequence there is no other. */
  lemma {:induction false} AdvanceGap(s: Scheme, m: Mapping, k: nat, n: nat)
    requires k <= n <= Advance(s, m, k).lastIdx
    ensures Advance(s, m, n) == Advance(s, m, k)
    decreases k - m.lastIdx
  {
    if m.lastIdx < k {
      AdvanceGap(s, s.next(m), k, n);
    }
  }

  /** Whether the index sequence of `x` contains `i`. */
  predicate Hits(s: Scheme, x: HashedSymbol, i: nat) {
    Advance(s, Start(x), i).lastIdx == i
  }

  function Iterate(s: Scheme, m: Mapping, k: nat): Mapping {
    if k == 0 then m else s.next(Iterate(s, m, k - 1))
  }

  /** The symbols of `m` whose index sequence contains `i`. */
  ghost function At(s: Scheme, m: multiset<HashedSymbol>, i: nat): multiset<HashedSymbol>
    decreases |m|
  {
    if |m| == 0 then multiset{}
    else
      var x := OneOf(m);
      At(s, m - multiset{x}, i) + if Hits(s, x, i) then multiset{x} else multiset{}
  }

  /** The cell with index `i` of the collection `m`. */
  ghost function CellOf(s: Scheme, m: multiset<HashedSymbol>, i: nat): CodedSymbol {
    Total(At(s, m, i))
  }

  lemma {:induction false} AtCount(s: Scheme, m: multiset<HashedSymbol>, i: nat, x: HashedSymbol)
    ensures At(s, m, i)[x] == if Hits(s, x, i) then m[x] else 0
    decreases |m|
  {
    if |m| > 0 {
      AtCount(s, m - multiset{OneOf(m)}, i, x);
    }
  }

  lemma AtUnion(s: Scheme, m: multiset<HashedSymbol>, n: multiset<HashedSymbol>, i: nat)
    ensures At(s, m + n, i) == At(s, m, i) + At(s, n, i)
  {
    forall x
      ensures At(s, m + n, i)[x] == (At(s, m, i) + At(s, n, i))[x]
    {
      AtCount(s, m, i, x);
      AtCount(s, n, i, x);
      AtCount(s, m + n, i, x);
    }
  }

  lemma AtOne(s: Scheme, x: HashedSymbol, i: nat)
    ensures At(s, multiset{x}, i) == if Hits(s, x, i) then multiset{x} else multiset{}
  {
    forall y
      ensures At(s, multiset{x}, i)[y] == (if Hits(s, x, i) then multiset{x} else multiset{})[y]
    {
      AtCount(s, multiset{x}, i, y);
    }
  }

  lemma AtAdd(s: Scheme, m: multiset<HashedSymbol>, x: HashedSymbol, i: nat)
    ensures At(s, m + multiset{x}, i) == At(s, m, i) + if Hits(s, x, i) then multiset{x} else multiset{}
  {
    AtUnion(s, m, multiset{x}, i);
    AtOne(s, x, i);
  }

  lemma CellOfUnion(s: Scheme, m: multiset<HashedSymbol>, n: multiset<HashedSymbol>, i: nat)
    ensures CellOf(s, m + n, i) == Plus(CellOf(s, m, i), CellOf(s, n, i))
  {
    AtUnion(s, m, n, i);
    TotalUnion(At(s, m, i), At(s, n, i));
  }

  lemma CellOfOne(s: Scheme, x: HashedSymbol, i: nat)
    ensures CellOf(s, multiset{x}, i) == if Hits(s, x, i) then Unit(x) else ZERO
  {
    AtOne(s, x, i);
    TotalOne(x);
  }

  /** `Advance` computes membership in the index sequence: `x` is counted in cell `i` exactly when
      some number of steps of a generator that is seeded with its hash leads from 0 to `i`. */
  lemma HitsIffIterate(s: Scheme, x: HashedSymbol, i: nat)
    ensures Hits(s, x, i) <==> exists k: nat :: Iterate(s, Mapping(x.hash, 0), k).lastIdx == i
  {
    var k := AdvanceIsIterate(s, Start(x), i);
    if Hits(s, x, i) {
      assert Iterate(s, Start(x), k).lastIdx == i;
    }
    if j: nat :| Iterate(s, Start(x), j).lastIdx == i {
      if j < k {
        assert false;
      } else if k < j {
        IterateIncreases(s, Start(x), k, j);
      }
    }
  }

  lemma {:induction false} IterateIncreases(s: Scheme, m: Mapping, j: nat, k: nat)
    requires j < k
    ensures Iterate(s, m, j).lastIdx < Iterate(s, m, k).lastIdx
    decreases k
  {
    if j < k - 1 {
      IterateIncreases(s, m, j, k - 1);
    }
  }

  lemma {:induction false} AdvanceIsIterate(s: Scheme, m: Mapping, n: nat) returns (k: nat)
    ensures Iterate(s, m, k) == Advance(s, m, n)
    ensures forall j: nat :: j < k ==> Iterate(s, m, j).lastIdx < n
    decreases n - m.lastIdx
  {
    if m.lastIdx >= n {
      k := 0;
    } else {
      var k' := AdvanceIsIterate(s, s.next(m), n);
      k := k' + 1;
      IterateShift(s, m, k');
      forall j: nat | j < k
        ensures Iterate(s, m, j).lastIdx < n
      {
        if j > 0 {
          IterateShift(s, m, j - 1);
        }
      }
    }
  }

  lemma {:induction false} IterateShift(s: Scheme, m: Mapping, k: nat)
    ensures Iterate(s, m, k + 1) == Iterate(s, s.next(m), k)
  {
    if k > 0 {
      IterateShift(s, m, k - 1);
    }
  }
}
