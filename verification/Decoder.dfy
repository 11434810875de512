/** The decoder: takes its own symbols out of the incoming coded symbols, and peels what is left. */
module Decoders {
  import opened Words
  import opened CodedSymbols
  import opened Encoders
  import opened Peeling

  datatype Error = InvalidDegree | InvalidSize | DecodeFailed

  datatype Result<T> = Ok(value: T) | Err(error: Error)

  /** The pending cells from `from` on. */
  function Rest(l: seq<nat>, from: nat): seq<nat>
    requires from <= |l|
  {
    l[from..]
  }

  lemma RestIs(l: seq<nat>, from: nat)
    requires from < |l|
    ensures Rest(l, from) != [] && Rest(l, from)[0] == l[from]
  {
  }

  lemma RestStep(l: seq<nat>, from: nat, more: seq<nat>)
    requires from < |l|
    ensures Rest(l + more, from + 1) == Rest(l, from)[1..] + more
    ensures Rest(l, from + 1) == Rest(l, from)[1..]
  {
  }

  /** What a cell shows of one side, if it counts one symbol. */
  function Shown(cell: CodedSymbol, count: int): multiset<HashedSymbol> {
    if cell.count == count then multiset{HashedSymbol(cell.symbol, cell.hash)} else multiset{}
  }

  // ---------- Decoders of one cell ----------

  /** Counting in or out what the one cell shows leaves it empty, so that it is not scheduled again. */
  lemma LoneCell(s: Scheme, cell: CodedSymbol, cell': CodedSymbol, x: HashedSymbol, d: Direction)
    requires cell.count == (if d.REMOVE? then 1 else -1) && x == HashedSymbol(cell.symbol, cell.hash)
    requires Spread(s, [cell], [cell'], x, d)
    ensures PureCells(s, [cell'], x, 1) == []
  {
    assert Hits(s, x, 0);
    assert PureCells(s, [cell'], x, 0) == [];
  }

  lemma LoneArrives(s: Scheme, cell: CodedSymbol)
    ensures Arrive(s, [], 0, cell) == if Pure(s, cell) || Empty(cell) then [0] else []
  {
  }

  class Decoder {
    const scheme: Scheme
    const local: Encoder
    const remote: Encoder
    const window: Encoder
    var coded: seq<CodedSymbol>
    var decodable: seq<nat>
    var numDecoded: nat
    /** The cells that have been processed. */
    ghost var done: set<nat>

    /** The three encoders are distinct, in step, and at the index of the next cell. */
    ghost predicate Shape()
      reads this, local, remote, window
    {
      && local != remote && local != window && remote != window
      && scheme == local.scheme == remote.scheme == window.scheme
      && local.Valid() && local.InStep() && local.nextIdx == |coded|
      && remote.Valid() && remote.InStep() && remote.nextIdx == |coded|
      && window.Valid() && window.InStep() && window.nextIdx == |coded|
    }

    ghost predicate Fresh()
      reads this, local, remote, window
    {
      && Shape()
      && coded == [] && decodable == [] && numDecoded == 0 && done == {}
      && local.symbols == [] && remote.symbols == []
    }

    /** What the sender of the stream `a - c` has and the window does not. */
    ghost function Theirs(a: multiset<HashedSymbol>, c: multiset<HashedSymbol>): multiset<HashedSymbol>
      reads window
    {
      a - (c + window.Contents())
    }

    /** What the window has and the sender of the stream `a - c` does not. */
    ghost function Ours(a: multiset<HashedSymbol>, c: multiset<HashedSymbol>): multiset<HashedSymbol>
      reads window
    {
      (c + window.Contents()) - a
    }

    /** The cells hold what has not been decoded of the difference `p0` in, `n0` out, and `pending`
        is what `decodable` still has to offer; `steps` are to come. */
    ghost predicate Peels(p0: multiset<HashedSymbol>, n0: multiset<HashedSymbol>, pending: seq<nat>, steps: seq<Step>)
      reads this, local, remote, window
    {
      && Shape()
      && State(scheme, p0, n0, remote.Contents(), local.Contents(), coded, pending, done, numDecoded, steps)
    }

    /** The cells received so far are the first cells of the stream `a - c`, and `steps` are to come. */
    ghost predicate Valid(a: multiset<HashedSymbol>, c: multiset<HashedSymbol>, steps: seq<Step>)
      reads this, local, remote, window
    {
      Peels(Theirs(a, c), Ours(a, c), decodable, steps)
    }

    constructor (s: Scheme)
      ensures Fresh() && fresh(local) && fresh(remote) && fresh(window)
      ensures scheme == s && window.symbols == []
    {
      scheme := s;
      local := new Encoder(s);
      remote := new Encoder(s);
      window := new Encoder(s);
      coded, decodable, numDecoded, done := [], [], 0, {};
    }

    /** `Encoder::to_decoder`: a decoder whose window is a copy of the encoder. */
    constructor FromEncoder(e: Encoder)
      requires e.Valid()
      ensures fresh(local) && fresh(remote) && fresh(window)
      ensures scheme == e.scheme && window.symbols == e.symbols && window.nextIdx == e.nextIdx
      ensures e.InStep() && e.nextIdx == 0 ==> Fresh()
    {
      scheme := e.scheme;
      local := new Encoder(e.scheme);
      remote := new Encoder(e.scheme);
      window := new Encoder.Clone(e);
      coded, decodable, numDecoded, done := [], [], 0, {};
    }

    method AddSymbol(x: Word)
      requires Fresh()
      modifies window
      ensures Fresh()
      ensures window.symbols == old(window.symbols) + [HashedSymbol(x, scheme.hash(x))]
    {
      window.AddHashedSymbol(HashedSymbol(x, scheme.hash(x)));
    }

    /** A fresh decoder is ready for any steps that meet no false cells. */
    lemma FreshIsValid(a: multiset<HashedSymbol>, c: multiset<HashedSymbol>, steps: seq<Step>)
      requires Fresh() && Honest(scheme, Theirs(a, c)) && Honest(scheme, Ours(a, c))
      requires Clean(scheme, Theirs(a, c), Ours(a, c), 0, [], steps)
      ensures Valid(a, c, steps)
    {
      hide Clean;
      var p, n := Theirs(a, c), Ours(a, c);
      assert p - multiset{} == p && n - multiset{} == n;
      NothingTouched(scheme, p, n, 0);
      hide Untouched;
    }

    /** One cell has arrived, and no more. */
    ghost predicate Lone(cell: CodedSymbol)
      reads this, local, remote, window
    {
      && Shape()
      && coded == [cell] && numDecoded == 0 && decodable == Arrive(scheme, [], 0, cell)
      && local.symbols == [] && remote.symbols == []
    }

    /** It has been processed: it has shown a symbol, of one side or of the other, or nothing. */
    ghost predicate LoneDone(cell: CodedSymbol)
      reads this, local, remote, window
    {
      && Shape()
      && |coded| == 1 && numDecoded == 1 && |decodable| == 1 && (Pure(scheme, cell) || Empty(cell))
      && remote.Contents() == Shown(cell, 1) && local.Contents() == Shown(cell, -1)
    }

    /** Any cell: what has been received before, or decoded, is taken out of it. If it is the next one
        of the stream `a - c`, the decoder stays valid. */
    method AddCodedSymbol(sym: CodedSymbol, ghost a: multiset<HashedSymbol>, ghost c: multiset<HashedSymbol>,
                          ghost steps: seq<Step>)
      requires Shape()
      modifies this, local, remote, window
      ensures Shape() && |coded| == |old(coded)| + 1
      ensures window.symbols == old(window.symbols)
      ensures remote.symbols == old(remote.symbols) && local.symbols == old(local.symbols)
      ensures old(Fresh()) ==> Lone(Minus(sym, CellOf(scheme, window.Contents(), 0)))
      ensures |steps| > 0 && steps[0].SendCell? && old(Valid(a, c, steps)) ==>
                sym == Minus(CellOf(scheme, a, old(|coded|)), CellOf(scheme, c, old(|coded|))) ==>
                Valid(a, c, steps[1..])
    {
      hide State, InStepAt, Indexed, HeapFrom, CellOf, Minus, Plus, Residual, Pure, Empty;
      ghost var k, b, r, l := |coded|, window.Contents(), remote.Contents(), local.Contents();
      ghost var valid := |steps| > 0 && steps[0].SendCell? && Valid(a, c, steps)
                         && sym == Minus(CellOf(scheme, a, k), CellOf(scheme, c, k));
      NothingDecoded(scheme, r, l, Minus(sym, CellOf(scheme, b, k)), k);
      var nextSym := window.ApplyWindowInStep(sym, REMOVE);
      nextSym := remote.ApplyWindowInStep(nextSym, REMOVE);
      nextSym := local.ApplyWindowInStep(nextSym, ADD);
      NextArrives(valid, scheme, a, c, b, r, l, coded, decodable, done, numDecoded, steps, nextSym);
      coded := coded + [nextSym];
      if Pure(scheme, nextSym) || Empty(nextSym) {
        decodable := decodable + [|coded| - 1];
      }
    }

    static lemma NothingDecoded(s: Scheme, r: multiset<HashedSymbol>, l: multiset<HashedSymbol>, cell: CodedSymbol,
                                k: nat)
      ensures r == multiset{} && l == multiset{} ==> Plus(Minus(cell, CellOf(s, r, k)), CellOf(s, l, k)) == cell
    {
      PlusZero(cell);
    }

    /** The next cell of the stream `a - c` keeps the decoder valid. */
    static lemma NextArrives(valid: bool, s: Scheme, a: multiset<HashedSymbol>, c: multiset<HashedSymbol>,
                             b: multiset<HashedSymbol>,
                             r: multiset<HashedSymbol>, l: multiset<HashedSymbol>, coded: seq<CodedSymbol>,
                             pending: seq<nat>,
                             done: set<nat>, num: nat, steps: seq<Step>, cell: CodedSymbol)
      requires valid ==>
                 && |steps| > 0 && steps[0].SendCell?
                 && State(s, a - (c + b), (c + b) - a, r, l, coded, pending, done, num, steps)
      requires var k := |coded|;
               valid ==> cell == Plus(Minus(Minus(Minus(CellOf(s, a, k), CellOf(s, c, k)), CellOf(s, b, k)),
                                            CellOf(s, r, k)), CellOf(s, l, k))
      ensures valid ==> State(s, a - (c + b), (c + b) - a, r, l, coded + [cell], Arrive(s, pending, |coded|, cell),
                              done, num, steps[1..])
    {
      if valid {
        hide State, CellOf, Minus, Plus, Residual;
        StateBounds(s, a - (c + b), (c + b) - a, r, l, coded, pending, done, num, steps);
        ArrivedCell(s, a, c, b, r, l, |coded|);
        StepArrive(s, a - (c + b), (c + b) - a, r, l, coded, pending, done, num, steps, cell);
      }
    }

    /** Counts `x` in, or out, wherever its index sequence says, and schedules the cells this makes pure. */
    method ApplyNewSymbol(x: HashedSymbol, d: Direction) returns (m: Mapping)
      modifies this`coded, this`decodable
      ensures Spread(scheme, old(coded), coded, x, d)
      ensures decodable == old(decodable) + PureCells(scheme, coded, x, |coded|)
      ensures m == Advance(scheme, Start(x), |coded|)
    {
      m := Start(x);
      ghost var before, k := coded, 0;
      while m.lastIdx < |coded|
        invariant k <= |coded| && k <= m.lastIdx && m == Advance(scheme, Start(x), k)
        invariant SpreadTo(scheme, before, coded, x, d, k)
        invariant decodable == old(decodable) + PureCells(scheme, coded, x, k)
        decreases |coded| - m.lastIdx
      {
        var n := m.lastIdx;
        SpreadStep(scheme, before, coded, x, d, k, n);
        coded := coded[n := coded[n].Apply(x, d)];
        if (coded[n].count == -1 || coded[n].count == 1) && coded[n].hash == scheme.hash(coded[n].symbol) {
          decodable := decodable + [n];
        }
        m := scheme.next(m);
        k := n + 1;
      }
      SpreadDone(scheme, before, coded, x, d, k);
    }

    /** Counts `x` in, or out, of the cells, and hands it to `side`, the encoder of what has been decoded. */
    method HandOver(x: HashedSymbol, d: Direction, side: Encoder)
      requires side.Valid() && side.InStep() && side.nextIdx == |coded| && side.scheme == scheme
      modifies this`coded, this`decodable, side
      ensures side.Valid() && side.InStep() && side.nextIdx == |coded| == |old(coded)|
      ensures side.Contents() == old(side.Contents()) + multiset{x}
      ensures Spread(scheme, old(coded), coded, x, d)
      ensures decodable == old(decodable) + PureCells(scheme, coded, x, |coded|)
    {
      hide InStepAt, Indexed, HeapFrom, Advance, PureCells;
      var m := ApplyNewSymbol(x, d);
      side.AddInStep(x, m);
    }

    /** A cell that counts one symbol, of the sender or of the window: the symbol goes to `remote`
        or to `local`, and out of all cells. */
    method Take(didx: nat, d: Direction, ghost x: HashedSymbol)
      requires Shape() && didx < |decodable| && decodable[didx] < |coded|
      requires coded[decodable[didx]].count == if d.REMOVE? then 1 else -1
      requires x == HashedSymbol(coded[decodable[didx]].symbol, coded[decodable[didx]].hash)
      modifies this, local, remote
      ensures Shape() && |coded| == |old(coded)| && numDecoded == old(numDecoded) + 1
      ensures done == old(done + {decodable[didx]})
      ensures Spread(scheme, old(coded), coded, x, d)
      ensures decodable == old(decodable) + PureCells(scheme, coded, x, |coded|)
      ensures Found(old(remote.Contents()), old(local.Contents()), remote.Contents(), local.Contents(), x, d)
    {
      hide Spread, PureCells, Encoder.Valid, Encoder.InStep, Encoder.Contents;
      ghost var done' := done + {decodable[didx]};
      var sym := coded[decodable[didx]];
      var y := HashedSymbol(Xor({}, sym.symbol), sym.hash);
      XorSelfInverse(sym.symbol, {});
      if d.REMOVE? {
        HandOver(y, d, remote);
      } else {
        HandOver(y, d, local);
      }
      numDecoded := numDecoded + 1;
      done := done';
    }

    /** What the loop of `TryDecode` keeps: of the difference `p0` in, `n0` out, without false cells; or of one cell. */
    ghost predicate Proceeds(valid: bool, lone: bool, p0: multiset<HashedSymbol>, n0: multiset<HashedSymbol>,
                             didx: nat, steps: seq<Step>, cell: CodedSymbol)
      reads this, local, remote, window
    {
      && didx <= |decodable| && (valid || lone)
      && (valid ==> Peels(p0, n0, Rest(decodable, didx), steps))
      && (lone ==> if didx == 0 then Lone(cell) else didx == 1 && LoneDone(cell))
    }

    /** Processes the scheduled cell at `didx`: one turn of the loop of `TryDecode`. */
    method Process(didx: nat, ghost valid: bool, ghost lone: bool, ghost p0: multiset<HashedSymbol>,
                   ghost n0: multiset<HashedSymbol>,
                   ghost steps: seq<Step>, ghost cell: CodedSymbol)
      requires valid ==> |steps| > 0 && steps[0].TryDecode?
      requires didx < |decodable| && Proceeds(valid, lone, p0, n0, didx, steps, cell)
      modifies this, local, remote
      ensures Proceeds(valid, lone, p0, n0, didx + 1, steps, cell)
      ensures |coded| == |old(coded)| && numDecoded == old(numDecoded) + 1
    {
      hide State, Rest, Spread, PureCells, Residual, Encoder.Valid, Encoder.InStep, Encoder.Contents;
      ghost var pending, before, todo := Rest(decodable, didx), coded, decodable;
      ghost var r, l, done', num := remote.Contents(), local.Contents(), done, numDecoded;
      RestIs(decodable, didx);
      NextCount(valid, lone, p0, n0, didx, steps, cell);
      var cidx := decodable[didx];
      var count := coded[cidx].count;
      ghost var x := HashedSymbol(coded[cidx].symbol, coded[cidx].hash);
      if count == 1 {
        Take(didx, REMOVE, x);
        Taken(valid, scheme, p0, n0, r, l, remote.Contents(), local.Contents(), before, coded, pending, done', num,
              steps, x, REMOVE);
        RestStep(todo, didx, PureCells(scheme, coded, x, |coded|));
      } else if count == -1 {
        Take(didx, ADD, x);
        Taken(valid, scheme, p0, n0, r, l, remote.Contents(), local.Contents(), before, coded, pending, done', num,
              steps, x, ADD);
        RestStep(todo, didx, PureCells(scheme, coded, x, |coded|));
      } else if count == 0 {
        if valid {
          StepEmpty(scheme, p0, n0, r, l, coded, pending, done, numDecoded, steps);
        }
        RestStep(decodable, didx, []);
        numDecoded := numDecoded + 1;
        done := done + {cidx};
      } else {
        // InvalidDegree
        assert false;
      }
    }

    /** The next scheduled cell is there, and its count is one, minus one or zero. */
    lemma NextCount(valid: bool, lone: bool, p0: multiset<HashedSymbol>, n0: multiset<HashedSymbol>, didx: nat,
                    steps: seq<Step>, cell: CodedSymbol)
      requires didx < |decodable| && Proceeds(valid, lone, p0, n0, didx, steps, cell)
      ensures decodable[didx] < |coded|
      ensures var count := coded[decodable[didx]].count; count == 0 || count == 1 || count == -1
      ensures lone ==> didx == 0 && decodable == [0] && coded == [cell] && (Pure(scheme, cell) || Empty(cell))
      ensures lone ==> remote.Contents() == multiset{} == local.Contents()
    {
      hide State, Encoder.Valid, Encoder.InStep;
      LoneArrives(scheme, cell);
      if valid {
        NextCell(scheme, p0, n0, remote.Contents(), local.Contents(), coded, Rest(decodable, didx), done, numDecoded,
                 steps);
      }
    }

    static lemma Taken(valid: bool, s: Scheme, p0: multiset<HashedSymbol>, n0: multiset<HashedSymbol>,
                       r: multiset<HashedSymbol>, l: multiset<HashedSymbol>, r': multiset<HashedSymbol>,
                       l': multiset<HashedSymbol>,
                       coded: seq<CodedSymbol>, coded': seq<CodedSymbol>, pending: seq<nat>, done: set<nat>, num: nat,
                       steps: seq<Step>,
                       x: HashedSymbol, d: Direction)
      requires |pending| > 0 && pending[0] < |coded| && coded[pending[0]].count == if d.REMOVE? then 1 else -1
      requires x == HashedSymbol(coded[pending[0]].symbol, coded[pending[0]].hash)
      requires Spread(s, coded, coded', x, d) && Found(r, l, r', l', x, d)
      requires valid ==> State(s, p0, n0, r, l, coded, pending, done, num, steps) && |steps| > 0 && steps[0].TryDecode?
      ensures valid ==> State(s, p0, n0, r', l', coded', pending[1..] + PureCells(s, coded', x, |coded'|),
                              done + {pending[0]}, num + 1, steps)
      ensures |coded| == 1 ==> PureCells(s, coded', x, |coded'|) == []
      ensures r == multiset{} == l ==>
                && r' == (if d.REMOVE? then multiset{x} else multiset{})
                && l' == if d.REMOVE? then multiset{} else multiset{x}
    {
      if valid {
        StepPure(s, p0, n0, r, l, r', l', coded, coded', pending, done, num, steps, x, d);
      }
      if |coded| == 1 {
        LoneCell(s, coded[0], coded'[0], x, d);
        assert [coded[0]] == coded && [coded'[0]] == coded';
      }
    }

    /** Ends when there are no false cells; and when there is one cell, whether or not that is false. */
    method TryDecode(ghost a: multiset<HashedSymbol>, ghost c: multiset<HashedSymbol>, ghost steps: seq<Step>)
      returns (res: Result<()>)
      requires (|coded| > 0 && Lone(coded[0])) || (|steps| > 0 && steps[0].TryDecode? && Valid(a, c, steps))
      modifies this, local, remote
      ensures Shape() && res == Ok(()) && decodable == [] && |coded| == |old(coded)|
      ensures |steps| > 0 && steps[0].TryDecode? && old(Valid(a, c, steps)) ==>
                && Valid(a, c, steps[1..])
                && LargestStopping(scheme, Theirs(a, c), Ours(a, c), Theirs(a, c) - remote.Contents(),
                                   Ours(a, c) - local.Contents(), |coded|)
                && (|coded| > 0 ==> (Decoded() <==> !HasStopping(scheme, Theirs(a, c), Ours(a, c), |coded|)))
                && (|coded| > 0 ==>
                      (Decoded() <==> remote.Contents() == Theirs(a, c) && local.Contents() == Ours(a, c)))
      ensures |old(coded)| > 0 && old(Lone(coded[0])) ==>
                var cell := old(coded[0]);
                && (Decoded() <==> Pure(scheme, cell) || Empty(cell))
                && remote.Contents() == (if Decoded() then Shown(cell, 1) else multiset{})
                && local.Contents() == (if Decoded() then Shown(cell, -1) else multiset{})
    {
      hide State, InStepAt, Indexed, HeapFrom, CellOf, At, Total, Advance, Hits, PureCells, Spread;
      hide LargestStopping, HasStopping;
      ghost var p0, n0 := Theirs(a, c), Ours(a, c);
      ghost var valid := |steps| > 0 && steps[0].TryDecode? && Valid(a, c, steps);
      ghost var lone := |coded| > 0 && Lone(coded[0]);
      ghost var cell := if |coded| > 0 then coded[0] else ZERO;
      var didx := 0;
      while didx < |decodable|
        invariant 0 <= didx && |coded| == |old(coded)| && Proceeds(valid, lone, p0, n0, didx, steps, cell)
        decreases |coded| - numDecoded
      {
        Process(didx, valid, lone, p0, n0, steps, cell);
        didx := didx + 1;
        CountBound(valid, lone, p0, n0, didx, steps, cell);
      }
      AllTried(valid, lone, p0, n0, didx, steps, cell);
      decodable := [];
      res := Ok(());
    }

    /** Once the schedule is through. */
    lemma AllTried(valid: bool, lone: bool, p0: multiset<HashedSymbol>, n0: multiset<HashedSymbol>, didx: nat,
                   steps: seq<Step>, cell: CodedSymbol)
      requires Proceeds(valid, lone, p0, n0, didx, steps, cell) && didx == |decodable|
      requires valid ==> |steps| > 0 && steps[0].TryDecode?
      ensures valid ==> Peels(p0, n0, [], steps[1..])
      ensures valid ==> LargestStopping(scheme, p0, n0, p0 - remote.Contents(), n0 - local.Contents(), |coded|)
      ensures valid && |coded| > 0 ==> (Decoded() <==> !HasStopping(scheme, p0, n0, |coded|))
      ensures valid && |coded| > 0 ==> (Decoded() <==> remote.Contents() == p0 && local.Contents() == n0)
      ensures lone ==> |coded| == 1 && (Decoded() <==> Pure(scheme, cell) || Empty(cell))
      ensures lone ==> remote.Contents() == if Decoded() then Shown(cell, 1) else multiset{}
      ensures lone ==> local.Contents() == if Decoded() then Shown(cell, -1) else multiset{}
    {
      hide State, LargestStopping, HasStopping, Encoder.Valid, Encoder.InStep;
      LoneArrives(scheme, cell);
      if valid {
        assert Rest(decodable, didx) == [];
        StepTried(scheme, p0, n0, remote.Contents(), local.Contents(), coded, done, numDecoded, steps);
        StateStops(scheme, p0, n0, remote.Contents(), local.Contents(), coded, done, numDecoded, steps);
        if |coded| > 0 {
          StateDone(scheme, p0, n0, remote.Contents(), local.Contents(), coded, done, numDecoded, steps);
        }
      }
    }

    lemma CountBound(valid: bool, lone: bool, p0: multiset<HashedSymbol>, n0: multiset<HashedSymbol>, didx: nat,
                     steps: seq<Step>, cell: CodedSymbol)
      requires Proceeds(valid, lone, p0, n0, didx, steps, cell)
      ensures numDecoded <= |coded|
    {
      if valid {
        DoneBound(scheme, p0, n0, remote.Contents(), local.Contents(), coded, Rest(decodable, didx), done, numDecoded,
                  steps);
      }
    }

    /** `Decoded` never lies, whenever it is asked: what has been decoded is exactly the difference,
        and that has no symbol twice. */
    lemma DecodedIsExact(a: multiset<HashedSymbol>, c: multiset<HashedSymbol>, steps: seq<Step>)
      requires Valid(a, c, steps) && |coded| > 0 && Decoded()
      ensures remote.Contents() == Theirs(a, c) && local.Contents() == Ours(a, c)
      ensures Once(Theirs(a, c), Theirs(a, c)) && Once(Ours(a, c), Ours(a, c))
    {
      NumSaysAll(scheme, Theirs(a, c), Ours(a, c), remote.Contents(), local.Contents(), coded, decodable, done,
                 numDecoded, steps);
    }

    predicate Decoded()
      reads this
    {
      numDecoded == |coded|
    }
  }
}
