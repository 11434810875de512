/** The sketch: a fixed number of cells, kept up to date as symbols are added and removed. */
module Sketches {
  import opened Words
  import opened CodedSymbols
  import opened Encoders
  import opened Peeling
  import opened Decoders

  datatype SketchDecodeResult = SketchDecodeResult(fwd: seq<HashedSymbol>, rev: seq<HashedSymbol>, isDecoded: bool)

  /** The cells of the collection with `p` counted in and `n` counted out. */
  ghost predicate Sketches(s: Scheme, v: seq<CodedSymbol>, p: multiset<HashedSymbol>, n: multiset<HashedSymbol>) {
    forall i :: 0 <= i < |v| ==> v[i] == Residual(s, p, n, i)
  }

  lemma EmptyCell(s: Scheme, i: nat)
    ensures Residual(s, multiset{}, multiset{}, i) == ZERO
  {
    assert CellOf(s, multiset{}, i) == ZERO;
    ResidualIsMinus(s, multiset{}, multiset{}, i);
    PlusZero(ZERO);
  }

  lemma EmptySketch(s: Scheme, v: seq<CodedSymbol>)
    requires forall i :: 0 <= i < |v| ==> v[i] == ZERO
    ensures Sketches(s, v, multiset{}, multiset{})
  {
    hide Residual;
    forall i | 0 <= i < |v|
      ensures v[i] == Residual(s, multiset{}, multiset{}, i)
    {
      EmptyCell(s, i);
    }
  }

  /** Cell `i` of a sketch with nothing counted out is the coded symbol with index `i`. */
  lemma SketchIsStream(s: Scheme, v: seq<CodedSymbol>, p: multiset<HashedSymbol>, i: nat)
    requires Sketches(s, v, p, multiset{}) && i < |v|
    ensures v[i] == CellOf(s, p, i)
  {
    PlusZero(CellOf(s, p, i));
  }

  lemma ResidualIsMinus(s: Scheme, p: multiset<HashedSymbol>, n: multiset<HashedSymbol>, i: nat)
    ensures Residual(s, p, n, i) == Minus(CellOf(s, p, i), CellOf(s, n, i))
  {
  }

  lemma SketchAdd(s: Scheme, v: seq<CodedSymbol>, v': seq<CodedSymbol>, p: multiset<HashedSymbol>,
                  n: multiset<HashedSymbol>, x: HashedSymbol)
    requires Sketches(s, v, p, n) && Spread(s, v, v', x, ADD)
    ensures Sketches(s, v', p + multiset{x}, n)
  {
    assert p + multiset{x} - multiset{x} == p;
    forall i | 0 <= i < |v|
      ensures v'[i] == Residual(s, p + multiset{x}, n, i)
    {
      PeelIn(s, p + multiset{x}, n, x, i);
      var c := Residual(s, p + multiset{x}, n, i);
      PlusMinus(c, Unit(x));
    }
  }

  lemma SketchRemove(s: Scheme, v: seq<CodedSymbol>, v': seq<CodedSymbol>, p: multiset<HashedSymbol>,
                     n: multiset<HashedSymbol>, x: HashedSymbol)
    requires Sketches(s, v, p, n) && Spread(s, v, v', x, REMOVE)
    ensures x in p ==> Sketches(s, v', p - multiset{x}, n)
    ensures Sketches(s, v', p, n + multiset{x})
  {
    assert n + multiset{x} - multiset{x} == n;
    forall i | 0 <= i < |v|
      ensures x in p ==> v'[i] == Residual(s, p - multiset{x}, n, i)
      ensures v'[i] == Residual(s, p, n + multiset{x}, i)
    {
      if x in p {
        PeelIn(s, p, n, x, i);
      }
      PeelOut(s, p, n + multiset{x}, x, i);
      PlusMinus(Residual(s, p, n + multiset{x}, i), Unit(x));
    }
  }

  /** Adding and removing the same symbol undo each other, in either order. */
  lemma AddRemoveInverse(s: Scheme, v: seq<CodedSymbol>, v': seq<CodedSymbol>, v'': seq<CodedSymbol>, x: HashedSymbol,
                         d: Direction)
    requires Spread(s, v, v', x, d) && Spread(s, v', v'', x, if d.ADD? then REMOVE else ADD)
    ensures v'' == v
  {
    forall i | 0 <= i < |v|
      ensures v''[i] == v[i]
    {
      PlusMinus(v[i], Unit(x));
    }
  }

  /** Operations on different symbols can be swapped. */
  lemma SpreadCommutes(s: Scheme, v: seq<CodedSymbol>, a: seq<CodedSymbol>, ab: seq<CodedSymbol>, b: seq<CodedSymbol>,
                       ba: seq<CodedSymbol>,
                       x: HashedSymbol, dx: Direction, y: HashedSymbol, dy: Direction)
    requires Spread(s, v, a, x, dx) && Spread(s, a, ab, y, dy)
    requires Spread(s, v, b, y, dy) && Spread(s, b, ba, x, dx)
    ensures ab == ba
  {
    forall i | 0 <= i < |v|
      ensures ab[i] == ba[i]
    {
      PlusSwap(v[i], Unit(x), Unit(y));
      MinusMoves(v[i], Unit(x), Unit(y));
      MinusMoves(v[i], Unit(y), Unit(x));
    }
  }

  /** The difference of two sketches is the signed sketch of the difference of the collections. */
  lemma SubtractedCell(s: Scheme, a: multiset<HashedSymbol>, b: multiset<HashedSymbol>, i: nat)
    ensures Minus(CellOf(s, a, i), CellOf(s, b, i)) == Residual(s, a - b, b - a, i)
  {
    var e := multiset{};
    assert b + e == b && a - b - e == a - b && b - a - e == b - a;
    ArrivedCell(s, a, b, e, e, e, i);
    PlusZero(Minus(CellOf(s, a, i), CellOf(s, b, i)));
  }

  /** What decoding a sketch of `m` cells does. */
  ghost function DecodeSteps(m: nat): (r: seq<Step>)
    ensures |r| == m + 1 && (forall i :: 0 <= i < m ==> r[i].SendCell?) && r[m].TryDecode?
  {
    seq(m, _ => SendCell) + [TryDecode]
  }

  class Sketch {
    const scheme: Scheme
    var v: seq<CodedSymbol>

    constructor (s: Scheme, size: nat)
      ensures scheme == s && |v| == size && Sketches(s, v, multiset{}, multiset{})
    {
      scheme := s;
      v := seq(size, _ => ZERO);
      EmptySketch(s, seq(size, _ => ZERO));
    }

    method AddHashedSymbol(x: HashedSymbol)
      modifies this
      ensures Spread(scheme, old(v), v, x, ADD)
    {
      var m := Start(x);
      ghost var before, k := v, 0;
      while m.lastIdx < |v|
        invariant k <= |v| && k <= m.lastIdx && m == Advance(scheme, Start(x), k)
        invariant SpreadTo(scheme, before, v, x, ADD, k)
        decreases |v| - m.lastIdx
      {
        var idx := m.lastIdx;
        SpreadStep(scheme, before, v, x, ADD, k, idx);
        v := v[idx := v[idx].(symbol := Xor(v[idx].symbol, x.symbol))];
        v := v[idx := v[idx].(count := v[idx].count + 1)];
        v := v[idx := v[idx].(hash := Xor(v[idx].hash, x.hash))];
        m := scheme.next(m);
        k := idx + 1;
      }
      SpreadDone(scheme, before, v, x, ADD, k);
    }

    method RemoveHashedSymbol(x: HashedSymbol)
      modifies this
      ensures Spread(scheme, old(v), v, x, REMOVE)
    {
      var m := Start(x);
      ghost var before, k := v, 0;
      while m.lastIdx < |v|
        invariant k <= |v| && k <= m.lastIdx && m == Advance(scheme, Start(x), k)
        invariant SpreadTo(scheme, before, v, x, REMOVE, k)
        decreases |v| - m.lastIdx
      {
        var idx := m.lastIdx;
        SpreadStep(scheme, before, v, x, REMOVE, k, idx);
        v := v[idx := v[idx].(symbol := Xor(v[idx].symbol, x.symbol))];
        v := v[idx := v[idx].(count := v[idx].count - 1)];
        v := v[idx := v[idx].(hash := Xor(v[idx].hash, x.hash))];
        m := scheme.next(m);
        k := idx + 1;
      }
      SpreadDone(scheme, before, v, x, REMOVE, k);
    }

    method Subtract(other: Sketch, ghost a: multiset<HashedSymbol>, ghost b: multiset<HashedSymbol>)
      returns (res: Result<()>)
      requires other != this && other.scheme == scheme
      requires Sketches(scheme, v, a, multiset{}) && Sketches(scheme, other.v, b, multiset{})
      modifies this
      ensures |v| == |old(v)|
      ensures |v| != |other.v| ==> res == Err(InvalidSize) && v == old(v)
      ensures |v| == |other.v| ==> res == Ok(()) && Sketches(scheme, v, a - b, b - a)
    {
      hide Residual, CellOf;
      if |v| != |other.v| {
        return Err(InvalidSize);
      }
      ghost var before := v;
      for i := 0 to |v|
        invariant |v| == |before| == |other.v|
        invariant forall j :: 0 <= j < |v| ==> v[j] == if j < i then Minus(before[j], other.v[j]) else before[j]
      {
        v := v[i := v[i].(symbol := Xor(v[i].symbol, other.v[i].symbol))];
        v := v[i := v[i].(count := v[i].count - other.v[i].count)];
        v := v[i := v[i].(hash := Xor(v[i].hash, other.v[i].hash))];
      }
      SubtractedCells(before, other.v, v, a, b);
      res := Ok(());
    }

    lemma SubtractedCells(v0: seq<CodedSymbol>, w: seq<CodedSymbol>, v1: seq<CodedSymbol>, a: multiset<HashedSymbol>,
                          b: multiset<HashedSymbol>)
      requires |v0| == |w| == |v1|
      requires Sketches(scheme, v0, a, multiset{}) && Sketches(scheme, w, b, multiset{})
      requires forall j :: 0 <= j < |v1| ==> v1[j] == Minus(v0[j], w[j])
      ensures Sketches(scheme, v1, a - b, b - a)
    {
      hide Residual, CellOf, Minus;
      forall i | 0 <= i < |v1|
        ensures v1[i] == Residual(scheme, a - b, b - a, i)
      {
        SketchIsStream(scheme, v0, a, i);
        SketchIsStream(scheme, w, b, i);
        SubtractedCell(scheme, a, b, i);
      }
    }

    /** Decodes the signed sketch of the collection with `p` counted in and `n` counted out. */
    method Decode(ghost p: multiset<HashedSymbol>, ghost n: multiset<HashedSymbol>)
      returns (res: Result<SketchDecodeResult>)
      requires Sketches(scheme, v, p, n) && Honest(scheme, p - n) && Honest(scheme, n - p)
      requires Clean(scheme, p - n, n - p, 0, [], DecodeSteps(|v|))
      ensures res.Ok? && multiset(res.value.fwd) <= p - n && multiset(res.value.rev) <= n - p
      ensures |v| > 0 ==>
                && (res.value.isDecoded <==> multiset(res.value.fwd) == p - n && multiset(res.value.rev) == n - p)
                && (res.value.isDecoded <==> !HasStopping(scheme, p - n, n - p, |v|))
      ensures LargestStopping(scheme, p - n, n - p, p - n - multiset(res.value.fwd), n - p - multiset(res.value.rev),
                              |v|)
    {
      hide State, Clean, Honest, Encoder.Valid, Encoder.InStep, CellOf, Minus, Residual, LargestStopping, HasStopping;
      assert n + multiset{} == n;
      ghost var steps := DecodeSteps(|v|);
      var dec := new Decoder(scheme);
      dec.FreshIsValid(p, n, steps);
      for i := 0 to |v|
        invariant fresh(dec) && fresh(dec.local) && fresh(dec.remote) && fresh(dec.window)
        invariant dec.scheme == scheme && |dec.coded| == i && dec.Valid(p, n, steps[i..]) && dec.window.symbols == []
      {
        ResidualIsMinus(scheme, p, n, i);
        assert steps[i..][1..] == steps[i + 1..];
        dec.AddCodedSymbol(v[i], p, n, steps[i..]);
      }
      var _ := dec.TryDecode(p, n, steps[|v|..]);
      StateBounds(scheme, p - n, n - p, dec.remote.Contents(), dec.local.Contents(), dec.coded, dec.decodable,
                  dec.done, dec.numDecoded,
                  steps[|v|..][1..]);
      res := Ok(SketchDecodeResult(dec.remote.symbols, dec.local.symbols, dec.Decoded()));
    }
  }
}
