/** Whole sessions between an encoder and a decoder. */
module Reconciliation {
  import opened Words
  import opened CodedSymbols
  import opened Encoders
  import opened Peeling
  import opened Decoders

  function Hashed(s: Scheme, xs: seq<Word>): (r: seq<HashedSymbol>)
    ensures |r| == |xs| && forall i :: 0 <= i < |xs| ==> r[i] == HashedSymbol(xs[i], s.hash(xs[i]))
  {
    seq(|xs|, i requires 0 <= i < |xs| => HashedSymbol(xs[i], s.hash(xs[i])))
  }

  lemma HashedAppend(s: Scheme, xs: seq<Word>, k: nat)
    requires k < |xs|
    ensures Hashed(s, xs[..k + 1]) == Hashed(s, xs[..k]) + [HashedSymbol(xs[k], s.hash(xs[k]))]
  {
  }

  lemma HashedWhole(s: Scheme, xs: seq<Word>)
    ensures Hashed(s, xs[..|xs|]) == Hashed(s, xs) && Hashed(s, xs[..0]) == []
  {
  }

  /** An encoder that has been given the symbols `xs`. */
  method Encode(s: Scheme, xs: seq<Word>) returns (e: Encoder)
    ensures fresh(e) && e.scheme == s && e.Valid() && e.InStep() && e.nextIdx == 0
    ensures e.symbols == Hashed(s, xs)
  {
    e := new Encoder(s);
    HashedWhole(s, xs);
    for k := 0 to |xs|
      invariant fresh(e) && e.Valid() && e.InStep() && e.nextIdx == 0
      invariant e.symbols == Hashed(s, xs[..k])
    {
      HashedAppend(s, xs, k);
      e.AddSymbol(xs[k]);
    }
  }

  /** The next `n` coded symbols. */
  method Draw(e: Encoder, n: nat) returns (cells: seq<CodedSymbol>)
    requires e.Valid() && e.InStep()
    modifies e
    ensures e.Valid() && e.InStep() && e.symbols == old(e.symbols) && e.nextIdx == old(e.nextIdx) + n
    ensures |cells| == n
    ensures forall i :: 0 <= i < n ==> cells[i] == CellOf(e.scheme, e.Contents(), old(e.nextIdx) + i)
  {
    hide CellOf, InStepAt, Indexed, HeapFrom;
    cells := [];
    for k := 0 to n
      invariant e.Valid() && e.InStep() && e.symbols == old(e.symbols) && e.nextIdx == old(e.nextIdx) + k
      invariant |cells| == k
      invariant forall i :: 0 <= i < k ==> cells[i] == CellOf(e.scheme, e.Contents(), old(e.nextIdx) + i)
    {
      var c := e.ProduceNextCodedSymbol();
      cells := cells + [c];
    }
  }

  /** The first `n` coded symbols of `xs`: whatever the order of `xs`, cell `i` counts exactly the
      symbols whose index sequence contains `i`. */
  method Stream(s: Scheme, xs: seq<Word>, n: nat) returns (cells: seq<CodedSymbol>)
    ensures |cells| == n
    ensures forall i :: 0 <= i < n ==> cells[i] == CellOf(s, multiset(Hashed(s, xs)), i)
  {
    hide CellOf, Encoder.Valid, Encoder.InStep;
    var e := Encode(s, xs);
    cells := Draw(e, n);
  }

  /** The next `n` coded symbols, once `y` has been removed. */
  method DrawWithout(e: Encoder, y: Word, n: nat) returns (cells: seq<CodedSymbol>)
    requires e.Valid() && e.InStep()
    modifies e
    ensures |cells| == n
    ensures forall i :: 0 <= i < n ==>
              cells[i] == CellOf(e.scheme, old(e.Contents()) - multiset{HashedSymbol(y, e.scheme.hash(y))},
                                 old(e.nextIdx) + i)
  {
    hide CellOf, RemoveFirst, Encoder.Valid, Encoder.InStep;
    e.RemoveSymbol(y);
    cells := Draw(e, n);
  }

  /** `k` cells of the collection `m`, followed by `n` cells of the collection `m'`. */
  lemma HeadAndTail(s: Scheme, m: multiset<HashedSymbol>, m': multiset<HashedSymbol>,
                    head: seq<CodedSymbol>, tail: seq<CodedSymbol>, k: nat, n: nat)
    requires |head| == k && forall i :: 0 <= i < k ==> head[i] == CellOf(s, m, i)
    requires |tail| == n && forall i :: 0 <= i < n ==> tail[i] == CellOf(s, m', k + i)
    ensures forall i :: 0 <= i < k ==> (head + tail)[i] == CellOf(s, m, i)
    ensures forall i :: k <= i < k + n ==> (head + tail)[i] == CellOf(s, m', i)
  {
    hide CellOf;
    forall i | k <= i < k + n
      ensures (head + tail)[i] == CellOf(s, m', i)
    {
      assert tail[i - k] == CellOf(s, m', k + (i - k));
    }
  }

  /** Removing `y` after `k` coded symbols have been produced: from then on the stream is that of a
      collection that never held this copy of `y`. */
  method StreamWithRemoval(s: Scheme, xs: seq<Word>, y: Word, k: nat, n: nat) returns (cells: seq<CodedSymbol>)
    ensures |cells| == k + n
    ensures forall i :: 0 <= i < k ==> cells[i] == CellOf(s, multiset(Hashed(s, xs)), i)
    ensures forall i :: k <= i < k + n ==>
              cells[i] == CellOf(s, multiset(Hashed(s, xs)) - multiset{HashedSymbol(y, s.hash(y))}, i)
  {
    hide CellOf, Encoder.Valid, Encoder.InStep;
    var e := Encode(s, xs);
    ghost var m := e.Contents();
    var head := Draw(e, k);
    var tail := DrawWithout(e, y, n);
    HeadAndTail(s, m, m - multiset{HashedSymbol(y, s.hash(y))}, head, tail, k, n);
    cells := head + tail;
  }

  /** A symbol added after `k > 0` coded symbols have been produced waits at index 0, which will not
      come again: from then on every coded symbol is zero, whatever the encoder holds. Added before
      the first coded symbol it is counted like any other. */
  method StreamWithLateSymbol(s: Scheme, xs: seq<Word>, y: Word, k: nat, n: nat) returns (cells: seq<CodedSymbol>)
    ensures |cells| == k + n
    ensures forall i :: 0 <= i < k ==> cells[i] == CellOf(s, multiset(Hashed(s, xs)), i)
    ensures forall i :: k <= i < k + n ==>
              cells[i] == if k > 0 then ZERO else CellOf(s, multiset(Hashed(s, xs + [y])), i)
  {
    hide CellOf, Encoder.Valid, Encoder.InStep, Encoder.Stalled;
    var e := Encode(s, xs);
    assert Hashed(s, xs + [y]) == Hashed(s, xs) + [HashedSymbol(y, s.hash(y))];
    var head := Draw(e, k);
    e.AddSymbol(y);
    var tail;
    if k > 0 {
      tail := DrawStalled(e, n);
    } else {
      tail := Draw(e, n);
    }
    cells := head + tail;
  }

  method DrawStalled(e: Encoder, n: nat) returns (cells: seq<CodedSymbol>)
    requires e.Valid() && e.Stalled()
    modifies e
    ensures |cells| == n && forall i :: 0 <= i < n ==> cells[i] == ZERO
  {
    cells := [];
    for k := 0 to n
      invariant e.Valid() && e.Stalled()
      invariant |cells| == k && forall i :: 0 <= i < k ==> cells[i] == ZERO
    {
      var c := e.ProduceNextCodedSymbol();
      cells := cells + [c];
    }
  }

  /** Symbols that have been hashed by the scheme carry their own hash. */
  lemma HashedIsHonest(s: Scheme, xs: seq<Word>, ys: seq<Word>)
    ensures Honest(s, multiset(Hashed(s, xs)) - multiset(Hashed(s, ys)))
  {
    forall x | x in multiset(Hashed(s, xs)) - multiset(Hashed(s, ys))
      ensures x.hash == s.hash(x.symbol)
    {
      assert x in multiset(Hashed(s, xs));
      assert x in Hashed(s, xs);
    }
  }

  lemma CellOfNothing(s: Scheme, c: CodedSymbol, i: nat)
    ensures Minus(c, CellOf(s, multiset{}, i)) == c
  {
    PlusZero(c);
  }

  /** The decoder has received the first cells of the sender's stream, and `steps` are to come. */
  ghost predicate Connected(sender: Encoder, decoder: Decoder, a: multiset<HashedSymbol>, b: multiset<HashedSymbol>,
                            steps: seq<Step>)
    reads sender, decoder, decoder.local, decoder.remote, decoder.window
  {
    && sender !in {decoder.local, decoder.remote, decoder.window}
    && sender.scheme == decoder.scheme && sender.Valid() && sender.InStep() && sender.nextIdx == |decoder.coded|
    && sender.Contents() == a && decoder.window.Contents() == b
    && decoder.Valid(a, multiset{}, steps)
  }

  method Send(sender: Encoder, decoder: Decoder, ghost a: multiset<HashedSymbol>, ghost b: multiset<HashedSymbol>,
              ghost steps: seq<Step>)
    requires |steps| > 0 && steps[0].SendCell? && Connected(sender, decoder, a, b, steps)
    modifies sender, decoder, decoder.local, decoder.remote, decoder.window
    ensures Connected(sender, decoder, a, b, steps[1..]) && |decoder.coded| == |old(decoder.coded)| + 1
  {
    hide State, CellOf, Minus, Encoder.Valid, Encoder.InStep;
    var c := sender.ProduceNextCodedSymbol();
    CellOfNothing(decoder.scheme, c, |decoder.coded|);
    decoder.AddCodedSymbol(c, a, multiset{}, steps);
  }

  /** A sender with the symbols `alice`, and a decoder that has copied an encoder of `bob`, ready for
      `steps` that meet no false cell. */
  method Connect(s: Scheme, alice: seq<Word>, bob: seq<Word>, ghost steps: seq<Step>)
    returns (sender: Encoder, decoder: Decoder)
    requires var a, b := multiset(Hashed(s, alice)), multiset(Hashed(s, bob)); Clean(s, a - b, b - a, 0, [], steps)
    ensures fresh(sender) && fresh(decoder) && fresh(decoder.local) && fresh(decoder.remote) && fresh(decoder.window)
    ensures Connected(sender, decoder, multiset(Hashed(s, alice)), multiset(Hashed(s, bob)), steps)
    ensures decoder.scheme == s && decoder.coded == []
  {
    hide State, Clean, Honest, Encoder.Valid, Encoder.InStep;
    HashedIsHonest(s, alice, bob);
    HashedIsHonest(s, bob, alice);
    sender := Encode(s, alice);
    var receiver := Encode(s, bob);
    decoder := new Decoder.FromEncoder(receiver);
    assert multiset{} + decoder.window.Contents() == decoder.window.Contents();
    decoder.FreshIsValid(multiset(Hashed(s, alice)), multiset{}, steps);
  }

  /** What the decoder has found of the difference, and what it says about it. */
  ghost predicate Sound(decoder: Decoder, a: multiset<HashedSymbol>, b: multiset<HashedSymbol>)
    reads decoder, decoder.local, decoder.remote
  {
    && decoder.remote.Contents() <= a - b && decoder.local.Contents() <= b - a
    && (|decoder.coded| > 0 && decoder.Decoded() ==>
          && decoder.remote.Contents() == a - b && decoder.local.Contents() == b - a
          && Once(a - b, a - b) && Once(b - a, b - a))
  }

  /** It has found all that can be found with the cells it has, and says so. */
  ghost predicate Complete(decoder: Decoder, a: multiset<HashedSymbol>, b: multiset<HashedSymbol>)
    reads decoder, decoder.local, decoder.remote
  {
    && LargestStopping(decoder.scheme, a - b, b - a, a - b - decoder.remote.Contents(),
                       b - a - decoder.local.Contents(),
                       |decoder.coded|)
    && (decoder.Decoded() <==> !HasStopping(decoder.scheme, a - b, b - a, |decoder.coded|))
    && (decoder.remote.Contents() == a - b && decoder.local.Contents() == b - a ==> decoder.Decoded())
  }

  /** How many cells have been sent. */
  function Sent(steps: seq<Step>): nat {
    multiset(steps)[SendCell]
  }

  lemma ConnectedIsSound(sender: Encoder, decoder: Decoder, a: multiset<HashedSymbol>, b: multiset<HashedSymbol>,
                         steps: seq<Step>)
    requires Connected(sender, decoder, a, b, steps)
    ensures Sound(decoder, a, b)
  {
    hide State, Encoder.Valid, Encoder.InStep;
    assert multiset{} + b == b;
    StateBounds(decoder.scheme, a - b, b - a, decoder.remote.Contents(), decoder.local.Contents(),
                decoder.coded, decoder.decodable, decoder.done, decoder.numDecoded, steps);
    if |decoder.coded| > 0 && decoder.Decoded() {
      decoder.DecodedIsExact(a, multiset{}, steps);
    }
  }

  method Try(sender: Encoder, decoder: Decoder, ghost a: multiset<HashedSymbol>, ghost b: multiset<HashedSymbol>,
             ghost steps: seq<Step>)
    requires |steps| > 0 && steps[0].TryDecode? && Connected(sender, decoder, a, b, steps)
    modifies decoder, decoder.local, decoder.remote
    ensures Connected(sender, decoder, a, b, steps[1..]) && |decoder.coded| == |old(decoder.coded)|
    ensures |decoder.coded| > 0 ==> Complete(decoder, a, b)
  {
    hide State, LargestStopping, HasStopping, Encoder.Valid, Encoder.InStep;
    assert multiset{} + b == b;
    var res := decoder.TryDecode(a, multiset{}, steps);
  }

  /** Any interleaving of sending coded symbols and trying to decode them. */
  method Run(sender: Encoder, decoder: Decoder, steps: seq<Step>, ghost a: multiset<HashedSymbol>,
             ghost b: multiset<HashedSymbol>)
    requires Connected(sender, decoder, a, b, steps) && decoder.coded == []
    modifies sender, decoder, decoder.local, decoder.remote, decoder.window
    ensures Connected(sender, decoder, a, b, [])
    ensures |decoder.coded| == Sent(steps)
    ensures SendCell in steps && steps[|steps| - 1] == TryDecode ==> Complete(decoder, a, b)
  {
    hide Connected, Complete;
    for k := 0 to |steps|
      invariant Connected(sender, decoder, a, b, steps[k..])
      invariant |decoder.coded| == Sent(steps[..k])
      invariant (k > 0 && steps[k - 1] == TryDecode && |decoder.coded| > 0) ==> Complete(decoder, a, b)
    {
      assert steps[..k + 1] == steps[..k] + [steps[k]];
      assert steps[k..][1..] == steps[k + 1..];
      match steps[k]
      case SendCell => Send(sender, decoder, a, b, steps[k..]);
      case TryDecode => Try(sender, decoder, a, b, steps[k..]);
    }
    assert steps[..|steps|] == steps && steps[|steps|..] == [];
  }

  /** If in the end of any session, with at least one coded symbol sent, the decoder says it has
      decoded, it holds exactly the symbols only the sender has, and exactly those only the receiver
      has, and the difference holds none of them twice; and right after trying to decode, it says so
      whenever it does. What it has then not found is the largest part of the difference of which no
      symbol is alone in a cell that has been sent: so whether it decodes depends on the difference and
      on the number of these cells, and not on when it has tried. */
  method Reconcile(s: Scheme, alice: seq<Word>, bob: seq<Word>, steps: seq<Step>)
    returns (decoded: bool, theirs: seq<HashedSymbol>, ours: seq<HashedSymbol>)
    requires var a, b := multiset(Hashed(s, alice)), multiset(Hashed(s, bob)); Clean(s, a - b, b - a, 0, [], steps)
    ensures var a, b := multiset(Hashed(s, alice)), multiset(Hashed(s, bob));
            && multiset(theirs) <= a - b && multiset(ours) <= b - a
            && (SendCell in steps && decoded ==> multiset(theirs) == a - b && multiset(ours) == b - a)
            && (SendCell in steps && decoded ==> Once(a - b, a - b) && Once(b - a, b - a))
            && (SendCell in steps && steps[|steps| - 1] == TryDecode ==>
                  (decoded <==> multiset(theirs) == a - b && multiset(ours) == b - a))
            && (SendCell in steps && steps[|steps| - 1] == TryDecode ==>
                  && LargestStopping(s, a - b, b - a, a - b - multiset(theirs), b - a - multiset(ours), Sent(steps))
                  && (decoded <==> !HasStopping(s, a - b, b - a, Sent(steps))))
  {
    hide Connected, Clean, LargestStopping, HasStopping;
    ghost var a, b := multiset(Hashed(s, alice)), multiset(Hashed(s, bob));
    var sender, decoder := Connect(s, alice, bob, steps);
    Run(sender, decoder, steps, a, b);
    ConnectedIsSound(sender, decoder, a, b, []);
    decoded, theirs, ours := decoder.Decoded(), decoder.remote.symbols, decoder.local.symbols;
  }
  // ---------- A session that decodes ----------

  /** Symbols are their own hash; an index sequence goes on by 1 if its seed has bit 0, and by 2 otherwise. */
  function Stepping(): Scheme {
    RawScheme(w => w, (m: Mapping) => m.(lastIdx := m.lastIdx + if 0 in m.prng then 1 else 2))
  }

  lemma SteppingParts(x: HashedSymbol, y: HashedSymbol)
    requires 0 in x.hash && 0 !in y.hash
    ensures Hits(Stepping(), x, 1) && !Hits(Stepping(), y, 1)
  {
    assert Advance(Stepping(), Start(x), 1) == Mapping(x.hash, 1);
    assert Advance(Stepping(), Start(y), 1) == Mapping(y.hash, 2);
  }

  /** Two symbols of different hashes part in cell 1, and after two cells both are decoded. */
  method DecodeTwo(x: Word, y: Word) returns (decoded: bool, theirs: seq<HashedSymbol>, ours: seq<HashedSymbol>)
    requires 0 in x && 0 !in y
    ensures decoded && ours == [] && multiset(theirs) == multiset{HashedSymbol(x, x), HashedSymbol(y, y)}
  {
    var steps := [SendCell, SendCell, TryDecode];
    ghost var u, v, s := HashedSymbol(x, x), HashedSymbol(y, y), Stepping();
    TwoHashed(s, x, y, u, v, steps);
    SteppingParts(u, v);
    hide *;
    PartedBegin(s, u, v, 2);
    OneSideIsNeverFalse(s, multiset{u, v});
    NoFalsePureIsClean(s, multiset{u, v}, multiset{}, multiset{u, v}, multiset{}, 0, [], steps);
    decoded, theirs, ours := Reconcile(Stepping(), [x, y], [], steps);
    OnlyNone(ours);
  }

  lemma TwoHashed(s: Scheme, x: Word, y: Word, u: HashedSymbol, v: HashedSymbol, steps: seq<Step>)
    requires u == HashedSymbol(x, s.hash(x)) && v == HashedSymbol(y, s.hash(y))
             && steps == [SendCell, SendCell, TryDecode]
    ensures multiset(Hashed(s, [x, y])) - multiset(Hashed(s, [])) == multiset{u, v}
    ensures multiset(Hashed(s, [])) - multiset(Hashed(s, [x, y])) == multiset{}
    ensures SendCell in steps && steps[|steps| - 1] == TryDecode && Sent(steps) == 2
  {
    assert Hashed(s, [x, y]) == [u, v] && Hashed(s, []) == [];
    assert multiset(steps) == multiset{SendCell, SendCell, TryDecode};
  }

  // ---------- Sessions of one cell ----------

  /** What a decoder makes of the one cell it has seen is right, whatever it says, exactly if the cell is not false. */
  lemma OneCellIsRight(s: Scheme, p: multiset<HashedSymbol>, n: multiset<HashedSymbol>, cell: CodedSymbol,
                       decoded: bool,
                       theirs: multiset<HashedSymbol>, ours: multiset<HashedSymbol>)
    requires Honest(s, p) && Honest(s, n) && cell == Residual(s, p, n, 0)
    requires decoded <==> Pure(s, cell) || Empty(cell)
    requires theirs == (if decoded then Shown(cell, 1) else multiset{})
             && ours == if decoded then Shown(cell, -1) else multiset{}
    ensures (decoded <==> theirs == p && ours == n) <==> NotFalse(s, p, n, 0)
  {
    AllInCellZero(s, p);
    AllInCellZero(s, n);
    assert Weight(s, p, n, 0) == |p| + |n|;
    CellTells(s, p, n, 0);
    if |p| + |n| == 1 {
      var x := One(s, p, n, 0);
      OneOfTwo(p, n, x);
    }
    hide Residual, Weight, Honest;
    assert |theirs| + |ours| <= 1;
    assert |p| + |n| == 0 ==> p == multiset{} && n == multiset{};
  }

  lemma OneOfTwo(p: multiset<HashedSymbol>, n: multiset<HashedSymbol>, x: HashedSymbol)
    requires |p| + |n| == 1
    ensures x in p ==> p == multiset{x} && n == multiset{}
    ensures x in n ==> n == multiset{x} && p == multiset{}
  {
    assert x in p ==> p == multiset{x} + (p - multiset{x}) && |p - multiset{x}| == |p| - 1;
    assert x in n ==> n == multiset{x} + (n - multiset{x}) && |n - multiset{x}| == |n| - 1;
  }

  lemma FirstCell(s: Scheme, a: multiset<HashedSymbol>, b: multiset<HashedSymbol>)
    ensures Minus(CellOf(s, a, 0), CellOf(s, b, 0)) == Residual(s, a - b, b - a, 0)
  {
    var e := multiset{};
    assert e + b == b && a - b - e == a - b && b - a - e == b - a;
    ArrivedCell(s, a, e, b, e, e, 0);
    CellOfNothing(s, CellOf(s, a, 0), 0);
    CellOfNothing(s, Minus(CellOf(s, a, 0), CellOf(s, b, 0)), 0);
    PlusZero(Minus(CellOf(s, a, 0), CellOf(s, b, 0)));
  }

  /** A session of one cell, whether or not that is false: what the decoder says and what it has found are
      right exactly if it is not. */
  method OneCell(s: Scheme, alice: seq<Word>, bob: seq<Word>)
    returns (decoded: bool, theirs: seq<HashedSymbol>, ours: seq<HashedSymbol>)
    ensures var a, b := multiset(Hashed(s, alice)), multiset(Hashed(s, bob));
            && ((decoded <==> multiset(theirs) == a - b && multiset(ours) == b - a) <==> NotFalse(s, a - b, b - a, 0))
            && var cell := Residual(s, a - b, b - a, 0);
               && (decoded <==> Pure(s, cell) || Empty(cell))
               && (decoded ==> multiset(theirs) == Shown(cell, 1) && multiset(ours) == Shown(cell, -1))
               && (!decoded ==> theirs == [] && ours == [])
  {
    hide NotFalse, Honest, CellOf, Minus, Residual, Pure, Empty, Shown, Encoder.Valid, Encoder.InStep,
         Encoder.Stalled, State;
    ghost var a, b := multiset(Hashed(s, alice)), multiset(Hashed(s, bob));
    HashedIsHonest(s, alice, bob);
    HashedIsHonest(s, bob, alice);
    FirstCell(s, a, b);
    var sender := Encode(s, alice);
    var receiver := Encode(s, bob);
    var decoder := new Decoder.FromEncoder(receiver);
    var c := sender.ProduceNextCodedSymbol();
    decoder.AddCodedSymbol(c, multiset{}, multiset{}, []);
    var _ := decoder.TryDecode(multiset{}, multiset{}, []);
    decoded, theirs, ours := decoder.Decoded(), decoder.remote.symbols, decoder.local.symbols;
    OnlyNone(theirs);
    OnlyNone(ours);
    OneCellIsRight(s, a - b, b - a, Residual(s, a - b, b - a, 0), decoded, multiset(theirs), multiset(ours));
  }

  /** One symbol against another: with different hashes one cell is not enough; with the same hash the
      decoder says that it has decoded, and has found nothing. */
  method OneAgainstOne(s: Scheme, x: Word, y: Word)
    returns (decoded: bool, theirs: seq<HashedSymbol>, ours: seq<HashedSymbol>)
    requires x != y
    ensures decoded <==> s.hash(x) == s.hash(y)
    ensures theirs == [] && ours == []
  {
    hide *;
    ghost var u, v := HashedSymbol(x, s.hash(x)), HashedSymbol(y, s.hash(y));
    SinglesHashed(s, x, y, u, v);
    SinglesCell(s, u, v);
    decoded, theirs, ours := OneCell(s, [x], [y]);
    OnlyNone(theirs);
    OnlyNone(ours);
  }

  lemma SinglesHashed(s: Scheme, x: Word, y: Word, u: HashedSymbol, v: HashedSymbol)
    requires u == HashedSymbol(x, s.hash(x)) && v == HashedSymbol(y, s.hash(y)) && x != y
    ensures multiset(Hashed(s, [x])) - multiset(Hashed(s, [y])) == multiset{u}
    ensures multiset(Hashed(s, [y])) - multiset(Hashed(s, [x])) == multiset{v}
  {
    assert Hashed(s, [x]) == [u] && Hashed(s, [y]) == [v];
  }

  lemma SinglesCell(s: Scheme, u: HashedSymbol, v: HashedSymbol)
    ensures var c := Residual(s, multiset{u}, multiset{v}, 0);
            && (Pure(s, c) || Empty(c) <==> u.hash == v.hash)
            && Shown(c, 1) == multiset{} && Shown(c, -1) == multiset{}
  {
    AllInCellZero(s, multiset{u});
    AllInCellZero(s, multiset{v});
    hide At, Total;
    TotalOne(u);
    TotalOne(v);
    XorIsZero(u.hash, v.hash);
  }

  lemma XorIsZero(a: Word, b: Word)
    ensures Xor(a, b) == {} <==> a == b
  {
    if Xor(a, b) == {} {
      forall k
        ensures k in a <==> k in b
      {
        assert k !in Xor(a, b);
      }
    }
  }

  /** The sender has a symbol twice and the receiver has another one: after one cell the decoder says that it
      has decoded, and that the sender has what only the receiver has. */
  method Misled(s: Scheme, x: Word, y: Word) returns (decoded: bool, theirs: seq<HashedSymbol>, ours: seq<HashedSymbol>)
    requires x != y
    ensures decoded && theirs == [HashedSymbol(y, s.hash(y))] && ours == []
  {
    hide *;
    ghost var u, v := HashedSymbol(x, s.hash(x)), HashedSymbol(y, s.hash(y));
    TwiceHashed(s, x, y, u, v);
    TwiceCell(s, u, v);
    decoded, theirs, ours := OneCell(s, [x, x], [y]);
    OnlyOne(theirs, v);
    OnlyNone(ours);
  }

  lemma TwiceHashed(s: Scheme, x: Word, y: Word, u: HashedSymbol, v: HashedSymbol)
    requires u == HashedSymbol(x, s.hash(x)) && v == HashedSymbol(y, s.hash(y)) && x != y
    ensures multiset(Hashed(s, [x, x])) - multiset(Hashed(s, [y])) == multiset{u, u}
    ensures multiset(Hashed(s, [y])) - multiset(Hashed(s, [x, x])) == multiset{v}
    ensures v.hash == s.hash(v.symbol)
  {
    assert Hashed(s, [x, x]) == [u, u] && Hashed(s, [y]) == [v];
  }

  lemma TwiceCell(s: Scheme, u: HashedSymbol, v: HashedSymbol)
    requires v.hash == s.hash(v.symbol)
    ensures var c := Residual(s, multiset{u, u}, multiset{v}, 0);
            (Pure(s, c) || Empty(c)) && Shown(c, 1) == multiset{v} && Shown(c, -1) == multiset{}
  {
    AllInCellZero(s, multiset{u, u});
    AllInCellZero(s, multiset{v});
    hide At, Total;
    TwiceLooksLikeOne(s, u, v);
  }

  lemma OnlyOne(xs: seq<HashedSymbol>, x: HashedSymbol)
    ensures multiset(xs) == multiset{x} ==> xs == [x]
  {
    if multiset(xs) == multiset{x} {
      assert |multiset(xs)| == |xs| == 1;
      assert xs[0] in multiset(xs);
    }
  }

  lemma OnlyNone(xs: seq<HashedSymbol>)
    ensures multiset(xs) == multiset{} ==> xs == []
  {
    assert |multiset(xs)| == |xs|;
  }
}
