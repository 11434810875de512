/** Machine words as bit sets.

    The reconciliation code uses its symbols and hashes through bitwise exclusive or, equality and
    the zero word only. A word of any width is modelled as the set of positions of its one bits, so
    that exclusive or is symmetric difference and zero is the empty set. */
module Words {

  type Word = set<nat>

  function Xor(a: Word, b: Word): Word {
    (a - b) + (b - a)
  }

  lemma XorCommutes(a: Word, b: Word)
    ensures Xor(a, b) == Xor(b, a)
  {
  }

  lemma XorAssociates(a: Word, b: Word, c: Word)
    ensures Xor(Xor(a, b), c) == Xor(a, Xor(b, c))
  {
    assert forall k :: k in Xor(Xor(a, b), c) <==> k in Xor(a, Xor(b, c));
  }

  lemma XorSelfInverse(a: Word, b: Word)
    ensures Xor(Xor(a, b), b) == a
    ensures Xor(a, {}) == a && Xor({}, a) == a
    ensures Xor(a, a) == {}
  {
    assert forall k :: k in Xor(Xor(a, b), b) <==> k in a;
  }
}
