/** Weights form a join-semilattice: statements about joins become statements about upper bounds. */
module Weights {

  datatype Option<+T> = None | Some(value: T)

  /** The one operation a weight type supplies. Equality of weights is Dafny's own. */
  datatype Lattice<!W> = Lattice(join: (W, W) -> W)

  /** Associativity, commutativity and idempotence at three given weights. */
  ghost predicate LawsAt<W>(L: Lattice<W>, a: W, b: W, c: W) {
    && L.join(L.join(a, b), c) == L.join(a, L.join(b, c))
    && L.join(a, b) == L.join(b, a)
    && L.join(a, a) == a
  }

  ghost predicate Laws<W(!new)>(L: Lattice<W>) {
    forall a, b, c {:trigger LawsAt(L, a, b, c)} :: LawsAt(L, a, b, c)
  }

  /** The order of the semilattice. */
  ghost predicate Leq<W>(L: Lattice<W>, a: W, b: W) {
    L.join(a, b) == b
  }

  /** `w` contributes to a bound `u`; the bound `None` admits no weight at all. */
  ghost predicate Under<W>(L: Lattice<W>, w: W, u: Option<W>) {
    u.Some? && Leq(L, w, u.value)
  }

  /** The order on lifted weights, `None` being the least. */
  ghost predicate OptUnder<W>(L: Lattice<W>, w: Option<W>, u: Option<W>) {
    w.Some? ==> Under(L, w.value, u)
  }

  /** Join of lifted weights with `None` as its unit. */
  function JoinOpt<W>(L: Lattice<W>, a: Option<W>, b: Option<W>): Option<W> {
    match (a, b)
    case (None, _) => b
    case (_, None) => a
    case (Some(x), Some(y)) => Some(L.join(x, y))
  }

  lemma LeqRefl<W(!new)>(L: Lattice<W>, a: W)
    requires Laws(L)
    ensures Leq(L, a, a)
  {
    assert LawsAt(L, a, a, a);
  }

  /** A join is below exactly the common upper bounds. */
  lemma JoinIsLeast<W(!new)>(L: Lattice<W>, a: W, b: W, u: W)
    requires Laws(L)
    ensures Leq(L, L.join(a, b), u) <==> Leq(L, a, u) && Leq(L, b, u)
  {
    var ab := L.join(a, b);
    assert LawsAt(L, a, b, u);
    if Leq(L, ab, u) {
      assert LawsAt(L, a, a, b);
      assert LawsAt(L, a, ab, u);
      assert L.join(a, ab) == ab;
      assert LawsAt(L, b, b, a) && LawsAt(L, b, a, b) && LawsAt(L, b, ab, u);
      assert L.join(b, ab) == ab;
    }
  }

  lemma UnderJoin<W(!new)>(L: Lattice<W>, a: W, b: W)
    requires Laws(L)
    ensures forall u :: Under(L, L.join(a, b), u) <==> Under(L, a, u) && Under(L, b, u)
  {
    forall u ensures Under(L, L.join(a, b), u) <==> Under(L, a, u) && Under(L, b, u) {
      if u.Some? {
        JoinIsLeast(L, a, b, u.value);
      }
    }
  }

  lemma OptUnderJoin<W(!new)>(L: Lattice<W>, a: Option<W>, b: Option<W>)
    requires Laws(L)
    ensures forall u :: OptUnder(L, JoinOpt(L, a, b), u) <==> OptUnder(L, a, u) && OptUnder(L, b, u)
  {
    if a.Some? && b.Some? {
      UnderJoin(L, a.value, b.value);
    }
  }

  /** A lifted weight is determined by its upper bounds. */
  lemma SameBounds<W(!new)>(L: Lattice<W>, a: Option<W>, b: Option<W>)
    requires Laws(L)
    requires forall u :: OptUnder(L, a, u) <==> OptUnder(L, b, u)
    ensures a == b
  {
    assert OptUnder(L, a, None) <==> OptUnder(L, b, None);
    if a.Some? {
      LeqRefl(L, a.value);
      LeqRefl(L, b.value);
      assert OptUnder(L, a, a) && OptUnder(L, b, b);
      assert LawsAt(L, a.value, b.value, a.value);
    }
  }
}
