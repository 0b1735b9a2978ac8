/** The meaning of a node: a finite map from stacks to joined weights. */
module Meaning {
  import opened Weights
  import opened Tables
  import opened UNodes
  import opened WNodes
  import opened WPops

  // ----- the join of a list of weights

  function JoinAll<W>(L: Lattice<W>, ws: seq<W>): Option<W> {
    if ws == [] then None else JoinOpt(L, Some(ws[0]), JoinAll(L, ws[1..]))
  }

  ghost predicate AllUnder<W(!new)>(L: Lattice<W>, ws: seq<W>, u: Option<W>) {
    forall w :: w in ws ==> Under(L, w, u)
  }

  /** The join of a list is its least upper bound, so no order or repetition shows in it. */
  lemma {:induction false} JoinAllBounds<W(!new)>(L: Lattice<W>, ws: seq<W>)
    requires Laws(L)
    ensures forall u :: OptUnder(L, JoinAll(L, ws), u) <==> AllUnder(L, ws, u)
  {
    if ws != [] {
      JoinAllBounds(L, ws[1..]);
      OptUnderJoin(L, Some(ws[0]), JoinAll(L, ws[1..]));
      forall u ensures AllUnder(L, ws, u) <==> Under(L, ws[0], u) && AllUnder(L, ws[1..], u) {
        assert ws == [ws[0]] + ws[1..];
      }
    }
  }

  // ----- path weights

  /** The stored weights of the regions of `n` that contain `s`, one per region. */
  ghost function PathWeights<S(!new), W(!new)>(n: WNode<S, W>, s: seq<S>): seq<W>
    decreases n, 1
  {
    match n
    case WBranch(_, empty, children, _, _) =>
      if s == [] then empty
      else if s[0] in children then PathWeightsAll(children[s[0]].nodes, s[1..])
      else []
    case WSegment(_, values, next, _, _) =>
      if values.View() <= s then PathWeights(next, s[|values.View()|..]) else []
    case WShared(_, weight, stacks, _, _) =>
      if UHas(stacks, s) then [weight] else []
  }

  ghost function PathWeightsAll<S(!new), W(!new)>(q: seq<WNode<S, W>>, s: seq<S>): seq<W>
    decreases q, 0
  {
    if q == [] then [] else PathWeights(q[0], s) + PathWeightsAll(q[1..], s)
  }

  /** The meaning of `n` at `s`: the join of its path weights, or nothing. */
  ghost function Den<S(!new), W(!new)>(L: Lattice<W>, n: WNode<S, W>, s: seq<S>): Option<W> {
    JoinAll(L, PathWeights(n, s))
  }

  lemma {:induction false} BelowPaths<S(!new), W(!new)>(L: Lattice<W>, n: WNode<S, W>, s: seq<S>, u: Option<W>)
    ensures Below(L, n, s, u) <==> AllUnder(L, PathWeights(n, s), u)
    decreases n, 1
  {
    match n
    case WBranch(_, _, children, _, _) =>
      if s != [] {
        if s[0] in children {
          BelowPathsAll(L, children[s[0]].nodes, s[1..], u);
        }
      }
    case WSegment(_, values, next, _, _) =>
      if values.View() <= s {
        BelowPaths(L, next, s[|values.View()|..], u);
      }
    case WShared(_, weight, _, _, _) =>
      assert weight in [weight];
  }

  lemma {:induction false} BelowPathsAll<S(!new), W(!new)>(L: Lattice<W>, q: seq<WNode<S, W>>, s: seq<S>, u: Option<W>)
    ensures (forall c :: c in q ==> Below(L, c, s, u)) <==> AllUnder(L, PathWeightsAll(q, s), u)
    decreases q, 0
  {
    if q != [] {
      BelowPaths(L, q[0], s, u);
      BelowPathsAll(L, q[1..], s, u);
      assert q == [q[0]] + q[1..];
      assert forall c :: c in q <==> c == q[0] || c in q[1..];
    }
  }

  /** The bounds of a node at `s` are the upper bounds of its meaning there. */
  lemma DenBounds<S(!new), W(!new)>(L: Lattice<W>, n: WNode<S, W>, s: seq<S>)
    requires Laws(L)
    ensures forall u :: Below(L, n, s, u) <==> OptUnder(L, Den(L, n, s), u)
  {
    JoinAllBounds(L, PathWeights(n, s));
    forall u ensures Below(L, n, s, u) <==> AllUnder(L, PathWeights(n, s), u) {
      BelowPaths(L, n, s, u);
    }
  }

  /** A stack has a meaning exactly when it is represented. */
  lemma DenSome<S(!new), W(!new)>(L: Lattice<W>, n: WNode<S, W>, s: seq<S>)
    ensures Den(L, n, s).Some? <==> WHas(n, s)
  {
    BelowNone(L, n, s);
    BelowPaths(L, n, s, None);
    if PathWeights(n, s) != [] {
      assert PathWeights(n, s)[0] in PathWeights(n, s);
    }
  }

  /** Equal bounds are equal meanings, and conversely. */
  lemma SameMeaningIff<S(!new), W(!new)>(L: Lattice<W>, a: WNode<S, W>, b: WNode<S, W>)
    requires Laws(L)
    ensures SameMeaning(L, a, b) <==> forall s :: Den(L, a, s) == Den(L, b, s)
  {
    hide Below, Den;
    if SameMeaning(L, a, b) {
      forall s ensures Den(L, a, s) == Den(L, b, s) {
        DenBounds(L, a, s);
        DenBounds(L, b, s);
        assert forall u :: Below(L, a, s, u) <==> Below(L, b, s, u);
        SameBounds(L, Den(L, a, s), Den(L, b, s));
      }
    }
    if forall s :: Den(L, a, s) == Den(L, b, s) {
      forall s, u ensures Below(L, a, s, u) <==> Below(L, b, s, u) {
        DenBounds(L, a, s);
        DenBounds(L, b, s);
        assert Den(L, a, s) == Den(L, b, s);
      }
    }
  }

  // ----- merge

  /** Being a join of two nodes is being the pointwise join of their meanings. */
  lemma JoinMeaning<S(!new), W(!new)>(L: Lattice<W>, r: WNode<S, W>, a: WNode<S, W>, b: WNode<S, W>)
    requires Laws(L)
    ensures IsJoin(L, r, a, b) <==> forall s :: Den(L, r, s) == JoinOpt(L, Den(L, a, s), Den(L, b, s))
  {
    hide Below, Den;
    if IsJoin(L, r, a, b) {
      forall s ensures Den(L, r, s) == JoinOpt(L, Den(L, a, s), Den(L, b, s)) {
        JoinMeaningAt(L, r, a, b, s);
        SameBounds(L, Den(L, r, s), JoinOpt(L, Den(L, a, s), Den(L, b, s)));
      }
    }
    if forall s :: Den(L, r, s) == JoinOpt(L, Den(L, a, s), Den(L, b, s)) {
      forall s, u ensures Below(L, r, s, u) <==> Below(L, a, s, u) && Below(L, b, s, u) {
        assert Den(L, r, s) == JoinOpt(L, Den(L, a, s), Den(L, b, s));
        DenBounds(L, r, s);
        DenBounds(L, a, s);
        DenBounds(L, b, s);
        OptUnderJoin(L, Den(L, a, s), Den(L, b, s));
      }
    }
  }

  lemma JoinMeaningAt<S(!new), W(!new)>(L: Lattice<W>, r: WNode<S, W>, a: WNode<S, W>, b: WNode<S, W>, s: seq<S>)
    requires Laws(L) && IsJoin(L, r, a, b)
    ensures forall u :: OptUnder(L, Den(L, r, s), u) <==> OptUnder(L, JoinOpt(L, Den(L, a, s), Den(L, b, s)), u)
  {
    hide Below, Den;
    DenBounds(L, r, s);
    DenBounds(L, a, s);
    DenBounds(L, b, s);
    OptUnderJoin(L, Den(L, a, s), Den(L, b, s));
    assert forall u :: Below(L, r, s, u) <==> Below(L, a, s, u) && Below(L, b, s, u);
  }

  /** Whatever nodes the merges return, merging is extensionally a semilattice operation. */
  lemma MergeIsSemilattice<S(!new), W(!new)>(L: Lattice<W>, a: WNode<S, W>, b: WNode<S, W>, c: WNode<S, W>,
                                             ab: WNode<S, W>, ba: WNode<S, W>, bc: WNode<S, W>,
                                             abc: WNode<S, W>, abc': WNode<S, W>, aa: WNode<S, W>)
    requires Laws(L)
    requires IsJoin(L, ab, a, b) && IsJoin(L, ba, b, a) && IsJoin(L, bc, b, c)
    requires IsJoin(L, abc, ab, c) && IsJoin(L, abc', a, bc) && IsJoin(L, aa, a, a)
    ensures forall s :: Den(L, ab, s) == Den(L, ba, s) && Den(L, abc, s) == Den(L, abc', s) && Den(L, aa, s) == Den(L, a, s)
  {
    hide Below, Den;
    SameMeaningIff(L, ab, ba);
    SameMeaningIff(L, abc, abc');
    SameMeaningIff(L, aa, a);
    assert SameMeaning(L, ab, ba) && SameMeaning(L, abc, abc') && SameMeaning(L, aa, a);
  }

  // ----- pop

  /** `w` is the least upper bound of what `n` means over all stacks of the form `p + s`. */
  ghost predicate IsPopImage<S(!new), W(!new)>(L: Lattice<W>, w: Option<W>, n: WNode<S, W>, count: nat, s: seq<S>) {
    forall u :: OptUnder(L, w, u) <==> forall p {:trigger p + s} :: |p| == count ==> OptUnder(L, Den(L, n, p + s), u)
  }

  /** Being a pop is having, at every stack, the join of everything that collapses onto it. */
  lemma PopMeaning<S(!new), W(!new)>(L: Lattice<W>, r: WNode<S, W>, n: WNode<S, W>, count: nat)
    requires Laws(L)
    ensures WIsPop(L, r, n, count) <==> forall s :: IsPopImage(L, Den(L, r, s), n, count, s)
  {
    hide Below, Den;
    forall s, u ensures BelowPop(L, n, count, s, u)
                   <==> forall p {:trigger p + s} :: |p| == count ==> OptUnder(L, Den(L, n, p + s), u) {
      forall p: seq<S> | |p| == count ensures Below(L, n, p + s, u) <==> OptUnder(L, Den(L, n, p + s), u) {
        DenBounds(L, n, p + s);
      }
    }
    hide BelowPop;
    forall s ensures forall u :: Below(L, r, s, u) <==> OptUnder(L, Den(L, r, s), u) {
      DenBounds(L, r, s);
    }
    if WIsPop(L, r, n, count) {
      forall s ensures IsPopImage(L, Den(L, r, s), n, count, s) {
      }
    }
    if forall s :: IsPopImage(L, Den(L, r, s), n, count, s) {
      forall s, u ensures Below(L, r, s, u) <==> BelowPop(L, n, count, s, u) {
        assert IsPopImage(L, Den(L, r, s), n, count, s);
      }
    }
  }

  /** Popping `m` and then `k` means popping `m + k`. */
  lemma PopAdds<S(!new), W(!new)>(L: Lattice<W>, n: WNode<S, W>, a: WNode<S, W>, b: WNode<S, W>, c: WNode<S, W>, m: nat, k: nat)
    requires WIsPop(L, a, n, m) && WIsPop(L, b, a, k) && WIsPop(L, c, n, m + k)
    ensures SameMeaning(L, b, c)
  {
    hide Below;
    forall s, u ensures Below(L, b, s, u) <==> Below(L, c, s, u) {
      assert Below(L, b, s, u) <==> BelowPop(L, a, k, s, u);
      assert Below(L, c, s, u) <==> BelowPop(L, n, m + k, s, u);
      if BelowPop(L, a, k, s, u) {
        forall p: seq<S> | |p| == m + k ensures Below(L, n, p + s, u) {
          var lo := p[m..];
          assert Below(L, a, lo + s, u);
          assert BelowPop(L, n, m, lo + s, u);
          assert p[..m] + (lo + s) == p + s;
        }
      }
      if BelowPop(L, n, m + k, s, u) {
        forall q: seq<S> | |q| == k ensures Below(L, a, q + s, u) {
          forall p: seq<S> | |p| == m ensures Below(L, n, p + (q + s), u) {
            assert p + (q + s) == (p + q) + s;
          }
          assert BelowPop(L, n, m, q + s, u);
        }
      }
    }
  }

  /** Popping nothing changes nothing. */
  lemma PopNone<S(!new), W(!new)>(L: Lattice<W>, r: WNode<S, W>, n: WNode<S, W>)
    requires WIsPop(L, r, n, 0)
    ensures SameMeaning(L, r, n)
  {
    hide Below, BelowPop;
    WPopZero(L, n);
  }

  // ----- determinism

  /** In a well-formed node every represented stack lies in exactly one stored region. */
  lemma {:induction false} OneRegion<S(!new), W(!new)>(n: WNode<S, W>, s: seq<S>)
    requires WWf(n)
    ensures |PathWeights(n, s)| == if WHas(n, s) then 1 else 0
    decreases n
  {
    match n
    case WBranch(_, _, children, _, _) =>
      if s != [] {
        if s[0] in children {
          var c := children[s[0]].nodes[0];
          assert AltsAt(children, s[0]) == [c];
          assert c in AltsAt(children, s[0]);
          OneRegion(c, s[1..]);
          assert PathWeightsAll([c], s[1..]) == PathWeights(c, s[1..]) + PathWeightsAll([c][1..], s[1..]);
        }
      }
    case WSegment(_, values, next, _, _) =>
      if values.View() <= s {
        OneRegion(next, s[|values.View()|..]);
      }
    case WShared(_, _, _, _, _) =>
  }

  /** So its meaning is a stored weight, whatever the join. */
  lemma StoredWeight<S(!new), W(!new)>(L: Lattice<W>, n: WNode<S, W>, s: seq<S>)
    requires WWf(n) && WHas(n, s)
    ensures Den(L, n, s).Some? && PathWeights(n, s) == [Den(L, n, s).value]
  {
    OneRegion(n, s);
    hide PathWeights, WNormal, WDetermined, WHas;
    var ws := PathWeights(n, s);
    assert ws[1..] == [] && ws == [ws[0]];
    assert JoinAll(L, ws) == JoinOpt(L, Some(ws[0]), JoinAll(L, ws[1..])) == Some(ws[0]);
  }
}
