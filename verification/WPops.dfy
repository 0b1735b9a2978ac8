/** Popping and joining weighted nodes, as seen by their meaning: the laws the
    operations rely on. */
module WPops {
  import opened Weights
  import opened Tables
  import opened UNodes
  import opened WNodes

  lemma WPopZero<S(!new), W(!new)>(L: Lattice<W>, n: WNode<S, W>)
    ensures WIsPop(L, n, n, 0)
  {
    forall s, u ensures BelowPop(L, n, 0, s, u) <==> Below(L, n, s, u) {
      assert [] + s == s;
      forall p: seq<S> | |p| == 0 ensures p + s == s {
      }
    }
  }

  /** Popping inside a segment leaves its tail. */
  lemma WPopInside<S(!new), W(!new)>(L: Lattice<W>, n: WNode<S, W>, count: nat)
    requires n.WSegment? && count <= |n.values.View()|
    ensures forall s, u ::
      BelowPop(L, n, count, s, u)
      <==> (n.values.View()[count..] <= s ==> Below(L, n.next, s[|n.values.View()| - count..], u))
  {
    var v := n.values.View();
    forall s, u ensures BelowPop(L, n, count, s, u)
                   <==> (v[count..] <= s ==> Below(L, n.next, s[|v| - count..], u)) {
      var p0 := v[..count];
      CutInside(v, count, p0, s);
      if BelowPop(L, n, count, s, u) {
        assert Below(L, n, p0 + s, u);
      }
      if v[count..] <= s ==> Below(L, n.next, s[|v| - count..], u) {
        forall p: seq<S> | |p| == count ensures Below(L, n, p + s, u) {
          CutInside(v, count, p, s);
        }
      }
    }
  }

  lemma CutInside<S>(v: seq<S>, count: nat, p: seq<S>, s: seq<S>)
    requires count <= |v| && |p| == count
    ensures v <= p + s <==> p == v[..count] && v[count..] <= s
    ensures v <= p + s ==> (p + s)[|v|..] == s[|v| - count..]
  {
    if v <= p + s {
      assert v[..count] == (p + s)[..count] == p;
      assert v[count..] == (p + s)[..|v|][count..] == s[..|v| - count];
    }
    if p == v[..count] && v[count..] <= s {
      assert v == p + v[count..];
      assert (p + s)[..|v|] == p + s[..|v| - count];
    }
  }

  /** Popping past a segment goes on below it. */
  lemma WPopPast<S(!new), W(!new)>(L: Lattice<W>, n: WNode<S, W>, count: nat)
    requires n.WSegment? && |n.values.View()| <= count
    ensures forall s, u :: BelowPop(L, n, count, s, u) <==> BelowPop(L, n.next, count - |n.values.View()|, s, u)
  {
    var v := n.values.View();
    forall s, u ensures BelowPop(L, n, count, s, u) <==> BelowPop(L, n.next, count - |v|, s, u) {
      if BelowPop(L, n, count, s, u) {
        forall q: seq<S> | |q| == count - |v| ensures Below(L, n.next, q + s, u) {
          assert (v + q) + s == v + (q + s);
          assert Below(L, n, (v + q) + s, u);
          assert (v + (q + s))[|v|..] == q + s;
        }
      }
      if BelowPop(L, n.next, count - |v|, s, u) {
        forall p: seq<S> | |p| == count ensures Below(L, n, p + s, u) {
          assert (p + s)[|v|..] == p[|v|..] + s;
        }
      }
    }
  }

  /** Every alternative, whatever its symbol, is bounded after one pop less. */
  ghost predicate AlternativesPop<S(!new), W(!new)>(L: Lattice<W>, n: WNode<S, W>, count: nat, s: seq<S>, u: Option<W>)
    requires n.WBranch? && count >= 1
  {
    forall t, c {:trigger c in AltsAt(n.children, t)} :: c in AltsAt(n.children, t) ==> BelowPop(L, c, count - 1, s, u)
  }

  /** Popping a branch pops each alternative one symbol less; what collides is bounded together. */
  lemma WPopBranch<S(!new), W(!new)>(L: Lattice<W>, n: WNode<S, W>, count: nat)
    requires n.WBranch? && count >= 1
    ensures forall s, u :: BelowPop(L, n, count, s, u) <==> AlternativesPop(L, n, count, s, u)
  {
    forall s, u ensures BelowPop(L, n, count, s, u) <==> AlternativesPop(L, n, count, s, u) {
      if BelowPop(L, n, count, s, u) {
        forall t, c | c in AltsAt(n.children, t) ensures BelowPop(L, c, count - 1, s, u) {
          forall q: seq<S> | |q| == count - 1 ensures Below(L, c, q + s, u) {
            assert ([t] + q) + s == [t] + (q + s);
            assert Below(L, n, ([t] + q) + s, u);
            assert ([t] + (q + s))[1..] == q + s;
          }
        }
      }
      if AlternativesPop(L, n, count, s, u) {
        forall p: seq<S> | |p| == count ensures Below(L, n, p + s, u) {
          assert (p + s)[1..] == p[1..] + s;
        }
      }
    }
  }

  /** A shared region keeps its one weight. */
  lemma WPopShared<S(!new), W(!new)>(L: Lattice<W>, n: WNode<S, W>, count: nat)
    requires n.WShared?
    ensures forall s, u :: BelowPop(L, n, count, s, u) <==> (UPopHas(n.stacks, count, s) ==> Under(L, n.weight, u))
  {
    forall s, u ensures BelowPop(L, n, count, s, u) <==> (UPopHas(n.stacks, count, s) ==> Under(L, n.weight, u)) {
      if UPopHas(n.stacks, count, s) {
        var p :| |p| == count && UHas(n.stacks, p + s);
        assert Below(L, n, p + s, u) <==> Under(L, n.weight, u);
      }
    }
  }

  lemma BelowPopNone<S(!new), W(!new)>(L: Lattice<W>, n: WNode<S, W>, count: nat, s: seq<S>)
    requires !BelowPop(L, n, count, s, None)
    ensures exists p :: |p| == count && WHas(n, p + s)
  {
    var p: seq<S> :| |p| == count && !Below(L, n, p + s, None);
    BelowNone(L, n, p + s);
  }

  /** What is left after a pop is that much shorter. */
  lemma WPopShorter<S(!new), W(!new)>(L: Lattice<W>, n: WNode<S, W>, r: WNode<S, W>, count: nat)
    requires WWf(r) && WIsPop(L, r, n, count)
    ensures WDepth(r) == -1 || WDepth(r) + count <= WDepth(n)
  {
    hide WNormal, WDetermined, WHas, Below, BelowPop;
    WEmptyIff(r);
    if r.paths > 0 {
      var s := WLongest(r);
      BelowNone(L, r, s);
      BelowPopNone(L, n, count, s);
      var p :| |p| == count && WHas(n, p + s);
      WWordBounds(n, p + s);
    }
  }

  /** A join is no deeper than its deeper side. */
  lemma JoinDepth<S(!new), W(!new)>(L: Lattice<W>, r: WNode<S, W>, a: WNode<S, W>, b: WNode<S, W>, d: int)
    requires WWf(r) && IsJoin(L, r, a, b) && WDepth(a) <= d && WDepth(b) <= d && -1 <= d
    ensures WDepth(r) <= d
  {
    hide WNormal, WDetermined, WHas, Below;
    WEmptyIff(r);
    if r.paths > 0 {
      var s := WLongest(r);
      BelowNone(L, r, s);
      BelowNone(L, a, s);
      BelowNone(L, b, s);
      if WHas(a, s) {
        WWordBounds(a, s);
      } else {
        WWordBounds(b, s);
      }
    }
  }
}
