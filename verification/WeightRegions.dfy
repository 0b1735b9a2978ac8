/** Folding the stored weight regions of a graph, each distinct node once, and the set of
    addresses already seen. */
module WeightRegions {
  import opened Weights
  import opened Tables
  import opened WNodes
  import opened Live
  import opened Meaning
  import opened Regions

  // ----- the set of seen addresses

  const INLINE: nat := 16

  /** A set of addresses kept in a short list until it overflows into a hash set. */
  class NodeSeen {
    var inline: seq<nat>
    var overflow: Option<set<nat>>

    ghost predicate Valid()
      reads this
    {
      |inline| <= INLINE && (overflow.Some? ==> forall a :: a in inline ==> a in overflow.value)
    }

    /** The one set it stands for, on either side of the switch. */
    ghost function Ids(): set<nat>
      reads this
    {
      if overflow.Some? then overflow.value else set a | a in inline
    }

    constructor ()
      ensures Valid() && Ids() == {}
    {
      inline := [];
      overflow := None;
    }

    method Insert(id: nat) returns (added: bool)
      requires Valid()
      modifies this
      ensures Valid() && Ids() == old(Ids()) + {id} && (added <==> id !in old(Ids()))
    {
      if overflow.Some? {
        added := id !in overflow.value;
        overflow := Some(overflow.value + {id});
        return;
      }
      if id in inline {
        return false;
      }
      if |inline| < INLINE {
        inline := inline + [id];
        return true;
      }
      var seen := set a | a in inline;
      added := id !in seen;
      overflow := Some(seen + {id});
    }
  }

  // ----- the join of all weights

  /** `out` is the join of all weights stored in `nodes`. */
  ghost predicate JoinsNodes<S(!new), W(!new)>(L: Lattice<W>, out: Option<W>, nodes: set<WNode<S, W>>) {
    forall u :: OptUnder(L, out, u) <==> NodesUnder(L, nodes, u)
  }

  ghost predicate NodesUnder<S(!new), W(!new)>(L: Lattice<W>, nodes: set<WNode<S, W>>, u: Option<W>) {
    forall m :: m in nodes ==> AllUnder(L, OwnWeights(m), u)
  }

  /** The accumulator and seen set of one fold over a graph. */
  class JoinWalk<S(==, !new), W(==, !new)> {
    const L: Lattice<W>
    var seen: set<nat>
    var out: Option<W>
    ghost var visited: set<WNode<S, W>>

    ghost predicate Valid(h: set<WNode<S, W>>)
      reads this
    {
      Laws(L) && Heap(h) && visited <= h && seen == Addrs(visited) && JoinsNodes(L, out, visited)
    }

    constructor (L: Lattice<W>, ghost h: set<WNode<S, W>>)
      requires Laws(L) && Heap(h)
      ensures Valid(h) && visited == {} && this.L == L
    {
      this.L := L;
      seen := {};
      out := None;
      visited := {};
    }

    method Walk(n: WNode<S, W>, ghost h: set<WNode<S, W>>)
      requires Valid(h) && n in h
      modifies this
      ensures Valid(h) && Walked(n, old(visited), visited)
      decreases n
    {
      hide JoinsNodes;
      ghost var before := visited;
      SeenAddr(h, visited, n);
      if n.addr in seen {
        return;
      }
      seen := seen + {n.addr};
      visited := visited + {n};
      match n
      case WShared(_, weight, _, _, _) =>
        JoinNode(L, out, before, n, JoinOpt(L, out, Some(weight)));
        out := JoinOpt(L, out, Some(weight));
        WalkShared(n, before);
      case WSegment(_, _, next, _, _) =>
        JoinNode(L, out, before, n, out);
        assert IsKid(next, n);
        Walk(next, h);
        WalkSegment(n, before, visited);
      case WBranch(_, empty, children, _, _) =>
        JoinEmpty(n, h, before);
        WalkAlternatives(n, h, before);
    }

    method JoinEmpty(n: WNode<S, W>, ghost h: set<WNode<S, W>>, ghost before: set<WNode<S, W>>)
      requires Laws(L) && n.WBranch? && JoinsNodes(L, out, before)
      requires visited == before + {n}
      modifies this`out
      ensures JoinsNodes(L, out, visited)
    {
      ghost var start := out;
      for i := 0 to |n.empty|
        invariant forall u :: OptUnder(L, out, u) <==> OptUnder(L, start, u) && AllUnder(L, n.empty[..i], u)
      {
        OptUnderJoin(L, out, Some(n.empty[i]));
        assert n.empty[..i + 1] == n.empty[..i] + [n.empty[i]];
        out := JoinOpt(L, out, Some(n.empty[i]));
      }
      assert n.empty[..|n.empty|] == n.empty;
      assert forall u :: OptUnder(L, out, u) <==> OptUnder(L, start, u) && AllUnder(L, OwnWeights(n), u);
    }

    method WalkAlternatives(n: WNode<S, W>, ghost h: set<WNode<S, W>>, ghost before: set<WNode<S, W>>)
      requires Valid(h) && n in h && n.WBranch? && visited == before + {n} && n !in before
      modifies this
      ensures Valid(h) && Walked(n, before, visited)
      decreases n, 0
    {
      hide JoinsNodes;
      ReachSelf(n);
      var flat := Flatten(n.children);
      for i := 0 to |flat|
        invariant Valid(h) && WalkedKids(n, flat, i, before, visited)
      {
        assert flat[i] in flat;
        ghost var t :| flat[i] in AltsAt(n.children, t);
        assert IsKid(flat[i], n);
        ghost var mid := visited;
        Walk(flat[i], h);
        WalkStep(n, flat, i, before, mid, visited);
      }
      WalkBranch(n, flat, before, visited);
    }
  }

  lemma JoinNode<S(!new), W(!new)>(L: Lattice<W>, start: Option<W>, before: set<WNode<S, W>>, n: WNode<S, W>, out: Option<W>)
    requires Laws(L) && JoinsNodes(L, start, before)
    requires (n.WShared? && out == JoinOpt(L, start, Some(n.weight))) || (n.WSegment? && out == start)
    ensures JoinsNodes(L, out, before + {n})
  {
    if n.WShared? {
      OptUnderJoin(L, start, Some(n.weight));
      assert OwnWeights(n) == [n.weight] && out == JoinOpt(L, start, Some(n.weight));
      forall u ensures AllUnder(L, OwnWeights(n), u) <==> OptUnder(L, Some(n.weight), u) {
        assert n.weight in OwnWeights(n);
      }
    } else {
      assert OwnWeights(n) == [];
    }
  }

  /** `w` is the join of the meaning of `n` over all represented stacks. */
  ghost predicate JoinsMeaning<S(!new), W(!new)>(L: Lattice<W>, w: Option<W>, n: WNode<S, W>) {
    forall u :: OptUnder(L, w, u) <==> forall s {:trigger Den(L, n, s)} :: OptUnder(L, Den(L, n, s), u)
  }

  /** The fold over distinct nodes, skipping shared ones, is the join over all stacks. */
  method WJoinedWeight<S(!new), W(!new)>(L: Lattice<W>, n: WNode<S, W>) returns (out: Option<W>)
    requires Laws(L) && WWf(n) && Heap(Reach(n))
    ensures JoinsMeaning(L, out, n) && (out.None? <==> n.paths == 0)
  {
    hide WNormal, WDetermined, JoinsNodes;
    ReachSelf(n);
    var walk := new JoinWalk<S, W>(L, Reach(n));
    walk.Walk(n, Reach(n));
    WalkedAll(n, walk.visited);
    out := walk.out;
    NodesAreStacks(L, out, n);
  }

  lemma NodesAreStacks<S(!new), W(!new)>(L: Lattice<W>, out: Option<W>, n: WNode<S, W>)
    requires Laws(L) && WWf(n) && JoinsNodes(L, out, Reach(n))
    ensures JoinsMeaning(L, out, n) && (out.None? <==> n.paths == 0)
  {
    hide WNormal, WDetermined, WHas, PathWeights, Den, Reach;
    forall u ensures NodesUnder(L, Reach(n), u) <==> forall s {:trigger Den(L, n, s)} :: OptUnder(L, Den(L, n, s), u) {
      RegionsUnder(L, n, u);
    }
    assert JoinsMeaning(L, out, n);
    NoneIffEmpty(L, out, n);
  }

  lemma NoneIffEmpty<S(!new), W(!new)>(L: Lattice<W>, out: Option<W>, n: WNode<S, W>)
    requires WWf(n) && JoinsMeaning(L, out, n)
    ensures out.None? <==> n.paths == 0
  {
    hide WNormal, WDetermined, WHas, Den;
    WEmptyIff(n);
    assert OptUnder(L, out, None) <==> forall s {:trigger Den(L, n, s)} :: OptUnder(L, Den(L, n, s), None);
    if n.paths > 0 {
      var s :| WHas(n, s);
      DenSome(L, n, s);
    } else {
      forall s ensures Den(L, n, s).None? {
        DenSome(L, n, s);
      }
    }
  }

  lemma RegionsUnder<S(!new), W(!new)>(L: Lattice<W>, n: WNode<S, W>, u: Option<W>)
    requires Laws(L) && WWf(n)
    ensures NodesUnder(L, Reach(n), u) <==> forall s {:trigger Den(L, n, s)} :: OptUnder(L, Den(L, n, s), u)
  {
    hide WNormal, WDetermined, PathWeights, Den, Reach, Below;
    if NodesUnder(L, Reach(n), u) {
      forall s ensures OptUnder(L, Den(L, n, s), u) {
        DenBounds(L, n, s);
        BelowPaths(L, n, s, u);
        forall w | w in PathWeights(n, s) ensures Under(L, w, u) {
          var m := PathWeightStored(n, s, w);
          assert AllUnder(L, OwnWeights(m), u);
        }
      }
    }
    if forall s {:trigger Den(L, n, s)} :: OptUnder(L, Den(L, n, s), u) {
      forall m, w | m in Reach(n) && w in OwnWeights(m) ensures Under(L, w, u) {
        var s := StoredOnPath(n, m, w);
        DenBounds(L, n, s);
        BelowPaths(L, n, s, u);
        assert OptUnder(L, Den(L, n, s), u);
      }
    }
  }
}
