/** The weight iterator: an explicit stack of nodes still to visit, and recursive fast paths for
    whole runs of it. */
module WeightIters {
  import opened Weights
  import opened Tables
  import opened WNodes
  import opened Live
  import opened Regions
  import opened WeightRegions

  /** One recursive visit of every distinct node, collecting what it visits. */
  class VisitWalk<S(==, !new), W(==, !new)> {
    const seen: NodeSeen
    var out: seq<W>
    ghost var visited: set<WNode<S, W>>

    ghost predicate Valid(h: set<WNode<S, W>>)
      reads this, seen
    {
      Heap(h) && visited <= h && seen.Valid() && seen.Ids() == Addrs(visited) && multiset(out) == Total(visited)
    }

    constructor (ghost h: set<WNode<S, W>>)
      requires Heap(h)
      ensures Valid(h) && visited == {} && fresh(seen)
    {
      seen := new NodeSeen();
      out := [];
      visited := {};
    }

    method Walk(n: WNode<S, W>, ghost h: set<WNode<S, W>>)
      requires Valid(h) && n in h
      modifies this, seen
      ensures Valid(h) && Walked(n, old(visited), visited)
      decreases n
    {
      ghost var before := visited;
      SeenAddr(h, visited, n);
      var added := seen.Insert(n.addr);
      if !added {
        return;
      }
      Collect(n);
      hide Total;
      match n
      case WShared(_, _, _, _, _) =>
        WalkShared(n, before);
      case WSegment(_, _, next, _, _) =>
        assert IsKid(next, n);
        Walk(next, h);
        WalkSegment(n, before, visited);
      case WBranch(_, _, children, _, _) =>
        WalkAlternatives(n, h, before);
    }

    method Collect(n: WNode<S, W>)
      requires n !in visited && multiset(out) == Total(visited)
      modifies this
      ensures visited == old(visited) + {n} && multiset(out) == Total(visited)
    {
      TotalAdd(visited, n);
      visited := visited + {n};
      out := out + OwnWeights(n);
    }

    method WalkAlternatives(n: WNode<S, W>, ghost h: set<WNode<S, W>>, ghost before: set<WNode<S, W>>)
      requires Valid(h) && n in h && n.WBranch? && visited == before + {n} && n !in before
      modifies this, seen
      ensures Valid(h) && Walked(n, before, visited)
      decreases n, 0
    {
      hide Total;
      ReachSelf(n);
      var flat := Flatten(n.children);
      for i := 0 to |flat|
        invariant Valid(h) && WalkedKids(n, flat, i, before, visited)
      {
        assert flat[i] in flat;
        ghost var t :| flat[i] in AltsAt(n.children, t);
        assert IsKid(flat[i], n);
        ghost var mid := visited;
        Walk(flat[i], h);
        WalkStep(n, flat, i, before, mid, visited);
      }
      WalkBranch(n, flat, before, visited);
    }
  }

  /** Visit each stored weight of each distinct reachable node once. */
  method VisitWeights<S(!new), W(!new)>(n: WNode<S, W>) returns (out: seq<W>)
    requires Heap(Reach(n))
    ensures multiset(out) == Total(Reach(n)) && EachPlaceOnce(multiset(out), Reach(n))
  {
    hide EachPlaceOnce;
    TotalOnce(Reach(n));
    ReachSelf(n);
    var walk := new VisitWalk<S, W>(Reach(n));
    walk.Walk(n, Reach(n));
    WalkedAll(n, walk.visited);
    out := walk.out;
  }

  ghost predicate NodesSatisfy<S(!new), W(!new)>(nodes: set<WNode<S, W>>, p: W -> bool) {
    forall m, w {:trigger w in OwnWeights(m)} :: m in nodes && w in OwnWeights(m) ==> p(w)
  }

  /** One recursive test of every distinct node, stopping at the first failure. */
  class AllWalk<S(==, !new), W(==, !new)> {
    const seen: NodeSeen
    ghost var visited: set<WNode<S, W>>

    ghost predicate Valid(h: set<WNode<S, W>>)
      reads this, seen
    {
      Heap(h) && visited <= h && seen.Valid() && seen.Ids() == Addrs(visited)
    }

    constructor (ghost h: set<WNode<S, W>>)
      requires Heap(h)
      ensures Valid(h) && visited == {} && fresh(seen)
    {
      seen := new NodeSeen();
      visited := {};
    }

    method Walk(n: WNode<S, W>, p: W -> bool, ghost h: set<WNode<S, W>>) returns (ok: bool)
      requires Valid(h) && n in h && NodesSatisfy(visited, p)
      modifies this, seen
      ensures ok ==> Valid(h) && Walked(n, old(visited), visited) && NodesSatisfy(visited, p)
      ensures !ok ==> !NodesSatisfy(Reach(n), p)
      decreases n
    {
      ghost var before := visited;
      ReachSelf(n);
      SeenAddr(h, visited, n);
      var added := seen.Insert(n.addr);
      if !added {
        return true;
      }
      visited := visited + {n};
      match n
      case WShared(_, weight, _, _, _) =>
        assert weight in OwnWeights(n);
        WalkShared(n, before);
        ok := p(weight);
      case WSegment(_, _, next, _, _) =>
        assert IsKid(next, n);
        KidReach(n, next);
        ok := Walk(next, p, h);
        if ok {
          WalkSegment(n, before, visited);
        }
      case WBranch(_, empty, children, _, _) =>
        ok := AllHold(empty, p);
        if ok {
          ok := WalkAlternatives(n, p, h, before);
        } else {
          var w :| w in empty && !p(w);
          assert w in OwnWeights(n);
        }
    }

    method WalkAlternatives(n: WNode<S, W>, p: W -> bool, ghost h: set<WNode<S, W>>, ghost before: set<WNode<S, W>>)
      returns (ok: bool)
      requires Valid(h) && n in h && n.WBranch? && visited == before + {n} && n !in before && NodesSatisfy(visited, p)
      modifies this, seen
      ensures ok ==> Valid(h) && Walked(n, before, visited) && NodesSatisfy(visited, p)
      ensures !ok ==> !NodesSatisfy(Reach(n), p)
      decreases n, 0
    {
      ReachSelf(n);
      var flat := Flatten(n.children);
      for i := 0 to |flat|
        invariant Valid(h) && WalkedKids(n, flat, i, before, visited) && NodesSatisfy(visited, p)
      {
        assert flat[i] in flat;
        ghost var t :| flat[i] in AltsAt(n.children, t);
        assert IsKid(flat[i], n);
        KidReach(n, flat[i]);
        ghost var mid := visited;
        ok := Walk(flat[i], p, h);
        if !ok {
          return;
        }
        WalkStep(n, flat, i, before, mid, visited);
      }
      WalkBranch(n, flat, before, visited);
      ok := true;
    }
  }

  method AllHold<W(==)>(ws: seq<W>, p: W -> bool) returns (ok: bool)
    ensures ok <==> forall w :: w in ws ==> p(w)
  {
    for i := 0 to |ws|
      invariant forall w :: w in ws[..i] ==> p(w)
    {
      if !p(ws[i]) {
        return false;
      }
    }
    ok := true;
  }

  method AllWeightsSatisfy<S(!new), W(!new)>(n: WNode<S, W>, p: W -> bool) returns (ok: bool)
    requires Heap(Reach(n))
    ensures ok <==> forall w :: w in Total(Reach(n)) ==> p(w)
  {
    ReachSelf(n);
    var walk := new AllWalk<S, W>(Reach(n));
    ok := walk.Walk(n, p, Reach(n));
    if ok {
      WalkedAll(n, walk.visited);
    }
    SatisfyTotal(Reach(n), p);
  }

  lemma SatisfyTotal<S(!new), W(!new)>(nodes: set<WNode<S, W>>, p: W -> bool)
    ensures NodesSatisfy(nodes, p) <==> forall w :: w in Total(nodes) ==> p(w)
  {
    forall w ensures w in Total(nodes) <==> exists n :: n in nodes && w in OwnWeights(n) {
      TotalHas(nodes, w);
    }
  }

  // ----- the iterator

  /** Everything a visited node leads to is visited or waiting. */
  ghost predicate Frontier<S(!new), W(!new)>(visited: set<WNode<S, W>>, nodes: seq<WNode<S, W>>) {
    forall m, c {:trigger IsKid(c, m)} :: m in visited && IsKid(c, m) ==> c in visited || c in nodes
  }

  /** With `visited` done and `nodes` waiting, `remaining` is the due weights and all unvisited ones. */
  ghost predicate Iterating<S(!new), W(!new)>(root: WNode<S, W>, visited: set<WNode<S, W>>, nodes: seq<WNode<S, W>>,
                                              due: seq<W>, remaining: multiset<W>) {
    && visited <= Reach(root) && (forall v :: v in nodes ==> v in Reach(root))
    && Frontier(visited, nodes) && (root in visited || root in nodes)
    && remaining == multiset(due) + Total(Reach(root) - visited)
  }

  lemma IterStart<S(!new), W(!new)>(root: WNode<S, W>)
    ensures Iterating(root, {}, [root], [], Total(Reach(root)))
  {
    ReachSelf(root);
    assert Reach(root) - {} == Reach(root);
  }

  /** An empty stack means everything has been visited. */
  lemma IterDone<S(!new), W(!new)>(root: WNode<S, W>, visited: set<WNode<S, W>>, due: seq<W>, remaining: multiset<W>)
    requires Iterating(root, visited, [], due, remaining)
    ensures remaining == multiset(due)
  {
    assert Closed(visited);
    ReachWithin(root, visited);
    assert Reach(root) - visited == {};
  }

  lemma IterTake<S(!new), W(!new)>(root: WNode<S, W>, visited: set<WNode<S, W>>, nodes: seq<WNode<S, W>>,
                                   due: seq<W>, remaining: multiset<W>)
    requires Iterating(root, visited, nodes, due, remaining) && due != []
    ensures due[0] in remaining
    ensures Iterating(root, visited, nodes, due[1..], remaining - multiset{due[0]})
  {
    hide Total, Reach, Frontier;
    assert due == [due[0]] + due[1..];
    assert multiset(due) == multiset{due[0]} + multiset(due[1..]);
  }

  lemma IterSkip<S(!new), W(!new)>(root: WNode<S, W>, visited: set<WNode<S, W>>, rest: seq<WNode<S, W>>, node: WNode<S, W>,
                                   remaining: multiset<W>)
    requires Iterating(root, visited, rest + [node], [], remaining) && node in visited
    ensures Iterating(root, visited, rest, [], remaining)
  {
    hide Total, Reach;
    forall m, c | m in visited && IsKid(c, m) ensures c in visited || c in rest {
      assert c in visited || c in rest + [node];
    }
    assert forall v :: v in rest ==> v in rest + [node];
  }

  /** First visit of a node: its own weights become due and its children wait. */
  lemma IterExpand<S(!new), W(!new)>(root: WNode<S, W>, visited: set<WNode<S, W>>, rest: seq<WNode<S, W>>, node: WNode<S, W>,
                                     kids: seq<WNode<S, W>>, remaining: multiset<W>)
    requires Iterating(root, visited, rest + [node], [], remaining) && node !in visited
    requires forall c :: c in kids <==> IsKid(c, node)
    ensures Iterating(root, visited + {node}, rest + kids, OwnWeights(node), remaining)
    ensures node in Reach(root)
    ensures |Reach(root) - (visited + {node})| < |Reach(root) - visited|
  {
    hide Reach, Total, Frontier;
    assert node in rest + [node];
    forall v | v in rest ensures v in Reach(root) {
      assert v in rest + [node];
    }
    FewerLeft(Reach(root), visited, node);
    DueNext(Reach(root), visited, node);
    ExpandFrontier(root, visited, rest, node, kids);
  }

  lemma DueNext<S(!new), W(!new)>(all: set<WNode<S, W>>, visited: set<WNode<S, W>>, node: WNode<S, W>)
    requires node in all && node !in visited
    ensures Total(all - visited) == multiset(OwnWeights(node)) + Total(all - (visited + {node}))
  {
    TotalRemove(all - visited, node);
    assert all - visited - {node} == all - (visited + {node});
  }

  /** Expanding a node keeps the frontier if its children are put on the stack. */
  lemma ExpandFrontier<S(!new), W(!new)>(root: WNode<S, W>, visited: set<WNode<S, W>>, rest: seq<WNode<S, W>>,
                                         node: WNode<S, W>, kids: seq<WNode<S, W>>)
    requires Frontier(visited, rest + [node])
    requires node in Reach(root) && forall v :: v in rest ==> v in Reach(root)
    requires forall c :: c in kids <==> IsKid(c, node)
    ensures Frontier(visited + {node}, rest + kids)
    ensures forall v :: v in rest + kids ==> v in Reach(root)
  {
    ReachClosed(root);
    hide Reach;
    forall m, c | m in visited + {node} && IsKid(c, m) ensures c in visited + {node} || c in rest + kids {
      if m != node {
        assert c in visited || c in rest + [node];
      }
    }
  }

  lemma FewerLeft<T>(all: set<T>, visited: set<T>, n: T)
    requires n in all && n !in visited
    ensures |all - (visited + {n})| < |all - visited|
  {
    assert all - visited == (all - (visited + {n})) + {n};
  }

  method Kids<S(!new), W(!new)>(n: WNode<S, W>) returns (kids: seq<WNode<S, W>>)
    ensures forall c :: c in kids <==> IsKid(c, n)
  {
    match n
    case WBranch(_, _, children, _, _) =>
      kids := Flatten(children);
    case WSegment(_, _, next, _, _) =>
      kids := [next];
    case WShared(_, _, _, _, _) =>
      kids := [];
  }

  /** One of the taken weights is `w`, which fails `p`; all the others satisfy it. */
  ghost predicate OnlyFailure<W(!new)>(taken: multiset<W>, p: W -> bool, w: W) {
    w in taken && !p(w) && forall v :: v in taken - multiset{w} ==> p(v)
  }

  class WeightIter<S(==, !new), W(==, !new)> {
    const root: WNode<S, W>
    const seen: NodeSeen
    var nodes: seq<WNode<S, W>>
    var emptyWeights: Option<seq<W>>
    var started: bool
    ghost var visited: set<WNode<S, W>>
    ghost var remaining: multiset<W>

    function Due(): seq<W>
      reads this
    {
      if emptyWeights.Some? then emptyWeights.value else []
    }

    ghost predicate Valid()
      reads this, seen
    {
      && Heap(Reach(root)) && seen.Valid()
      && if drained then started && nodes == [] && emptyWeights.None? && remaining == multiset{}
         else
           && seen.Ids() == Addrs(visited)
           && Iterating(root, visited, nodes, Due(), remaining)
           && (!started ==> remaining == Total(Reach(root)))
    }

    /** Used up by a whole-run shortcut. */
    ghost var drained: bool

    constructor (n: WNode<S, W>)
      requires Heap(Reach(n))
      ensures Valid() && root == n && !started && fresh(seen)
      ensures remaining == Total(Reach(n)) && EachPlaceOnce(remaining, Reach(n))
    {
      TotalOnce(Reach(n));
      IterStart(n);
      root := n;
      seen := new NodeSeen();
      nodes := [n];
      emptyWeights := None;
      started := false;
      visited := {};
      drained := false;
      remaining := Total(Reach(n));
    }

    /** Yields some remaining weight, or nothing when none remains. */
    method Next() returns (r: Option<W>)
      requires Valid()
      modifies this, seen
      ensures Valid() && started
      ensures r.None? ==> old(remaining) == remaining == multiset{}
      ensures r.Some? ==> r.value in old(remaining) && remaining == old(remaining) - multiset{r.value}
    {
      hide Total, Iterating, Heap, Reach, Addrs;
      started := true;
      while true
        invariant Valid() && started && remaining == old(remaining)
        decreases |Reach(root) - visited|, |nodes|, if emptyWeights.Some? then 1 else 0
      {
        if emptyWeights.Some? {
          if emptyWeights.value != [] {
            IterTake(root, visited, nodes, emptyWeights.value, remaining);
            r := Some(emptyWeights.value[0]);
            emptyWeights := Some(emptyWeights.value[1..]);
            remaining := remaining - multiset{r.value};
            return;
          }
          emptyWeights := None;
        }
        if nodes == [] {
          if !drained {
            IterDone(root, visited, [], remaining);
          }
          return None;
        }
        r := Step();
        if r.Some? {
          return;
        }
      }
    }

    /** Take one node off the stack: skip it if seen, otherwise expand it. */
    method Step() returns (r: Option<W>)
      requires Valid() && started && emptyWeights.None? && nodes != []
      modifies this`nodes, this`emptyWeights, this`visited, this`remaining, seen
      ensures Valid()
      ensures r.Some? ==> r.value in old(remaining) && remaining == old(remaining) - multiset{r.value}
      ensures r.None? ==>
        && remaining == old(remaining)
        && ((visited == old(visited) && |nodes| < |old(nodes)|)
            || |Reach(root) - visited| < |Reach(root) - old(visited)|)
    {
      hide Total, Iterating, Heap, Reach, Addrs;
      var node := nodes[|nodes| - 1];
      var rest := nodes[..|nodes| - 1];
      assert nodes == rest + [node];
      WaitingSeen(root, visited, rest, node, remaining);
      var added := seen.Insert(node.addr);
      if !added {
        IterSkip(root, visited, rest, node, remaining);
        nodes := rest;
        return None;
      }
      nodes := rest;
      r := Expand(node);
    }

    /** First visit: the node's own weights become due and its children go on the stack. */
    method Expand(node: WNode<S, W>) returns (r: Option<W>)
      requires Heap(Reach(root)) && seen.Valid() && !drained && started && emptyWeights.None? && node !in visited
      requires seen.Ids() == Addrs(visited + {node})
      requires Iterating(root, visited, nodes + [node], [], remaining)
      modifies this`nodes, this`emptyWeights, this`visited, this`remaining
      ensures Valid()
      ensures r.Some? ==> r.value in old(remaining) && remaining == old(remaining) - multiset{r.value}
      ensures r.None? ==> remaining == old(remaining)
      ensures |Reach(root) - visited| < |Reach(root) - old(visited)|
    {
      hide Total, Iterating, Heap, Reach, Addrs;
      var kids := Kids(node);
      IterExpand(root, visited, nodes, node, kids, remaining);
      nodes := nodes + kids;
      visited := visited + {node};
      match node
      case WShared(_, weight, _, _, _) =>
        IterTake(root, visited, nodes, [weight], remaining);
        assert [weight][1..] == [];
        remaining := remaining - multiset{weight};
        r := Some(weight);
      case WSegment(_, _, _, _, _) =>
        r := None;
      case WBranch(_, empty, _, _, _) =>
        emptyWeights := Some(empty);
        r := None;
    }

    /** Short-circuits; on a fresh iterator the recursive walk does all the work. Afterwards
        nothing is left of a fresh iterator, or of one whose weights all satisfy `p`; from a
        started one that fails, what is gone is one failing weight and satisfying ones. */
    method All(p: W -> bool) returns (ok: bool, ghost taken: multiset<W>)
      requires Valid()
      modifies this, seen
      ensures Valid() && started && old(remaining) == taken + remaining
      ensures ok <==> forall w :: w in old(remaining) ==> p(w)
      ensures !old(started) || ok ==> remaining == multiset{}
      ensures old(started) && !ok ==> exists w :: OnlyFailure(taken, p, w)
    {
      hide Total, Iterating, Heap, Reach, Addrs;
      taken := multiset{};
      if !started {
        taken := remaining;
        Drain();
        ok := AllWeightsSatisfy(root, p);
        return;
      }
      while true
        invariant Valid() && started && old(remaining) == taken + remaining
        invariant forall w :: w in taken ==> p(w)
        decreases |remaining|
      {
        var w := Next();
        if w.None? {
          return true, taken;
        }
        ghost var passed := taken;
        taken := taken + multiset{w.value};
        if !p(w.value) {
          assert taken - multiset{w.value} == passed && OnlyFailure(taken, p, w.value);
          return false, taken;
        }
      }
    }

    /** Visits everything that remains, on a fresh iterator every place once. */
    method ForEach() returns (out: seq<W>)
      requires Valid()
      modifies this, seen
      ensures Valid() && started && remaining == multiset{}
      ensures multiset(out) == old(remaining)
      ensures !old(started) ==> EachPlaceOnce(multiset(out), Reach(root))
    {
      hide Total, Iterating, Heap, Reach, Addrs, EachPlaceOnce;
      if !started {
        Drain();
        out := VisitWeights(root);
        return;
      }
      out := [];
      while true
        invariant Valid() && started && old(remaining) == multiset(out) + remaining
        decreases |remaining|
      {
        var w := Next();
        if w.None? {
          return;
        }
        out := out + [w.value];
      }
    }

    method Drain()
      requires Valid() && !started
      modifies this
      ensures Valid() && started && remaining == multiset{} && old(remaining) == Total(Reach(root))
    {
      hide Total, Reach, Heap, Iterating, Addrs;
      started := true;
      drained := true;
      nodes := [];
      emptyWeights := None;
      remaining := multiset{};
    }
  }

  lemma WaitingSeen<S(!new), W(!new)>(root: WNode<S, W>, visited: set<WNode<S, W>>, rest: seq<WNode<S, W>>, node: WNode<S, W>,
                                      remaining: multiset<W>)
    requires Heap(Reach(root)) && Iterating(root, visited, rest + [node], [], remaining)
    ensures node.addr in Addrs(visited) <==> node in visited
    ensures Addrs(visited + {node}) == Addrs(visited) + {node.addr}
  {
    assert node in rest + [node];
    SeenAddr(Reach(root), visited, node);
  }
}
