/** Which weighted nodes are alive. An allocator may place a new node at any address that no
    live node occupies, whatever lived there before. */
module Live {
  import opened Tables
  import opened WNodes

  ghost predicate IsKid<S(!new), W(!new)>(c: WNode<S, W>, n: WNode<S, W>) {
    match n
    case WBranch(_, _, children, _, _) => exists t :: c in AltsAt(children, t)
    case WSegment(_, _, next, _, _) => c == next
    case WShared(_, _, _, _, _) => false
  }

  /** `n` and everything it keeps alive. */
  function Reach<S(!new), W(!new)>(n: WNode<S, W>): set<WNode<S, W>>
    decreases n
  {
    match n
    case WBranch(_, _, children, _, _) =>
      {n} + set t, c, m | t in children && c in children[t].nodes && m in Reach(c) :: m
    case WSegment(_, _, next, _, _) => {n} + Reach(next)
    case WShared(_, _, _, _, _) => {n}
  }

  function ReachAll<S(!new), W(!new)>(q: seq<WNode<S, W>>): set<WNode<S, W>> {
    set v, m | v in q && m in Reach(v) :: m
  }

  /** Live nodes keep their children alive. */
  ghost predicate Closed<S(!new), W(!new)>(h: set<WNode<S, W>>) {
    forall n, c {:trigger IsKid(c, n)} :: n in h && IsKid(c, n) ==> c in h
  }

  /** No two live nodes share an address. */
  ghost predicate Coherent<S(!new), W(!new)>(h: set<WNode<S, W>>) {
    forall a, b :: a in h && b in h && a.addr == b.addr ==> a == b
  }

  ghost predicate Heap<S(!new), W(!new)>(h: set<WNode<S, W>>) {
    Closed(h) && Coherent(h)
  }

  // ----- reachability

  lemma ReachSelf<S(!new), W(!new)>(n: WNode<S, W>)
    ensures n in Reach(n)
  {
  }

  /** Anything below a branch is below one of its alternatives. */
  lemma ReachVia<S(!new), W(!new)>(n: WNode<S, W>, m: WNode<S, W>) returns (c: WNode<S, W>)
    requires n.WBranch? && m in Reach(n) && m != n
    ensures IsKid(c, n) && m in Reach(c) && Reach(c) <= Reach(n)
    ensures n decreases to c
  {
    var t, k :| t in n.children && k in n.children[t].nodes && m in Reach(k);
    assert k in AltsAt(n.children, t);
    c := k;
  }

  lemma {:induction false} ReachClosed<S(!new), W(!new)>(n: WNode<S, W>)
    ensures Closed(Reach(n))
    decreases n
  {
    match n
    case WBranch(_, _, children, _, _) =>
      forall m, c | m in Reach(n) && IsKid(c, m) ensures c in Reach(n) {
        if m == n {
          var t :| c in AltsAt(children, t);
          assert c in Reach(c);
        } else {
          var k := ReachVia(n, m);
          ReachClosed(k);
          assert c in Reach(k);
        }
      }
    case WSegment(_, _, next, _, _) =>
      ReachClosed(next);
      assert next in Reach(next);
    case WShared(_, _, _, _, _) =>
  }

  /** `Reach` is the least closed set around its root. */
  lemma {:induction false} ReachWithin<S(!new), W(!new)>(n: WNode<S, W>, h: set<WNode<S, W>>)
    requires n in h && Closed(h)
    ensures Reach(n) <= h
    decreases n
  {
    match n
    case WBranch(_, _, children, _, _) =>
      forall m | m in Reach(n) ensures m in h {
        if m != n {
          var c := ReachVia(n, m);
          ReachWithin(c, h);
        }
      }
    case WSegment(_, _, next, _, _) =>
      assert IsKid(next, n);
      ReachWithin(next, h);
    case WShared(_, _, _, _, _) =>
  }

  lemma ReachAllClosed<S(!new), W(!new)>(q: seq<WNode<S, W>>)
    ensures Closed(ReachAll(q))
    ensures forall v :: v in q ==> v in ReachAll(q)
  {
    forall v | v in q ensures v in ReachAll(q) {
      ReachSelf(v);
    }
    forall m, c | m in ReachAll(q) && IsKid(c, m) ensures c in ReachAll(q) {
      var v :| v in q && m in Reach(v);
      ReachClosed(v);
      assert c in Reach(v);
    }
  }

  lemma ReachAllWithin<S(!new), W(!new)>(q: seq<WNode<S, W>>, h: set<WNode<S, W>>)
    requires Closed(h) && forall v :: v in q ==> v in h
    ensures ReachAll(q) <= h
  {
    forall m | m in ReachAll(q) ensures m in h {
      var v :| v in q && m in Reach(v);
      ReachWithin(v, h);
    }
  }

  /** Dropping nodes from a heap, children included, leaves a heap. */
  lemma HeapSub<S(!new), W(!new)>(h: set<WNode<S, W>>, part: set<WNode<S, W>>)
    requires Heap(h) && part <= h && Closed(part)
    ensures Heap(part)
  {
  }

  // ----- allocation

  predicate Free<S(!new), W(!new)>(held: set<WNode<S, W>>, a: nat) {
    forall n :: n in held ==> n.addr != a
  }

  /** Any address free of live nodes may be handed out. */
  method NewAddr<S(!new), W(!new)>(held: set<WNode<S, W>>) returns (a: nat)
    ensures Free(held, a)
  {
    FreeAddr(held);
    a :| Free(held, a);
  }

  lemma FreeAddr<S(!new), W(!new)>(held: set<WNode<S, W>>)
    ensures exists a: nat :: Free(held, a)
  {
    var a := AboveAll(held);
    assert Free(held, a);
  }

  lemma AboveAll<S(!new), W(!new)>(held: set<WNode<S, W>>) returns (a: nat)
    ensures forall n :: n in held ==> n.addr < a
  {
    if held == {} {
      a := 0;
    } else {
      var m :| m in held;
      a := AboveAll(held - {m});
      a := if a <= m.addr then m.addr + 1 else a;
    }
  }

  /** A node at a free address, over live children, extends the heap by itself alone. */
  lemma HeapGrows<S(!new), W(!new)>(held: set<WNode<S, W>>, x: WNode<S, W>)
    requires Heap(held)
    requires Free(held, x.addr)
    requires forall c :: IsKid(c, x) ==> c in held
    ensures Heap(held + Reach(x)) && held + Reach(x) == held + {x}
  {
    ReachSelf(x);
    assert Closed(held + {x}) by {
      forall n, c | n in held + {x} && IsKid(c, n) ensures c in held + {x} {
      }
    }
    ReachWithin(x, held + {x});
  }
}
