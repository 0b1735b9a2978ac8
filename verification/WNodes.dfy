/** Weighted nodes: their shape, the weights their paths carry, and their invariants. */
module WNodes {
  import opened Weights
  import opened Segments
  import opened Counting
  import opened Tables
  import opened UNodes

  /** A reference to an immutable weighted node: the address it lives at and what is there. */
  datatype WNode<S(==), W(==)> =
    | WBranch(addr: nat, empty: seq<W>, children: map<S, Alts<WNode<S, W>>>, paths: nat, maxDepth: nat)
    | WSegment(addr: nat, values: Segment<S>, next: WNode<S, W>, paths: nat, maxDepth: nat)
    | WShared(addr: nat, weight: W, stacks: UNode<S>, paths: nat, maxDepth: nat)

  type WChildren<S, W> = map<S, Alts<WNode<S, W>>>

  predicate WIsEmpty<S(==), W>(n: WNode<S, W>) {
    n.paths == 0
  }

  // ----- meaning

  /** Some path of `n` spells `s`. */
  ghost predicate WHas<S(!new), W(!new)>(n: WNode<S, W>, s: seq<S>)
    decreases n
  {
    match n
    case WBranch(_, empty, children, _, _) =>
      if s == [] then empty != []
      else exists c :: c in AltsAt(children, s[0]) && WHas(c, s[1..])
    case WSegment(_, values, next, _, _) =>
      values.View() <= s && WHas(next, s[|values.View()|..])
    case WShared(_, _, stacks, _, _) => UHas(stacks, s)
  }

  /** Every path of `n` that spells `s` carries a weight bounded by `u`. */
  ghost predicate Below<S(!new), W(!new)>(L: Lattice<W>, n: WNode<S, W>, s: seq<S>, u: Option<W>)
    decreases n
  {
    match n
    case WBranch(_, empty, children, _, _) =>
      if s == [] then forall w :: w in empty ==> Under(L, w, u)
      else forall c :: c in AltsAt(children, s[0]) ==> Below(L, c, s[1..], u)
    case WSegment(_, values, next, _, _) =>
      values.View() <= s ==> Below(L, next, s[|values.View()|..], u)
    case WShared(_, weight, stacks, _, _) =>
      UHas(stacks, s) ==> Under(L, weight, u)
  }

  /** The same for every stack of the form `p + s` with `p` of the given length. */
  ghost predicate BelowPop<S(!new), W(!new)>(L: Lattice<W>, n: WNode<S, W>, count: nat, s: seq<S>, u: Option<W>) {
    forall p {:trigger p + s} :: |p| == count ==> Below(L, n, p + s, u)
  }

  /** `r` means the pointwise join of `a` and `b`. */
  ghost predicate IsJoin<S(!new), W(!new)>(L: Lattice<W>, r: WNode<S, W>, a: WNode<S, W>, b: WNode<S, W>) {
    forall s, u :: Below(L, r, s, u) <==> Below(L, a, s, u) && Below(L, b, s, u)
  }

  /** `a` and `b` mean the same. */
  ghost predicate SameMeaning<S(!new), W(!new)>(L: Lattice<W>, a: WNode<S, W>, b: WNode<S, W>) {
    forall s, u :: Below(L, a, s, u) <==> Below(L, b, s, u)
  }

  /** `r` is `next` under the run `v`. */
  ghost predicate IsPrefixed<S(!new), W(!new)>(L: Lattice<W>, r: WNode<S, W>, v: seq<S>, next: WNode<S, W>) {
    forall s, u :: Below(L, r, s, u) <==> (v <= s ==> Below(L, next, s[|v|..], u))
  }

  /** `r` is `n` with `count` symbols taken off every stack, weights of collisions joined. */
  ghost predicate WIsPop<S(!new), W(!new)>(L: Lattice<W>, r: WNode<S, W>, n: WNode<S, W>, count: nat) {
    forall s, u :: Below(L, r, s, u) <==> BelowPop(L, n, count, s, u)
  }

  /** The bound `None` is met exactly where there is no path. */
  lemma {:induction false} BelowNone<S(!new), W(!new)>(L: Lattice<W>, n: WNode<S, W>, s: seq<S>)
    ensures Below(L, n, s, None) <==> !WHas(n, s)
    decreases n
  {
    match n
    case WBranch(_, empty, children, _, _) =>
      if s == [] {
        assert empty != [] ==> empty[0] in empty;
      } else {
        forall c | c in AltsAt(children, s[0]) ensures Below(L, c, s[1..], None) <==> !WHas(c, s[1..]) {
          BelowNone(L, c, s[1..]);
        }
      }
    case WSegment(_, values, next, _, _) =>
      if values.View() <= s {
        BelowNone(L, next, s[|values.View()|..]);
      }
    case WShared(_, _, _, _, _) =>
  }

  // ----- counters

  ghost function WDepth<S(!new), W(!new)>(n: WNode<S, W>): int
    decreases n
  {
    match n
    case WBranch(_, empty, children, _, _) =>
      MaxOf({if empty != [] then 0 else -1}
            + set t, c | t in children && c in AltsAt(children, t) :: 1 + WDepth(c))
    case WSegment(_, values, next, _, _) => |values.View()| + WDepth(next)
    case WShared(_, _, stacks, _, _) => UDepth(stacks)
  }

  ghost function WCount<S(!new), W(!new)>(n: WNode<S, W>): nat
    decreases n, 1
  {
    match n
    case WBranch(_, empty, children, _, _) => |empty| + Sum(WCounts(n))
    case WSegment(_, _, next, _, _) => WCount(next)
    case WShared(_, _, stacks, _, _) => UCount(stacks)
  }

  ghost function WCounts<S(!new), W(!new)>(n: WNode<S, W>): map<S, nat>
    requires n.WBranch?
    decreases n, 0
  {
    map t | t in n.children :: WCountAll(n.children[t].nodes)
  }

  ghost function WCountAll<S(!new), W(!new)>(q: seq<WNode<S, W>>): nat
    decreases q, 0
  {
    if q == [] then 0 else WCount(q[0]) + WCountAll(q[1..])
  }

  ghost predicate WCached<S(!new), W(!new)>(n: WNode<S, W>) {
    && n.paths == Min(WCount(n), MAX)
    && n.maxDepth == Min(Max(WDepth(n), 0), MAX)
  }

  /** The normal form: runs of segments are fused, nothing is dead, lists fit the machine, and
      the cached counters are exact up to its bound. */
  ghost predicate WNormal<S(!new), W(!new)>(n: WNode<S, W>)
    decreases n
  {
    && WCached(n)
    && match n
       case WBranch(_, empty, children, _, _) =>
         && |empty| <= MAX
         && (forall t :: t in children ==> children[t].nodes != [])
         && (forall t, c {:trigger c in AltsAt(children, t)} ::
               c in AltsAt(children, t) ==> WNormal(c) && c.paths > 0)
       case WSegment(_, values, next, _, _) =>
         values.View() != [] && WNormal(next) && next.paths > 0 && !next.WSegment?
       case WShared(_, _, stacks, _, _) => UWf(stacks) && stacks.paths > 0
  }

  /** Determinism: at most one weight for the empty stack and one alternative per symbol. */
  ghost predicate WDetermined<S(!new), W(!new)>(n: WNode<S, W>)
    decreases n
  {
    match n
    case WBranch(_, empty, children, _, _) =>
      && |empty| <= 1
      && (forall t :: t in children ==> |children[t].nodes| <= 1)
      && (forall t, c {:trigger c in AltsAt(children, t)} :: c in AltsAt(children, t) ==> WDetermined(c))
    case WSegment(_, _, next, _, _) => WDetermined(next)
    case WShared(_, _, _, _, _) => true
  }

  /** What every operation requires of weighted nodes and gives back. */
  ghost predicate WWf<S(!new), W(!new)>(n: WNode<S, W>) {
    WNormal(n) && WDetermined(n)
  }

  lemma NormalCached<S(!new), W(!new)>(n: WNode<S, W>)
    requires WNormal(n)
    ensures WCached(n)
  {
  }

  lemma WDepthChild<S(!new), W(!new)>(n: WNode<S, W>, t: S, c: WNode<S, W>)
    requires n.WBranch? && c in AltsAt(n.children, t)
    ensures WDepth(c) < WDepth(n)
  {
    var ds := set t, c | t in n.children && c in AltsAt(n.children, t) :: 1 + WDepth(c);
    assert 1 + WDepth(c) in ds;
  }

  lemma {:induction false} WCountAllPositive<S(!new), W(!new)>(q: seq<WNode<S, W>>, c: WNode<S, W>)
    requires c in q
    ensures WCountAll(q) >= WCount(c)
  {
    if q[0] != c {
      WCountAllPositive(q[1..], c);
    }
  }

  lemma WCountChild<S(!new), W(!new)>(n: WNode<S, W>, t: S, c: WNode<S, W>)
    requires n.WBranch? && c in AltsAt(n.children, t)
    ensures WCount(n) >= WCount(c) + |n.empty|
  {
    SumRemove(WCounts(n), t);
    WCountAllPositive(n.children[t].nodes, c);
  }

  /** No represented stack is longer than the depth, and each is counted. */
  lemma {:induction false} WWordBounds<S(!new), W(!new)>(n: WNode<S, W>, s: seq<S>)
    requires WHas(n, s)
    ensures |s| <= WDepth(n) && 1 <= WCount(n)
    decreases n
  {
    match n
    case WBranch(_, empty, children, _, _) =>
      if s != [] {
        var c :| c in AltsAt(children, s[0]) && WHas(c, s[1..]);
        WWordBounds(c, s[1..]);
        WDepthChild(n, s[0], c);
        WCountChild(n, s[0], c);
      }
    case WSegment(_, values, next, _, _) =>
      WWordBounds(next, s[|values.View()|..]);
    case WShared(_, _, stacks, _, _) =>
      UWordBounds(stacks, s);
  }

  /** A normal node that is not empty really has a stack as long as its depth. */
  lemma {:induction false} WLongest<S(!new), W(!new)>(n: WNode<S, W>) returns (s: seq<S>)
    requires WNormal(n) && n.paths > 0
    ensures WHas(n, s) && |s| == WDepth(n)
    decreases n
  {
    match n
    case WBranch(_, empty, children, _, _) =>
      s := WLongestBranch(n);
    case WSegment(_, values, next, _, _) =>
      var rest := WLongest(next);
      s := values.View() + rest;
      assert s[|values.View()|..] == rest;
    case WShared(_, _, stacks, _, _) =>
      s := ULongest(stacks);
  }

  lemma {:induction false} WLongestBranch<S(!new), W(!new)>(n: WNode<S, W>) returns (s: seq<S>)
    requires WNormal(n) && n.WBranch? && n.paths > 0
    ensures WHas(n, s) && |s| == WDepth(n)
    decreases n, 0
  {
    var ds := set t, c | t in n.children && c in AltsAt(n.children, t) :: 1 + WDepth(c);
    if WDepth(n) in ds {
      var t, c :| c in AltsAt(n.children, t) && WDepth(n) == 1 + WDepth(c);
      var rest := WLongest(c);
      s := [t] + rest;
      assert s[1..] == rest;
    } else if n.empty != [] {
      s := [];
    } else {
      if t :| t in n.children {
        var c := n.children[t].nodes[0];
        assert c in AltsAt(n.children, t);
        WDepthChild(n, t, c);
        var rest := WLongest(c);
      } else {
        assert WCounts(n) == map[];
      }
      assert false;
    }
  }

  lemma WZero<S(!new), W(!new)>(n: WNode<S, W>)
    requires WNormal(n) && n.paths == 0
    ensures n.WBranch? && n.empty == [] && n.children == map[]
  {
    if n.WBranch? {
      if t :| t in n.children {
        var c := n.children[t].nodes[0];
        assert c in AltsAt(n.children, t);
        WCountChild(n, t, c);
      }
    }
  }

  lemma WDepthLeaf<S(!new), W(!new)>(n: WNode<S, W>)
    requires n.WBranch? && n.children == map[]
    ensures WDepth(n) == if n.empty != [] then 0 else -1
    ensures WCount(n) == |n.empty|
  {
    assert WCounts(n) == map[];
  }

  /** The empty test is exact, and the depth is -1 just for the empty collection. */
  lemma WEmptyIff<S(!new), W(!new)>(n: WNode<S, W>)
    requires WNormal(n)
    ensures n.paths == 0 ==> forall s :: !WHas(n, s)
    ensures n.paths > 0 ==> exists s :: WHas(n, s)
    ensures n.paths == 0 <==> WDepth(n) == -1
    ensures WDepth(n) >= -1
  {
    hide WNormal, WDetermined;
    if n.paths > 0 {
      var s := WLongest(n);
      assert WHas(n, s);
    } else {
      WZero(n);
      WDepthLeaf(n);
      assert forall s :: !WHas(n, s);
    }
  }
}
