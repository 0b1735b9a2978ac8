/** Push, pop and selection by top on weighted nodes. */
module WOps {
  import opened Weights
  import opened Segments
  import opened Counting
  import opened Tables
  import opened UNodes
  import opened UOps
  import opened WNodes
  import opened Live
  import opened WBuild
  import opened WPops
  import opened WMerge

  /** `r` keeps just the stacks of `n` topped by `top`. */
  ghost predicate IsRetained<S(!new), W(!new)>(L: Lattice<W>, r: WNode<S, W>, n: WNode<S, W>, top: S) {
    forall s, u :: Below(L, r, s, u) <==> (s != [] && s[0] == top ==> Below(L, n, s, u))
  }

  /** `r` is what lies under `top` in `n`. */
  ghost predicate IsUnder<S(!new), W(!new)>(L: Lattice<W>, r: WNode<S, W>, n: WNode<S, W>, top: S) {
    forall s, u :: Below(L, r, s, u) <==> Below(L, n, [top] + s, u)
  }

  /** `r` keeps just the empty stack of `n`. */
  ghost predicate IsBottom<S(!new), W(!new)>(L: Lattice<W>, r: WNode<S, W>, n: WNode<S, W>) {
    forall s, u :: Below(L, r, s, u) <==> (s == [] ==> Below(L, n, s, u))
  }

  /** `t` is on top of some stack of `n`. */
  ghost predicate WTopOf<S(!new), W(!new)>(n: WNode<S, W>, t: S) {
    exists s :: WHas(n, s) && s != [] && s[0] == t
  }

  method WPush<S(!new), W(!new)>(ghost L: Lattice<W>, n: WNode<S, W>, x: S, held: set<WNode<S, W>>)
    returns (r: WNode<S, W>)
    requires Heap(held) && n in held && WWf(n)
    ensures WWf(r) && FitsIn(held, r) && IsPrefixed(L, r, [x], n)
  {
    if WIsEmpty(n) {
      r := n;
      FitsHeld(held, n);
      EmptyBelow(L, n);
      return;
    }
    if n.WShared? {
      UPushed(n.stacks, x);
      r := WSharedOf(L, n.weight, UPush(n.stacks, x), held);
      hide WNormal, WDetermined, UHas;
      assert forall s: seq<S> :: [x] <= s <==> s != [] && s[0] == x;
    } else {
      r := WSegmentOf(L, One(x), n, held);
    }
  }

  method WPop<S(!new), W(!new)>(L: Lattice<W>, n: WNode<S, W>, held: set<WNode<S, W>>) returns (r: WNode<S, W>)
    requires Laws(L) && Heap(held) && n in held && WWf(n)
    ensures WWf(r) && FitsIn(held, r) && WIsPop(L, r, n, 1)
  {
    WEmptyIff(n);
    match n
    case WShared(_, weight, stacks, _, _) =>
      var tail := UOps.UPop(stacks);
      r := WSharedOf(L, weight, tail, held);
      PopOfShared(L, n, tail, r, 1);
    case WSegment(_, _, _, _, _) =>
      r := WAfterPrefix(L, n, 1, held, Max(WDepth(n), 0));
    case WBranch(_, _, children, _, _) =>
      var flat := Flatten(children);
      FlatIn(L, n, flat, held);
      r := WMergeAll(L, flat, held, Max(WDepth(n), 0));
      MergedPops(L, n, 1, flat, r);
  }

  lemma FlatIn<S(!new), W(!new)>(L: Lattice<W>, n: WNode<S, W>, flat: seq<WNode<S, W>>, held: set<WNode<S, W>>)
    requires WWf(n) && n.WBranch? && Heap(held) && n in held
    requires forall v :: v in flat <==> exists t :: v in AltsAt(n.children, t)
    ensures AllIn(flat, Max(WDepth(n), 0)) && held + ReachAll(flat) == held
    ensures forall s, u :: AllBelow(L, flat, s, u) <==> BelowPop(L, n, 1, s, u)
  {
    forall i | 0 <= i < |flat| ensures WWf(flat[i]) && WDepth(flat[i]) <= Max(WDepth(n), 0) && flat[i] in held {
      WAlternative(n, flat, i, held);
    }
    ReachAllWithin(flat, held);
    FlatBelow(L, n, flat);
  }

  lemma FlatBelow<S(!new), W(!new)>(L: Lattice<W>, n: WNode<S, W>, flat: seq<WNode<S, W>>)
    requires n.WBranch?
    requires forall v :: v in flat <==> exists t :: v in AltsAt(n.children, t)
    ensures forall s, u :: AllBelow(L, flat, s, u) <==> BelowPop(L, n, 1, s, u)
  {
    forall j | 0 <= j < |flat| ensures WIsPop(L, flat[j], flat[j], 0) {
      WPopZero(L, flat[j]);
    }
    PoppedEach(L, n, flat, flat, 1);
  }

  // ----- looking at the root

  function WTops<S(==), W>(n: WNode<S, W>): set<S> {
    match n
    case WShared(_, _, stacks, _, _) => UTops(stacks)
    case WSegment(_, values, _, _, _) => if values.First().Some? then {values.First().value} else {}
    case WBranch(_, _, children, _, _) => children.Keys
  }

  predicate WHasEmpty<S(==), W>(n: WNode<S, W>) {
    match n
    case WShared(_, _, stacks, _, _) => UHasEmpty(stacks)
    case WSegment(_, _, _, _, _) => false
    case WBranch(_, empty, _, _, _) => empty != []
  }

  function WSingleExclusiveTop<S(==), W>(n: WNode<S, W>): Option<S> {
    match n
    case WShared(_, _, stacks, _, _) => USingleExclusiveTop(stacks)
    case WSegment(_, values, _, _, _) => values.First()
    case WBranch(_, empty, children, _, _) =>
      if empty != [] || |children| != 1 then None else Some(OnlyKey(children.Keys))
  }

  /** The tops at the root are exactly the tops of the represented stacks. */
  lemma WTopsExact<S(!new), W(!new)>(n: WNode<S, W>, t: S)
    requires WWf(n)
    ensures t in WTops(n) <==> WTopOf(n, t)
  {
    match n
    case WShared(_, _, stacks, _, _) =>
      UTopsExact(stacks, t);
      hide UHas;
      assert WTopOf(n, t) <==> UTopOf(stacks, t) by {
        if UTopOf(stacks, t) {
          var s :| UHas(stacks, s) && s != [] && s[0] == t;
          assert WHas(n, s);
        }
      }
    case WSegment(_, values, next, _, _) =>
      NormalCached(n);
      NormalCached(next);
      var s := WLongest(n);
      assert values.View() <= s;
    case WBranch(_, _, children, _, _) =>
      if t in children {
        var s := TopWord(n, t);
      }
  }

  /** Every symbol of a well-formed branch has a stack under it. */
  lemma TopWord<S(!new), W(!new)>(n: WNode<S, W>, t: S) returns (s: seq<S>)
    requires WWf(n) && n.WBranch? && t in n.children
    ensures WHas(n, s) && s != [] && s[0] == t
  {
    var c := n.children[t].nodes[0];
    assert c in AltsAt(n.children, t);
    var rest := WLongest(c);
    s := [t] + rest;
    assert s[1..] == rest;
  }

  lemma WHasEmptyExact<S(!new), W(!new)>(n: WNode<S, W>)
    requires WWf(n)
    ensures WHasEmpty(n) <==> WHas(n, [])
  {
  }

  /** A top is reported exactly when it is on every stack, and there is a stack. */
  lemma WSingleExclusiveTopExact<S(!new), W(!new)>(n: WNode<S, W>, t: S)
    requires WWf(n)
    ensures WSingleExclusiveTop(n) == Some(t)
       <==> n.paths > 0 && forall s :: WHas(n, s) ==> s != [] && s[0] == t
  {
    match n
    case WShared(_, _, stacks, _, _) =>
      USingleExclusiveTopExact(stacks, t);
      hide UHas;
      assert n.paths == stacks.paths;
      assert forall s :: WHas(n, s) <==> UHas(stacks, s);
    case WSegment(_, values, _, _, _) =>
      WEmptyIff(n);
      var s := WLongest(n);
      assert s[0] == values.View()[0];
    case WBranch(_, empty, children, _, _) =>
      TopOfBranch(n, t);
  }

  lemma TopOfBranch<S(!new), W(!new)>(n: WNode<S, W>, t: S)
    requires WWf(n) && n.WBranch?
    ensures WSingleExclusiveTop(n) == Some(t)
       <==> n.paths > 0 && forall s :: WHas(n, s) ==> s != [] && s[0] == t
  {
    if n.empty != [] {
      assert WHas(n, []);
    } else if n.children == map[] {
      WDepthLeaf(n);
    } else {
      BranchPaths(n);
      if |n.children| == 1 {
        OneElement(n.children.Keys);
        var k := OnlyKey(n.children.Keys);
        var s := TopWord(n, k);
        forall s | WHas(n, s) ensures s != [] && s[0] == k {
        }
      } else {
        var k := OtherKey(n.children.Keys, t);
        var s := TopWord(n, k);
      }
    }
  }

  lemma BranchPaths<S(!new), W(!new)>(n: WNode<S, W>)
    requires WWf(n) && n.WBranch? && n.children != map[]
    ensures n.paths > 0
  {
    var t :| t in n.children;
    var c := n.children[t].nodes[0];
    assert c in AltsAt(n.children, t);
    NormalCached(n);
    NormalCached(c);
    WCountChild(n, t, c);
  }

  lemma OtherKey<S>(keys: set<S>, t: S) returns (k: S)
    requires |keys| >= 2
    ensures k in keys && k != t
  {
    assert |keys - {t}| > 0;
    k :| k in keys - {t};
  }

  // ----- selection

  method WRetainTop<S(!new), W(!new)>(ghost L: Lattice<W>, n: WNode<S, W>, top: S, held: set<WNode<S, W>>)
    returns (r: WNode<S, W>)
    requires Heap(held) && n in held && WWf(n)
    ensures WWf(r) && FitsIn(held, r) && IsRetained(L, r, n, top)
  {
    match n
    case WShared(_, weight, stacks, _, _) =>
      var kept := URetainTop(stacks, top);
      r := WSharedOf(L, weight, kept, held);
      hide UWf, WNormal, WDetermined, UHas;
    case WSegment(_, values, _, _, _) =>
      if values.First() == Some(top) {
        r := n;
        FitsHeld(held, n);
        assert forall s: seq<S> :: values.View() <= s ==> s != [] && s[0] == top;
      } else {
        r := WEmpty(held);
        EmptyBelow(L, r);
        assert forall s: seq<S> :: values.View() <= s ==> s != [] && s[0] != top;
      }
    case WBranch(_, _, children, _, _) =>
      var kept: WChildren<S, W> := map[];
      if top in children {
        kept := kept[top := children[top]];
      }
      KeptHeld(n, kept, top, held);
      r := WBranchOf([], kept, held);
      RetainedBranch(L, n, r, kept, top, held);
  }

  lemma KeptHeld<S(!new), W(!new)>(n: WNode<S, W>, kept: WChildren<S, W>, top: S, held: set<WNode<S, W>>)
    requires WWf(n) && n.WBranch? && Closed(held) && n in held
    requires kept == if top in n.children then map[top := n.children[top]] else map[]
    ensures KidsHeld(kept, held) && Deterministic([], kept)
  {
    forall t, c | c in AltsAt(kept, t) ensures c in held && WWf(c) {
      assert c in AltsAt(n.children, t);
      assert IsKid(c, n);
    }
    forall t ensures |AltsAt(kept, t)| <= 1 {
    }
  }

  lemma RetainedBranch<S(!new), W(!new)>(L: Lattice<W>, n: WNode<S, W>, r: WNode<S, W>, kept: WChildren<S, W>, top: S,
                                         held: set<WNode<S, W>>)
    requires n.WBranch? && KidsHeld(kept, held) && IsBranchOf(r, [], kept)
    requires kept == if top in n.children then map[top := n.children[top]] else map[]
    ensures IsRetained(L, r, n, top)
  {
    hide WNormal, WDetermined;
    assert AltsAt(kept, top) == AltsAt(n.children, top);
    forall s, u ensures Below(L, r, s, u) <==> (s != [] && s[0] == top ==> Below(L, n, s, u)) {
      if s != [] {
        LiveAlternatives(L, r, [], kept, held, s, u);
        assert s[0] != top ==> AltsAt(kept, s[0]) == [];
      }
    }
  }

  method WPopTop<S(!new), W(!new)>(L: Lattice<W>, n: WNode<S, W>, top: S, held: set<WNode<S, W>>)
    returns (r: WNode<S, W>)
    requires Laws(L) && Heap(held) && n in held && WWf(n)
    ensures WWf(r) && FitsIn(held, r) && IsUnder(L, r, n, top)
  {
    WEmptyIff(n);
    match n
    case WShared(_, weight, stacks, _, _) =>
      var tail := UPopTop(stacks, top);
      r := WSharedOf(L, weight, tail, held);
      hide UWf, WNormal, WDetermined, UHas;
    case WSegment(_, values, _, _, _) =>
      if values.First() == Some(top) {
        r := WAfterPrefix(L, n, 1, held, Max(WDepth(n), 0));
        UnderRun(L, n, r, top);
      } else {
        r := WEmpty(held);
        EmptyBelow(L, r);
        hide WNormal, WDetermined;
        assert forall s: seq<S> :: !(values.View() <= [top] + s);
      }
    case WBranch(_, _, children, _, _) =>
      if top in children {
        assert AltsAt(children, top) == children[top].nodes;
        AltsHeld(n, top, held);
        r := WMergeAll(L, children[top].nodes, held, Max(WDepth(n), 0));
        hide WNormal, WDetermined;
        assert forall s: seq<S> :: ([top] + s)[1..] == s;
      } else {
        r := WEmpty(held);
        EmptyBelow(L, r);
        assert AltsAt(children, top) == [];
      }
  }

  lemma AltsHeld<S(!new), W(!new)>(n: WNode<S, W>, top: S, held: set<WNode<S, W>>)
    requires WWf(n) && n.WBranch? && Heap(held) && n in held && top in n.children
    ensures AllIn(n.children[top].nodes, Max(WDepth(n), 0)) && held + ReachAll(n.children[top].nodes) == held
  {
    var q := n.children[top].nodes;
    forall i | 0 <= i < |q| ensures WWf(q[i]) && WDepth(q[i]) <= Max(WDepth(n), 0) && q[i] in held {
      assert q[i] in AltsAt(n.children, top);
      assert IsKid(q[i], n);
      WDepthChild(n, top, q[i]);
    }
    ReachAllWithin(q, held);
  }

  lemma UnderRun<S(!new), W(!new)>(L: Lattice<W>, n: WNode<S, W>, r: WNode<S, W>, top: S)
    requires n.WSegment? && n.values.View() != [] && n.values.View()[0] == top && WIsPop(L, r, n, 1)
    ensures IsUnder(L, r, n, top)
  {
    RunBelow(L, n, 1);
    hide Below, BelowPop;
    assert n.values.View()[..1] == [top];
    forall s, u ensures Below(L, r, s, u) <==> Below(L, n, [top] + s, u) {
      assert ([top] + s)[1..] == s;
    }
  }

  method WRetainEmpty<S(!new), W(!new)>(ghost L: Lattice<W>, n: WNode<S, W>, held: set<WNode<S, W>>)
    returns (r: WNode<S, W>)
    requires Heap(held) && n in held && WWf(n)
    ensures WWf(r) && FitsIn(held, r) && IsBottom(L, r, n)
  {
    match n
    case WShared(_, weight, stacks, _, _) =>
      URetainedEmpty(stacks);
      r := WSharedOf(L, weight, URetainEmpty(stacks), held);
      hide UWf, WNormal, WDetermined, UHas;
    case WSegment(_, values, _, _, _) =>
      r := WEmpty(held);
      EmptyBelow(L, r);
      assert !(values.View() <= []);
    case WBranch(_, empty, _, _, _) =>
      r := WBranchOf(empty, map[], held);
  }
}
