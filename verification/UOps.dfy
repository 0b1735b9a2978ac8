/** Push, pop and selection by top on unweighted nodes. */
module UOps {
  import opened Weights
  import opened Segments
  import opened Counting
  import opened Tables
  import opened UNodes
  import opened UMerge

  /** `t` is on top of some stack of `n`. */
  ghost predicate UTopOf<S(!new)>(n: UNode<S>, t: S) {
    exists s :: UHas(n, s) && s != [] && s[0] == t
  }

  function UPush<S(==)>(n: UNode<S>, x: S): UNode<S> {
    if UIsEmpty(n) then n else USegmentOf(One(x), n)
  }

  lemma UPushed<S(!new)>(n: UNode<S>, x: S)
    requires UWf(n)
    ensures UWf(UPush(n, x))
    ensures forall s :: UHas(UPush(n, x), s) <==> s != [] && s[0] == x && UHas(n, s[1..])
  {
    hide UWf, UHas;
    UEmptyIff(n);
    USegmentOfWf(One(x), n);
    USegmentOfHas(One(x), n);
    assert forall s: seq<S> :: [x] <= s <==> s != [] && s[0] == x;
  }

  method UPop<S(!new)>(n: UNode<S>) returns (r: UNode<S>)
    requires UWf(n)
    ensures UWf(r) && UIsPop(r, n, 1)
  {
    UEmptyIff(n);
    if n.USegment? {
      r := UAfterPrefix(n, 1, UDepth(n));
    } else {
      var flat := Flatten(n.children);
      FlatWithin(n, flat);
      r := UMergeAll(flat, UDepth(n));
      FlatIsPop(n, flat);
    }
  }

  lemma FlatWithin<S(!new)>(n: UNode<S>, flat: seq<UNode<S>>)
    requires UWf(n) && n.UBranch?
    requires forall v :: v in flat <==> exists t :: v in AltsAt(n.children, t)
    ensures AllWithin(flat, UDepth(n))
  {
    forall i | 0 <= i < |flat| ensures UWf(flat[i]) && UDepth(flat[i]) <= UDepth(n) {
      UAlternative(n, flat, i);
    }
  }

  lemma FlatIsPop<S(!new)>(n: UNode<S>, flat: seq<UNode<S>>)
    requires n.UBranch?
    requires forall v :: v in flat <==> exists t :: v in AltsAt(n.children, t)
    ensures forall s :: AnyHas(flat, s) <==> UPopHas(n, 1, s)
  {
    UPopBranch(n, 1);
    forall s ensures AnyHas(flat, s) <==> UPopHas(n, 1, s) {
      if v :| v in flat && UHas(v, s) {
        UPopZero(v);
      }
      if t, c :| c in AltsAt(n.children, t) && UPopHas(c, 0, s) {
        UPopZero(c);
        assert c in flat;
      }
    }
  }

  /** The tops a node offers, read off its root. */
  function UTops<S(==)>(n: UNode<S>): set<S> {
    match n
    case USegment(values, _, _, _) => if values.First().Some? then {values.First().value} else {}
    case UBranch(_, children, _, _) => children.Keys
  }

  /** In normal form the root tells the truth about all stacks. */
  lemma UTopsExact<S(!new)>(n: UNode<S>, t: S)
    requires UWf(n)
    ensures t in UTops(n) <==> UTopOf(n, t)
  {
    match n
    case USegment(values, next, _, _) =>
      UEmptyIff(n);
      if t in UTops(n) {
        var s := ULongest(n);
        assert s[0] == t;
      }
    case UBranch(_, children, _, _) =>
      if t in children {
        var c := children[t].nodes[0];
        assert c in AltsAt(children, t);
        var s := ULongest(c);
        assert ([t] + s)[1..] == s;
        assert UHas(n, [t] + s);
      }
  }

  function USingleExclusiveTop<S(==)>(n: UNode<S>): Option<S> {
    match n
    case USegment(values, _, _, _) => values.First()
    case UBranch(empty, children, _, _) =>
      if empty || |children| != 1 then None else Some(OnlyKey(children.Keys))
  }

  function OnlyKey<S(==)>(keys: set<S>): (k: S)
    requires |keys| == 1
    ensures keys == {k}
  {
    OneElement(keys);
    var k :| k in keys;
    k
  }

  lemma OneElement<S>(keys: set<S>)
    requires |keys| == 1
    ensures exists k :: k in keys && keys == {k}
    ensures forall a, b :: a in keys && b in keys ==> a == b
  {
    var k :| k in keys;
    assert |keys - {k}| == 0;
    assert keys == {k};
  }

  /** A top is reported exactly when it is on every stack, and there is a stack. */
  lemma USingleExclusiveTopExact<S(!new)>(n: UNode<S>, t: S)
    requires UWf(n)
    ensures USingleExclusiveTop(n) == Some(t)
       <==> n.paths > 0 && forall s :: UHas(n, s) ==> s != [] && s[0] == t
  {
    UEmptyIff(n);
    match n
    case USegment(values, next, _, _) =>
      var s := ULongest(n);
      assert s[0] == values.View()[0];
    case UBranch(empty, children, _, _) =>
      if empty {
        assert UHas(n, []);
      } else if children == map[] {
        UZeroPaths(n);
      } else {
        BranchHasTwoTops(n, t);
      }
  }

  lemma UZeroPaths<S(!new)>(n: UNode<S>)
    requires UWf(n) && n.UBranch? && !n.empty && n.children == map[]
    ensures n.paths == 0
  {
    assert UCounts(n) == map[];
  }

  lemma BranchHasTwoTops<S(!new)>(n: UNode<S>, t: S)
    requires UWf(n) && n.UBranch? && !n.empty && n.children != map[]
    ensures |n.children| != 1
    ensures exists s :: UHas(n, s) && (s == [] || s[0] != t)
  {
    assert |n.children.Keys - {t}| > 0;
    var u :| u in n.children.Keys - {t};
    UTopsExact(n, u);
  }

  // ----- selection

  method URetainTop<S(!new)>(n: UNode<S>, top: S) returns (r: UNode<S>)
    requires UWf(n)
    ensures UWf(r)
    ensures forall s :: UHas(r, s) <==> UHas(n, s) && s != [] && s[0] == top
  {
    match n
    case USegment(values, _, _, _) =>
      if values.First() == Some(top) {
        r := n;
      } else {
        r := UEmpty();
        UEmptyWf<S>();
      }
    case UBranch(_, children, _, _) =>
      var kept: UChildren<S> := map[];
      if top in children {
        kept := kept[top := children[top]];
      }
      UEmptyIff(n);
      KeptBelow(n, kept, top);
      hide UWf, UDepth;
      r := UBranchOf(false, kept, Max(UDepth(n), 0));
  }

  lemma KeptBelow<S(!new)>(n: UNode<S>, kept: UChildren<S>, top: S)
    requires UWf(n) && n.UBranch?
    requires kept == if top in n.children then map[top := n.children[top]] else map[]
    ensures KidsBelow(kept, Max(UDepth(n), 0))
  {
    forall t, c | c in AltsAt(kept, t) ensures UWf(c) && UDepth(c) < Max(UDepth(n), 0) {
      assert c in AltsAt(n.children, t);
      UDepthChild(n, t, c);
      UEmptyIff(c);
    }
  }

  method UPopTop<S(!new)>(n: UNode<S>, top: S) returns (r: UNode<S>)
    requires UWf(n)
    ensures UWf(r)
    ensures forall s :: UHas(r, s) <==> UHas(n, [top] + s)
  {
    UEmptyIff(n);
    match n
    case USegment(values, _, _, _) =>
      if values.First() == Some(top) {
        r := UAfterPrefix(n, 1, UDepth(n));
        TopHas(n, r);
        hide UWf, UHas, UIsPop;
        assert forall s: seq<S> :: ([top] + s)[1..] == s;
      } else {
        r := UEmpty();
        UEmptyWf<S>();
      }
    case UBranch(_, children, _, _) =>
      if top in children {
        AltsWithin(n, top);
        r := UMergeAll(children[top].nodes, UDepth(n));
        assert AltsAt(children, top) == children[top].nodes;
        assert forall s: seq<S> :: ([top] + s)[1..] == s;
      } else {
        r := UEmpty();
        UEmptyWf<S>();
        assert AltsAt(children, top) == [];
      }
  }

  lemma AltsWithin<S(!new)>(n: UNode<S>, t: S)
    requires UWf(n) && n.UBranch? && t in n.children
    ensures AllWithin(n.children[t].nodes, UDepth(n))
  {
    var q := n.children[t].nodes;
    forall i | 0 <= i < |q| ensures UWf(q[i]) && UDepth(q[i]) <= UDepth(n) {
      assert q[i] in AltsAt(n.children, t);
      UDepthChild(n, t, q[i]);
    }
  }

  function URetainEmpty<S(==)>(n: UNode<S>): UNode<S> {
    if UHasEmpty(n) then UEnd() else UEmpty()
  }

  lemma URetainedEmpty<S(!new)>(n: UNode<S>)
    requires UWf(n)
    ensures UWf(URetainEmpty(n))
    ensures forall s :: UHas(URetainEmpty(n), s) <==> UHas(n, s) && s == []
  {
    UEmptyWf<S>();
    UEndWf<S>();
  }
}
