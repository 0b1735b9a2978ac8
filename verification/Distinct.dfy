/** The path counter bounds the number of distinct stacks, so where it is exact it is a limit
    that every enumeration keeps. */
module Distinct {
  import opened Segments
  import opened Counting
  import opened UNodes
  import opened WNodes
  import opened Materialize

  /** What lies under `v` in the given stacks. */
  ghost function Tails<S(!new)>(some: set<seq<S>>, v: seq<S>): set<seq<S>> {
    set s | s in some && v <= s :: s[|v|..]
  }

  /** Stacks under one run are as many as their tails. */
  lemma {:induction false} TailsSize<S(!new)>(some: set<seq<S>>, v: seq<S>)
    requires forall s :: s in some ==> v <= s
    ensures |Tails(some, v)| == |some|
  {
    if some != {} {
      var s :| s in some;
      var rest := some - {s};
      TailsSize(rest, v);
      OneTail(rest, v, s);
      assert some == rest + {s};
    }
  }

  lemma OneTail<S(!new)>(rest: set<seq<S>>, v: seq<S>, s: seq<S>)
    requires v <= s && s !in rest
    ensures Tails(rest + {s}, v) == Tails(rest, v) + {s[|v|..]} && s[|v|..] !in Tails(rest, v)
  {
    forall r | r in rest && v <= r ensures r[|v|..] != s[|v|..] {
      assert r == v + r[|v|..] && s == v + s[|v|..];
    }
  }

  ghost function NotUnder<S(!new)>(some: set<seq<S>>, t: S): set<seq<S>> {
    set s | s in some && !([t] <= s)
  }

  lemma OneTop<S(!new)>(some: set<seq<S>>, t: S)
    ensures |some| == |Tails(some, [t])| + |NotUnder(some, t)|
    ensures forall k :: k != t ==> Tails(NotUnder(some, t), [k]) == Tails(some, [k])
  {
    var part := set s | s in some && [t] <= s;
    TailsSize(part, [t]);
    assert Tails(part, [t]) == Tails(some, [t]);
    assert some == part + NotUnder(some, t) && part !! NotUnder(some, t);
    forall k | k != t ensures Tails(NotUnder(some, t), [k]) == Tails(some, [k]) {
      forall s | s in some && [k] <= s ensures s in NotUnder(some, t) {
        assert s[0] == k;
      }
    }
  }

  /** Stacks are counted top by top. */
  lemma {:induction false} ByTop<S(!new)>(some: set<seq<S>>, counts: map<S, nat>)
    requires forall s :: s in some ==> s != [] && s[0] in counts
    requires forall t :: t in counts ==> |Tails(some, [t])| <= counts[t]
    ensures |some| <= Sum(counts)
    decreases |counts|
  {
    hide Tails, Sum;
    if counts == map[] {
      assert some == {};
    } else {
      var t :| t in counts;
      SumRemove(counts, t);
      OneTop(some, t);
      ByTop(NotUnder(some, t), counts - {t});
    }
  }

  // ----- unweighted

  lemma {:induction false} UDistinct<S(!new)>(n: UNode<S>, some: set<seq<S>>)
    requires forall s :: s in some ==> UHas(n, s)
    ensures |some| <= UCount(n)
    decreases n, 1
  {
    match n
    case USegment(values, next, _, _) =>
      TailsSize(some, values.View());
      UDistinct(next, Tails(some, values.View()));
    case UBranch(empty, children, _, _) =>
      var longer := some - {[]};
      forall t | t in children ensures |Tails(longer, [t])| <= UCounts(n)[t] {
        UDistinctAll(children[t].nodes, Tails(longer, [t]));
      }
      ByTop(longer, UCounts(n));
      assert some <= longer + {[]};
      SubsetSize(some, longer + {[]});
      assert [] in some ==> empty;
      assert [] !in some ==> longer == some;
  }

  lemma {:induction false} UDistinctAll<S(!new)>(q: seq<UNode<S>>, some: set<seq<S>>)
    requires forall s :: s in some ==> exists c :: c in q && UHas(c, s)
    ensures |some| <= UCountAll(q)
    decreases q, 0
  {
    if q == [] {
      assert some == {};
    } else {
      var part := set s | s in some && UHas(q[0], s);
      var rest := some - part;
      UDistinct(q[0], part);
      forall s | s in rest ensures exists c :: c in q[1..] && UHas(c, s) {
        var c :| c in q && UHas(c, s);
        assert c in q[1..];
      }
      UDistinctAll(q[1..], rest);
      assert some == part + rest;
    }
  }

  // ----- weighted

  /** However many stacks one picks, there are at least as many structural paths. */
  lemma {:induction false} WDistinct<S(!new), W(!new)>(n: WNode<S, W>, some: set<seq<S>>)
    requires forall s :: s in some ==> WHas(n, s)
    ensures |some| <= WCount(n)
    decreases n, 1
  {
    match n
    case WSegment(_, values, next, _, _) =>
      TailsSize(some, values.View());
      WDistinct(next, Tails(some, values.View()));
    case WShared(_, _, stacks, _, _) =>
      UDistinct(stacks, some);
    case WBranch(_, empty, children, _, _) =>
      var longer := some - {[]};
      forall t | t in children ensures |Tails(longer, [t])| <= WCounts(n)[t] {
        WDistinctAll(children[t].nodes, Tails(longer, [t]));
      }
      ByTop(longer, WCounts(n));
      assert some <= longer + {[]};
      SubsetSize(some, longer + {[]});
      assert [] in some ==> |empty| >= 1;
      assert [] !in some ==> longer == some;
  }

  lemma {:induction false} WDistinctAll<S(!new), W(!new)>(q: seq<WNode<S, W>>, some: set<seq<S>>)
    requires forall s :: s in some ==> exists c :: c in q && WHas(c, s)
    ensures |some| <= WCountAll(q)
    decreases q, 0
  {
    if q == [] {
      assert some == {};
    } else {
      var part := set s | s in some && WHas(q[0], s);
      var rest := some - part;
      WDistinct(q[0], part);
      forall s | s in rest ensures exists c :: c in q[1..] && WHas(c, s) {
        var c :| c in q && WHas(c, s);
        assert c in q[1..];
      }
      WDistinctAll(q[1..], rest);
      assert some == part + rest;
    }
  }

  /** An unsaturated counter is a limit no enumeration can exceed. */
  lemma PathsBoundStacks<S(!new), W(!new)>(n: WNode<S, W>, limit: nat)
    requires WWf(n) && n.paths < 0xFFFF_FFFF_FFFF_FFFF && n.paths <= limit
    ensures !TooMany(n, limit)
  {
    if TooMany(n, limit) {
      var some :| AllRepresented(n, some) && |some| > limit;
      var turned := Turn(some);
      hide WHas, WNormal, WDetermined;
      forall s | s in turned ensures WHas(n, s) {
        var k :| k in some && s == Rev(k);
        assert Represented(n, k);
      }
      WDistinct(n, turned);
    }
  }

  lemma {:induction false} Turn<S(!new)>(some: set<seq<S>>) returns (turned: set<seq<S>>)
    ensures |turned| == |some| && forall s :: s in turned ==> exists k :: k in some && s == Rev(k)
    ensures forall k :: k in some ==> Rev(k) in turned
  {
    turned := {};
    if some != {} {
      var k :| k in some;
      var rest := Turn(some - {k});
      if Rev(k) in rest {
        var j :| j in some - {k} && Rev(k) == Rev(j);
        RevRev(j);
        RevRev(k);
        assert false;
      }
      turned := rest + {Rev(k)};
    }
  }
}
