/** Unweighted nodes: their shape, the stack language they encode, and their invariants. */
module UNodes {
  import opened Segments
  import opened Counting
  import opened Tables

  /** A reference to an immutable unweighted node. Stacks are spelled top first. */
  datatype UNode<S(==)> =
    | UBranch(empty: bool, children: map<S, Alts<UNode<S>>>, paths: nat, maxDepth: nat)
    | USegment(values: Segment<S>, next: UNode<S>, paths: nat, maxDepth: nat)

  type UChildren<S> = map<S, Alts<UNode<S>>>

  function UEmpty<S(==)>(): UNode<S> {
    UBranch(false, map[], 0, 0)
  }

  function UEnd<S(==)>(): UNode<S> {
    UBranch(true, map[], 1, 0)
  }

  predicate UIsEmpty<S(==)>(n: UNode<S>) {
    n.paths == 0
  }

  predicate UHasEmpty<S(==)>(n: UNode<S>) {
    n.UBranch? && n.empty
  }

  predicate UIsEnd<S(==)>(n: UNode<S>) {
    n.UBranch? && n.empty && n.children == map[]
  }

  // ----- meaning

  /** Some path of `n` spells `s`. */
  ghost predicate UHas<S(!new)>(n: UNode<S>, s: seq<S>)
    decreases n
  {
    match n
    case UBranch(empty, children, _, _) =>
      if s == [] then empty
      else exists c :: c in AltsAt(children, s[0]) && UHas(c, s[1..])
    case USegment(values, next, _, _) =>
      values.View() <= s && UHas(next, s[|values.View()|..])
  }

  /** Some stack of `n` is `s` under `count` more symbols. */
  ghost predicate UPopHas<S(!new)>(n: UNode<S>, count: nat, s: seq<S>) {
    exists p :: |p| == count && UHas(n, p + s)
  }

  /** `r` encodes the union of the languages of `a` and `b`. */
  ghost predicate UIsUnion<S(!new)>(r: UNode<S>, a: UNode<S>, b: UNode<S>) {
    forall s :: UHas(r, s) <==> UHas(a, s) || UHas(b, s)
  }

  /** `r` is `n` with `count` symbols taken off the top of every stack that has them. */
  ghost predicate UIsPop<S(!new)>(r: UNode<S>, n: UNode<S>, count: nat) {
    forall s :: UHas(r, s) <==> UPopHas(n, count, s)
  }

  /** Length of the longest path, or -1 when there is none. */
  ghost function UDepth<S(!new)>(n: UNode<S>): int
    decreases n
  {
    match n
    case UBranch(empty, children, _, _) =>
      MaxOf({if empty then 0 else -1}
            + set t, c | t in children && c in AltsAt(children, t) :: 1 + UDepth(c))
    case USegment(values, next, _, _) => |values.View()| + UDepth(next)
  }

  /** Number of structural paths. */
  ghost function UCount<S(!new)>(n: UNode<S>): nat
    decreases n, 1
  {
    match n
    case UBranch(empty, children, _, _) => (if empty then 1 else 0) + Sum(UCounts(n))
    case USegment(_, next, _, _) => UCount(next)
  }

  ghost function UCounts<S(!new)>(n: UNode<S>): map<S, nat>
    requires n.UBranch?
    decreases n, 0
  {
    map t | t in n.children :: UCountAll(n.children[t].nodes)
  }

  ghost function UCountAll<S(!new)>(q: seq<UNode<S>>): nat
    decreases q, 0
  {
    if q == [] then 0 else UCount(q[0]) + UCountAll(q[1..])
  }

  // ----- invariants

  /** The cached counters are the true ones, cut off at the machine bound. */
  ghost predicate UCached<S(!new)>(n: UNode<S>) {
    && n.paths == Min(UCount(n), MAX)
    && n.maxDepth == Min(Max(UDepth(n), 0), MAX)
  }

  /** Normal form: segments and alternatives lead somewhere, a branch without the empty
      stack never has exactly one symbol, and every cached counter is exact. */
  ghost predicate UWf<S(!new)>(n: UNode<S>)
    decreases n
  {
    && UCached(n)
    && match n
       case UBranch(empty, children, _, _) =>
         && (!empty ==> |children| != 1)
         && (forall t :: t in children ==> children[t].nodes != [])
         && (forall t, c {:trigger c in AltsAt(children, t)} ::
               c in AltsAt(children, t) ==> UWf(c) && c.paths > 0)
       case USegment(values, next, _, _) =>
         values.View() != [] && UWf(next) && next.paths > 0
  }

  // ----- counters against the language

  lemma UDepthChild<S(!new)>(n: UNode<S>, t: S, c: UNode<S>)
    requires n.UBranch? && c in AltsAt(n.children, t)
    ensures UDepth(c) < UDepth(n)
  {
    var ds := set t, c | t in n.children && c in AltsAt(n.children, t) :: 1 + UDepth(c);
    assert 1 + UDepth(c) in ds;
  }

  lemma {:induction false} UCountAllPositive<S(!new)>(q: seq<UNode<S>>, c: UNode<S>)
    requires c in q
    ensures UCountAll(q) >= UCount(c)
  {
    if q[0] != c {
      UCountAllPositive(q[1..], c);
    }
  }

  lemma UCountChild<S(!new)>(n: UNode<S>, t: S, c: UNode<S>)
    requires n.UBranch? && c in AltsAt(n.children, t)
    ensures UCount(n) >= UCount(c) + if n.empty then 1 else 0
  {
    SumRemove(UCounts(n), t);
    UCountAllPositive(n.children[t].nodes, c);
  }

  /** No represented stack is longer than the depth, and each is counted. */
  lemma {:induction false} UWordBounds<S(!new)>(n: UNode<S>, s: seq<S>)
    requires UHas(n, s)
    ensures |s| <= UDepth(n) && 1 <= UCount(n)
    decreases n
  {
    match n
    case UBranch(empty, children, _, _) =>
      if s != [] {
        var c :| c in AltsAt(children, s[0]) && UHas(c, s[1..]);
        UWordBounds(c, s[1..]);
        UDepthChild(n, s[0], c);
        UCountChild(n, s[0], c);
      }
    case USegment(values, next, _, _) =>
      UWordBounds(next, s[|values.View()|..]);
  }

  /** A well-formed node that is not empty really has a stack as long as its depth. */
  lemma {:induction false} ULongest<S(!new)>(n: UNode<S>) returns (s: seq<S>)
    requires UWf(n) && n.paths > 0
    ensures UHas(n, s) && |s| == UDepth(n)
    decreases n
  {
    match n
    case UBranch(empty, children, _, _) =>
      var ds := set t, c | t in children && c in AltsAt(children, t) :: 1 + UDepth(c);
      if UDepth(n) in ds {
        var t, c :| t in children && c in AltsAt(children, t) && UDepth(n) == 1 + UDepth(c);
        var rest := ULongest(c);
        s := [t] + rest;
        assert s[1..] == rest;
      } else if empty {
        s := [];
      } else {
        assert UDepth(n) == -1;
        if t :| t in children {
          var c := children[t].nodes[0];
          UDepthChild(n, t, c);
          var rest := ULongest(c);
        } else {
          assert UCounts(n) == map[];
        }
        assert false;
      }
    case USegment(values, next, _, _) =>
      var rest := ULongest(next);
      s := values.View() + rest;
      assert s[|values.View()|..] == rest;
  }

  /** The only well-formed node without paths is the bare branch. */
  lemma UZero<S(!new)>(n: UNode<S>)
    requires UWf(n) && n.paths == 0
    ensures n.UBranch? && !n.empty && n.children == map[]
  {
    if n.UBranch? {
      if t :| t in n.children {
        UCountChild(n, t, n.children[t].nodes[0]);
      }
    }
  }

  /** The empty test is exact, and the depth is -1 just for the empty language. */
  lemma UEmptyIff<S(!new)>(n: UNode<S>)
    requires UWf(n)
    ensures n.paths == 0 ==> forall s :: !UHas(n, s)
    ensures n.paths > 0 ==> exists s :: UHas(n, s)
    ensures n.paths == 0 <==> UDepth(n) == -1
    ensures UDepth(n) >= -1
  {
    hide UWf;
    if n.paths > 0 {
      var s := ULongest(n);
      assert UHas(n, s);
    } else {
      UZero(n);
      assert forall s :: !UHas(n, s);
    }
  }

  // ----- segments

  /** Prepend a run of symbols to every stack. */
  function USegmentOf<S(==)>(values: Segment<S>, next: UNode<S>): UNode<S> {
    if values.IsEmpty() then next
    else if UIsEmpty(next) then UEmpty()
    else USegment(values, next, next.paths, SatAdd(values.Len(), next.maxDepth))
  }

  lemma UEmptyWf<S(!new)>()
    ensures UWf(UEmpty<S>()) && UDepth(UEmpty<S>()) == -1 && forall s: seq<S> :: !UHas(UEmpty(), s)
  {
  }

  lemma UEndWf<S(!new)>()
    ensures UWf(UEnd<S>()) && UDepth(UEnd<S>()) == 0 && forall s: seq<S> :: UHas(UEnd(), s) <==> s == []
  {
    assert UCounts(UEnd<S>()) == map[];
  }

  lemma USegmentCached<S(!new)>(values: Segment<S>, next: UNode<S>, x: UNode<S>)
    requires UCached(next) && UDepth(next) >= 0
    requires x == USegment(values, next, next.paths, SatAdd(values.Len(), next.maxDepth))
    ensures UCached(x) && UDepth(x) == |values.View()| + UDepth(next)
  {
  }

  lemma USegmentOfWf<S(!new)>(values: Segment<S>, next: UNode<S>)
    requires UWf(next)
    ensures UWf(USegmentOf(values, next))
    ensures UDepth(USegmentOf(values, next))
         == if UDepth(next) == -1 then -1 else |values.View()| + UDepth(next)
  {
    UEmptyIff(next);
    UEmptyWf<S>();
    if !values.IsEmpty() && !UIsEmpty(next) {
      assert UCached(next);
      hide UCached;
      USegmentCached(values, next, USegmentOf(values, next));
    }
  }

  lemma USegmentOfHas<S(!new)>(values: Segment<S>, next: UNode<S>)
    requires UWf(next)
    ensures forall s :: UHas(USegmentOf(values, next), s)
                   <==> values.View() <= s && UHas(next, s[|values.View()|..])
  {
    hide UWf;
    UEmptyIff(next);
    UEmptyWf<S>();
    forall s ensures UHas(USegmentOf(values, next), s)
                <==> values.View() <= s && UHas(next, s[|values.View()|..]) {
      if values.View() == [] {
        assert s[0..] == s;
      }
    }
  }

  // ----- popping, as seen by the language

  lemma UPopZero<S(!new)>(n: UNode<S>)
    ensures forall s :: UPopHas(n, 0, s) <==> UHas(n, s)
  {
    forall s ensures UPopHas(n, 0, s) <==> UHas(n, s) {
      assert [] + s == s;
      if UPopHas(n, 0, s) {
        var p :| |p| == 0 && UHas(n, p + s);
        assert p == [];
      }
    }
  }

  /** Popping inside a segment leaves its tail. */
  lemma UPopInside<S(!new)>(n: UNode<S>, count: nat)
    requires n.USegment? && count <= |n.values.View()|
    ensures forall s :: UPopHas(n, count, s)
                   <==> n.values.View()[count..] <= s && UHas(n.next, s[|n.values.View()| - count..])
  {
    var v := n.values.View();
    forall s ensures UPopHas(n, count, s) <==> v[count..] <= s && UHas(n.next, s[|v| - count..]) {
      if UPopHas(n, count, s) {
        var p :| |p| == count && UHas(n, p + s);
        InsideRun(v, p, s);
      }
      if v[count..] <= s && UHas(n.next, s[|v| - count..]) {
        InsideRun(v, v[..count], s);
        assert UHas(n, v[..count] + s);
      }
    }
  }

  lemma InsideRun<S>(v: seq<S>, p: seq<S>, s: seq<S>)
    requires |p| <= |v|
    ensures v <= p + s <==> p == v[..|p|] && v[|p|..] <= s
    ensures v <= p + s ==> (p + s)[|v|..] == s[|v| - |p|..]
  {
    if v <= p + s {
      assert v[..|p|] == (p + s)[..|v|][..|p|] == p;
      assert v[|p|..] == (p + s)[..|v|][|p|..] == s[..|v| - |p|];
    }
    if p == v[..|p|] && v[|p|..] <= s {
      assert v == p + v[|p|..];
      assert (p + s)[..|v|] == p + s[..|v| - |p|];
    }
  }

  /** Popping past a segment goes on below it. */
  lemma UPopPast<S(!new)>(n: UNode<S>, count: nat)
    requires n.USegment? && |n.values.View()| <= count
    ensures forall s :: UPopHas(n, count, s) <==> UPopHas(n.next, count - |n.values.View()|, s)
  {
    var v := n.values.View();
    forall s ensures UPopHas(n, count, s) <==> UPopHas(n.next, count - |v|, s) {
      if UPopHas(n, count, s) {
        var p :| |p| == count && UHas(n, p + s);
        var q := BelowRun(n, p, s);
      }
      if UPopHas(n.next, count - |v|, s) {
        var q :| |q| == count - |v| && UHas(n.next, q + s);
        OnRun(n, q, s);
      }
    }
  }

  lemma BelowRun<S(!new)>(n: UNode<S>, p: seq<S>, s: seq<S>) returns (q: seq<S>)
    requires n.USegment? && |n.values.View()| <= |p| && UHas(n, p + s)
    ensures |q| == |p| - |n.values.View()| && UHas(n.next, q + s)
  {
    var v := n.values.View();
    q := p[|v|..];
    assert (p + s)[|v|..] == q + s;
  }

  lemma OnRun<S(!new)>(n: UNode<S>, q: seq<S>, s: seq<S>)
    requires n.USegment? && UHas(n.next, q + s)
    ensures UHas(n, n.values.View() + q + s)
  {
    var v := n.values.View();
    assert (v + q + s)[|v|..] == q + s;
  }

  /** Popping a branch pops its alternatives one symbol less. */
  lemma UPopBranch<S(!new)>(n: UNode<S>, count: nat)
    requires n.UBranch? && count >= 1
    ensures forall s :: UPopHas(n, count, s)
                   <==> exists t, c :: c in AltsAt(n.children, t) && UPopHas(c, count - 1, s)
  {
    forall s ensures UPopHas(n, count, s)
                <==> exists t, c :: c in AltsAt(n.children, t) && UPopHas(c, count - 1, s) {
      if UPopHas(n, count, s) {
        var p :| |p| == count && UHas(n, p + s);
        var c := UnderTop(n, p, s);
      }
      if t, c :| c in AltsAt(n.children, t) && UPopHas(c, count - 1, s) {
        var q :| |q| == count - 1 && UHas(c, q + s);
        OnTop(n, t, c, q, s);
      }
    }
  }

  lemma UnderTop<S(!new)>(n: UNode<S>, p: seq<S>, s: seq<S>) returns (c: UNode<S>)
    requires n.UBranch? && p != [] && UHas(n, p + s)
    ensures c in AltsAt(n.children, p[0]) && UPopHas(c, |p| - 1, s)
  {
    c :| c in AltsAt(n.children, p[0]) && UHas(c, (p + s)[1..]);
    assert (p + s)[1..] == p[1..] + s;
  }

  lemma OnTop<S(!new)>(n: UNode<S>, t: S, c: UNode<S>, q: seq<S>, s: seq<S>)
    requires n.UBranch? && c in AltsAt(n.children, t) && UHas(c, q + s)
    ensures UHas(n, [t] + q + s)
  {
    assert ([t] + q + s)[1..] == q + s;
  }

  /** What is left after a pop is that much shorter. */
  lemma UPopShorter<S(!new)>(n: UNode<S>, r: UNode<S>, count: nat)
    requires UWf(n) && UWf(r)
    requires UIsPop(r, n, count)
    ensures UDepth(r) == -1 || UDepth(r) + count <= UDepth(n)
  {
    hide UWf;
    UEmptyIff(r);
    if r.paths > 0 {
      var s := ULongest(r);
      assert UPopHas(n, count, s);
      var p :| |p| == count && UHas(n, p + s);
      UWordBounds(n, p + s);
    }
  }
}
