/** Union and removal of tops on unweighted nodes: the mutually recursive core. */
module UMerge {
  import opened Segments
  import opened Counting
  import opened Pointers
  import opened Tables
  import opened UNodes

  // ----- child tables

  /** The language of a branch with the given parts. */
  ghost predicate Spelled<S(!new)>(empty: bool, children: UChildren<S>, s: seq<S>) {
    if s == [] then empty
    else exists c :: c in AltsAt(children, s[0]) && UHas(c, s[1..])
  }

  ghost predicate AnyHas<S(!new)>(q: seq<UNode<S>>, s: seq<S>) {
    exists v :: v in q && UHas(v, s)
  }

  /** Every alternative is well formed and shallower than `d`. */
  ghost predicate KidsBelow<S(!new)>(children: UChildren<S>, d: int) {
    forall t, c {:trigger c in AltsAt(children, t)} :: c in AltsAt(children, t) ==> UWf(c) && UDepth(c) < d
  }

  ghost predicate AllWithin<S(!new)>(q: seq<UNode<S>>, d: int) {
    forall i :: 0 <= i < |q| ==> UWf(q[i]) && UDepth(q[i]) <= d
  }

  /** Outside `todo`, `kept` holds just the non-empty alternatives of `children`. */
  ghost predicate Retained<S(!new)>(children: UChildren<S>, kept: UChildren<S>, todo: set<S>) {
    && (forall t :: t in kept ==> t in children && t !in todo && kept[t].nodes != [])
    && (forall t, v {:trigger v in AltsAt(kept, t)} ::
          v in AltsAt(kept, t) ==> v in AltsAt(children, t) && v.paths > 0)
    && (forall t, v {:trigger v in AltsAt(children, t)} ::
          v in AltsAt(children, t) && t !in todo && v.paths > 0 ==> v in AltsAt(kept, t))
  }

  method RetainNonEmpty<S(!new)>(values: seq<UNode<S>>) returns (kept: seq<UNode<S>>)
    ensures forall v {:trigger v in kept} {:trigger v in values} :: v in kept <==> v in values && v.paths > 0
  {
    kept := [];
    for i := 0 to |values|
      invariant forall v {:trigger v in kept} :: v in kept <==> v in values[..i] && v.paths > 0
    {
      if !UIsEmpty(values[i]) {
        kept := kept + [values[i]];
      }
    }
  }

  /** Drop empty and repeated alternatives, and symbols left without any. */
  method RetainAlternatives<S(!new)>(children: UChildren<S>) returns (kept: UChildren<S>)
    ensures Retained(children, kept, {})
  {
    kept := map[];
    var todo := children.Keys;
    while todo != {}
      invariant todo <= children.Keys
      invariant Retained(children, kept, todo)
      decreases |todo|
    {
      var t :| t in todo;
      var alive := RetainNonEmpty(children[t].nodes);
      var alts := DedupePtr(alive);
      RetainedStep(children, kept, todo, t, alts);
      if alts != [] {
        kept := PutAlts(kept, t, alts);
      }
      todo := todo - {t};
    }
  }

  lemma RetainedStep<S(!new)>(children: UChildren<S>, kept: UChildren<S>, todo: set<S>, t: S, alts: seq<UNode<S>>)
    requires Retained(children, kept, todo) && t in todo && t in children
    requires forall v {:trigger v in alts} :: v in alts <==> v in children[t].nodes && v.paths > 0
    ensures Retained(children, if alts == [] then kept else PutAlts(kept, t, alts), todo - {t})
  {
    assert AltsAt(children, t) == children[t].nodes;
    assert AltsAt(kept, t) == [];
  }

  // ----- counters of a new branch

  method AddPaths<S(!new)>(start: nat, nodes: seq<UNode<S>>) returns (n: nat)
    requires start <= MAX
    requires forall v {:trigger v in nodes} :: v in nodes ==> UCached(v)
    ensures n == Min(start + UCountAll(nodes), MAX)
  {
    n := start;
    for i := 0 to |nodes|
      invariant n <= MAX
      invariant Min(n + UCountAll(nodes[i..]), MAX) == Min(start + UCountAll(nodes), MAX)
    {
      assert nodes[i] in nodes && nodes[i..][1..] == nodes[i + 1..];
      n := SatAdd(n, nodes[i].paths);
    }
  }

  method CountPaths<S(!new)>(empty: bool, children: UChildren<S>) returns (n: nat)
    requires forall t, c {:trigger c in AltsAt(children, t)} :: c in AltsAt(children, t) ==> UCached(c)
    ensures n == Min(UCount(UBranch(empty, children, 0, 0)), MAX)
  {
    n := if empty then 1 else 0;
    ghost var counts := UCounts(UBranch(empty, children, 0, 0));
    assert forall t :: t in children ==> t in counts && counts[t] == UCountAll(children[t].nodes);
    n := AddTable(n, children, counts);
  }

  method AddTable<S(!new)>(start: nat, children: UChildren<S>, ghost counts: map<S, nat>) returns (n: nat)
    requires start <= MAX
    requires forall t, c {:trigger c in AltsAt(children, t)} :: c in AltsAt(children, t) ==> UCached(c)
    requires counts.Keys == children.Keys
    requires forall t :: t in children ==> counts[t] == UCountAll(children[t].nodes)
    ensures n == Min(start + Sum(counts), MAX)
  {
    hide UCached, UCountAll, Sum;
    n := start;
    ghost var rest := counts;
    var todo := children.Keys;
    while todo != {}
      invariant todo <= children.Keys && rest.Keys == todo
      invariant forall t :: t in rest ==> rest[t] == counts[t]
      invariant n <= MAX
      invariant Min(n + Sum(rest), MAX) == Min(start + Sum(counts), MAX)
      decreases |todo|
    {
      var t :| t in todo;
      SumRemove(rest, t);
      assert AltsAt(children, t) == children[t].nodes;
      n := AddPaths(n, children[t].nodes);
      rest := rest - {t};
      todo := todo - {t};
    }
    SumNone(rest);
  }

  method Deepest<S(!new)>(flat: seq<UNode<S>>) returns (m: nat)
    requires forall v {:trigger v in flat} :: v in flat ==> UCached(v) && UDepth(v) >= 0
    ensures forall v {:trigger v in flat} :: v in flat ==> Min(1 + UDepth(v), MAX) <= m
    ensures m == 0 || exists v :: v in flat && m == Min(1 + UDepth(v), MAX)
  {
    hide UDepth;
    hide UCount;
    m := 0;
    for i := 0 to |flat|
      invariant forall j :: 0 <= j < i ==> Min(1 + UDepth(flat[j]), MAX) <= m
      invariant m == 0 || exists v :: v in flat && m == Min(1 + UDepth(v), MAX)
    {
      assert flat[i] in flat;
      m := Max(m, SatAdd(flat[i].maxDepth, 1));
    }
  }

  lemma DeepestIsDepth<S(!new)>(b: UNode<S>, flat: seq<UNode<S>>, m: nat)
    requires b.UBranch?
    requires forall v {:trigger v in flat} :: v in flat <==> exists t :: v in AltsAt(b.children, t)
    requires forall v {:trigger v in flat} :: v in flat ==> UDepth(v) >= 0 && Min(1 + UDepth(v), MAX) <= m
    requires m == 0 || exists v :: v in flat && m == Min(1 + UDepth(v), MAX)
    ensures m == Min(Max(UDepth(b), 0), MAX)
  {
    hide UDepth;
    if v :| v in flat && m == Min(1 + UDepth(v), MAX) {
      var t :| v in AltsAt(b.children, t);
      UDepthChild(b, t, v);
    }
    if UDepth(b) > 0 {
      var t, c := UDeepestAlternative(b);
      assert c in flat;
    }
  }

  /** A branch deeper than its end is one deeper than some alternative. */
  lemma UDeepestAlternative<S(!new)>(b: UNode<S>) returns (t: S, c: UNode<S>)
    requires b.UBranch? && UDepth(b) > 0
    ensures c in AltsAt(b.children, t) && UDepth(b) == 1 + UDepth(c)
  {
    var ds := set t, c | t in b.children && c in AltsAt(b.children, t) :: 1 + UDepth(c);
    assert UDepth(b) == MaxOf({if b.empty then 0 else -1} + ds);
    t, c :| t in b.children && c in AltsAt(b.children, t) && UDepth(b) == 1 + UDepth(c);
  }

  // ----- branches

  lemma SpelledRetained<S(!new)>(empty: bool, children: UChildren<S>, kept: UChildren<S>, d: int)
    requires KidsBelow(children, d) && Retained(children, kept, {})
    ensures KidsBelow(kept, d) && Retained(kept, kept, {})
    ensures forall s :: Spelled(empty, children, s) <==> Spelled(empty, kept, s)
  {
    hide UWf, UDepth, UHas;
    forall s ensures Spelled(empty, children, s) <==> Spelled(empty, kept, s) {
      if s != [] {
        if c :| c in AltsAt(children, s[0]) && UHas(c, s[1..]) {
          UEmptyIff(c);
          assert c.paths > 0;
          assert c in AltsAt(kept, s[0]);
        }
        if c :| c in AltsAt(kept, s[0]) && UHas(c, s[1..]) {
          assert c in AltsAt(children, s[0]);
        }
      }
    }
  }

  /** The node `u_branch` allocates when there is more than one way on. */
  lemma FreshBranch<S(!new)>(b: UNode<S>, d: int)
    requires b.UBranch? && Retained(b.children, b.children, {}) && KidsBelow(b.children, d)
    requires UCached(b) && (!b.empty ==> |b.children| != 1)
    requires -1 <= d && (b.empty ==> 0 <= d)
    ensures UWf(b) && UDepth(b) <= d
    ensures forall s :: UHas(b, s) <==> Spelled(b.empty, b.children, s)
  {
    assert UWf(b);
    var ds := set t, c | t in b.children && c in AltsAt(b.children, t) :: 1 + UDepth(c);
    hide UWf;
    if UDepth(b) in ds {
      var t, c :| t in b.children && c in AltsAt(b.children, t) && UDepth(b) == 1 + UDepth(c);
    }
  }

  lemma CountersIrrelevant<S(!new)>(a: UNode<S>, b: UNode<S>)
    requires a.UBranch? && b.UBranch? && a.empty == b.empty && a.children == b.children
    ensures UCount(a) == UCount(b)
  {
    assert UCounts(a) == UCounts(b);
  }

  /** The language of a branch whose only symbol is `t` and that lacks the empty stack. */
  lemma SpelledOne<S(!new)>(kept: UChildren<S>, t: S, rest: UNode<S>)
    requires kept.Keys == {t} && UWf(rest)
    requires forall s :: UHas(rest, s) <==> AnyHas(kept[t].nodes, s)
    ensures forall s :: UHas(USegmentOf(One(t), rest), s) <==> Spelled(false, kept, s)
  {
    hide UWf, UHas;
    USegmentOfHas(One(t), rest);
    forall s ensures UHas(USegmentOf(One(t), rest), s) <==> Spelled(false, kept, s) {
      if s != [] && s[0] == t {
        assert [t] <= s && (AnyHas(kept[t].nodes, s[1..]) <==> UHas(rest, s[1..]));
      }
    }
  }

  lemma KeptFacts<S(!new)>(kept: UChildren<S>, d: int)
    requires KidsBelow(kept, d) && Retained(kept, kept, {})
    ensures forall t, c {:trigger c in AltsAt(kept, t)} ::
              c in AltsAt(kept, t) ==> UCached(c) && UDepth(c) >= 0
  {
    forall t, c | c in AltsAt(kept, t) ensures UCached(c) && UDepth(c) >= 0 {
      UEmptyIff(c);
    }
  }

  method AllocBranch<S(!new)>(empty: bool, kept: UChildren<S>, ghost d: int) returns (r: UNode<S>)
    requires KidsBelow(kept, d) && Retained(kept, kept, {})
    requires -1 <= d && (empty ==> 0 <= d)
    requires !empty ==> |kept| != 1
    ensures UWf(r) && UDepth(r) <= d
    ensures forall s :: UHas(r, s) <==> Spelled(empty, kept, s)
  {
    hide UHas, UDepth, UCount;
    KeptFacts(kept, d);
    hide UWf;
    var paths := CountPaths(empty, kept);
    var flat := Flatten(kept);
    var maxDepth := Deepest(flat);
    r := UBranch(empty, kept, paths, maxDepth);
    DeepestIsDepth(r, flat, maxDepth);
    CountersIrrelevant(r, UBranch(empty, kept, 0, 0));
    assert UCached(r);
    FreshBranch(r, d);
  }

  /** A branch with its dead alternatives removed, in normal form. */
  method UBranchOf<S(!new)>(empty: bool, children: UChildren<S>, ghost d: int) returns (r: UNode<S>)
    requires KidsBelow(children, d)
    requires -1 <= d && (empty ==> 0 <= d)
    ensures UWf(r) && UDepth(r) <= d
    ensures forall s :: UHas(r, s) <==> Spelled(empty, children, s)
    decreases d, 2, 1
  {
    hide UWf, UHas, UDepth, KidsBelow, Retained, AllWithin;
    var kept := RetainAlternatives(children);
    SpelledRetained(empty, children, kept, d);
    if !empty && kept == map[] {
      r := UEmpty();
      UEmptyWf<S>();
    } else if !empty && |kept| == 1 {
      var top :| top in kept;
      SingleKey(kept, top);
      NodesWithin(kept, top, d);
      var rest := UMergeAll(kept[top].nodes, d - 1);
      SpelledOne(kept, top, rest);
      USegmentOfWf(One(top), rest);
      r := USegmentOf(One(top), rest);
    } else {
      r := AllocBranch(empty, kept, d);
    }
  }

  lemma NodesWithin<S(!new)>(kept: UChildren<S>, t: S, d: int)
    requires KidsBelow(kept, d) && Retained(kept, kept, {}) && t in kept
    ensures AllWithin(kept[t].nodes, d - 1) && 0 < d
  {
    hide UWf;
    assert AltsAt(kept, t) == kept[t].nodes;
    forall i | 0 <= i < |kept[t].nodes| ensures UWf(kept[t].nodes[i]) && UDepth(kept[t].nodes[i]) <= d - 1 {
      assert kept[t].nodes[i] in AltsAt(kept, t);
    }
    assert kept[t].nodes[0] in AltsAt(kept, t);
    UEmptyIff(kept[t].nodes[0]);
  }

  lemma SingleKey<K, V>(m: map<K, V>, k: K)
    requires |m| == 1 && k in m
    ensures m.Keys == {k}
  {
    assert |m.Keys - {k}| == 0;
  }

  // ----- union

  /** The two lists have the same union. */
  ghost predicate SameAny<S(!new)>(a: seq<UNode<S>>, b: seq<UNode<S>>) {
    forall s :: AnyHas(a, s) <==> AnyHas(b, s)
  }

  /** One node for the union of all the inputs, merged in pairs. */
  method UMergeAll<S(!new)>(values: seq<UNode<S>>, ghost d: int) returns (r: UNode<S>)
    requires AllWithin(values, d) && -1 <= d
    ensures UWf(r) && UDepth(r) <= d
    ensures forall s :: UHas(r, s) <==> AnyHas(values, s)
    decreases d, 4, 0
  {
    hide UWf, UHas;
    if values == [] {
      r := UEmpty();
      UEmptyWf<S>();
      return;
    }
    var queue := values;
    while |queue| > 1
      invariant queue != [] && AllWithin(queue, d)
      invariant SameAny(queue, values)
      decreases |queue|
    {
      queue := PairUp(queue, d);
    }
    r := queue[0];
    assert forall v :: v in queue <==> v == r;
  }

  /** One round of the tournament; an odd one out goes through unmerged. */
  method PairUp<S(!new)>(values: seq<UNode<S>>, ghost d: int) returns (next: seq<UNode<S>>)
    requires AllWithin(values, d) && |values| > 1 && -1 <= d
    ensures AllWithin(next, d) && 0 < |next| < |values|
    ensures SameAny(next, values)
    decreases d, 3, 1
  {
    hide UWf, UHas, AnyHas, SameAny, UIsUnion;
    next := [];
    var queue := values;
    SameAnyRefl(next + queue, values);
    while queue != []
      invariant AllWithin(queue, d) && AllWithin(next, d)
      invariant |queue| < |values| ==> 0 < |next| && |next| + |queue| < |values|
      invariant |queue| == |values| ==> next == []
      invariant |queue| <= |values|
      invariant SameAny(next + queue, values)
      decreases |queue|
    {
      var left := queue[0];
      if |queue| > 1 {
        var right := queue[1];
        var both := UMerge(left, right, d);
        SameAnyPair(next, queue, both, values);
        queue := queue[2..];
        next := next + [both];
      } else {
        assert next + queue == (next + [left]) + queue[1..];
        queue := queue[1..];
        next := next + [left];
      }
    }
    assert next + queue == next;
  }

  lemma SameAnyRefl<S(!new)>(a: seq<UNode<S>>, b: seq<UNode<S>>)
    requires a == b
    ensures SameAny(a, b)
  {
  }

  lemma SameAnyPair<S(!new)>(next: seq<UNode<S>>, queue: seq<UNode<S>>, both: UNode<S>, values: seq<UNode<S>>)
    requires |queue| > 1 && UIsUnion(both, queue[0], queue[1])
    requires SameAny(next + queue, values)
    ensures SameAny((next + [both]) + queue[2..], values)
  {
    hide UHas;
    var after := (next + [both]) + queue[2..];
    assert queue == [queue[0], queue[1]] + queue[2..];
    forall s ensures AnyHas(after, s) <==> AnyHas(next + queue, s) {
      if v :| v in next + queue && UHas(v, s) {
        if v == queue[0] || v == queue[1] {
          assert both in after && UHas(both, s);
        } else {
          assert v in after;
        }
      }
      if v :| v in after && UHas(v, s) {
        if v == both {
          assert queue[0] in next + queue && queue[1] in next + queue;
        } else {
          assert v in next + queue;
        }
      }
    }
  }

  /** The cases in which one side already is the union. */
  lemma TrivialUnions<S(!new)>(left: UNode<S>, right: UNode<S>)
    requires UWf(left) && UWf(right)
    ensures left == right ==> UIsUnion(left, left, right)
    ensures left.paths == 0 ==> UIsUnion(right, left, right)
    ensures right.paths == 0 ==> UIsUnion(left, left, right)
    ensures UIsEnd(left) && UIsEnd(right) ==> UIsUnion(left, left, right)
  {
    hide UWf;
    UEmptyIff(left);
    UEmptyIff(right);
    if UIsEnd(left) && UIsEnd(right) {
      assert forall s :: UHas(left, s) <==> s == [];
      assert forall s :: UHas(right, s) <==> s == [];
    }
  }

  /** The union of two nodes, through every shortcut. */
  method UMerge<S(!new)>(left: UNode<S>, right: UNode<S>, ghost d: int) returns (r: UNode<S>)
    requires UWf(left) && UWf(right) && UDepth(left) <= d && UDepth(right) <= d && -1 <= d
    ensures UWf(r) && UDepth(r) <= d
    ensures UIsUnion(r, left, right)
    decreases d, 3, 0
  {
    hide UWf, UHas, UIsUnion, UDepth;
    TrivialUnions(left, right);
    var same := PtrEq(left, right);
    if same {
      return left;
    }
    if UIsEmpty(left) {
      return right;
    }
    if UIsEmpty(right) {
      return left;
    }
    if UIsEnd(left) && UIsEnd(right) {
      return left;
    }
    if left.USegment? && right.USegment? {
      var common := CommonLen(left.values.View(), right.values.View());
      if common > 0 {
        r := MergeSegments(left, right, common, d);
        return;
      }
    }
    r := MergeTops(left, right, d);
  }

  /** A segment read after a prefix of its own run. */
  lemma SegmentHas<S(!new)>(n: UNode<S>, count: nat)
    requires n.USegment? && count <= |n.values.View()|
    ensures forall s :: UHas(n, s) <==> n.values.View()[..count] <= s && UPopHas(n, count, s[count..])
  {
    var v := n.values.View();
    UPopInside(n, count);
    forall s ensures UHas(n, s) <==> v[..count] <= s && UPopHas(n, count, s[count..]) {
      assert v == v[..count] + v[count..];
      if v[..count] <= s {
        assert s == v[..count] + s[count..];
        if |v| <= |s| {
          assert s[count..][|v| - count..] == s[|v|..];
          assert s[..|v|] == v[..count] + s[count..|v|];
          assert s[count..][..|v| - count] == s[count..|v|];
        }
      }
    }
  }

  /** Both sides start with the same run: keep it once. */
  method MergeSegments<S(!new)>(left: UNode<S>, right: UNode<S>, common: nat, ghost d: int) returns (r: UNode<S>)
    requires UWf(left) && UWf(right) && UDepth(left) <= d && UDepth(right) <= d
    requires left.USegment? && right.USegment? && left.paths > 0 && right.paths > 0
    requires 0 < common <= |left.values.View()| && common <= |right.values.View()|
    requires left.values.View()[..common] == right.values.View()[..common]
    ensures UWf(r) && UDepth(r) <= d
    ensures UIsUnion(r, left, right)
    decreases d, 2, 5
  {
    hide UWf, UHas, UDepth, UIsPop, UIsUnion;
    NextOfSegment(left);
    var prefix := FromTopFirst(left.values.View()[..common]);
    var leftRest := UAfterPrefix(left, common, d);
    var rightRest := UAfterPrefix(right, common, d);
    var rest := UMerge(leftRest, rightRest, d - common);
    r := USegmentOf(prefix, rest);
    USegmentOfWf(prefix, rest);
    SharedRun(left, right, common, leftRest, rightRest, rest);
  }

  lemma SharedRun<S(!new)>(left: UNode<S>, right: UNode<S>, common: nat,
                           leftRest: UNode<S>, rightRest: UNode<S>, rest: UNode<S>)
    requires left.USegment? && right.USegment? && UWf(rest)
    requires common <= |left.values.View()| && common <= |right.values.View()|
    requires left.values.View()[..common] == right.values.View()[..common]
    requires UIsPop(leftRest, left, common) && UIsPop(rightRest, right, common)
    requires UIsUnion(rest, leftRest, rightRest)
    ensures UIsUnion(USegmentOf(FromTopFirst(left.values.View()[..common]), rest), left, right)
  {
    var prefix := left.values.View()[..common];
    var r := USegmentOf(FromTopFirst(prefix), rest);
    SegmentHas(left, common);
    SegmentHas(right, common);
    USegmentOfHas(FromTopFirst(prefix), rest);
    hide UWf, UHas, UPopHas;
    forall s ensures UHas(r, s) <==> UHas(left, s) || UHas(right, s) {
      if prefix <= s {
        var t := s[common..];
        assert UHas(rest, t) <==> UHas(leftRest, t) || UHas(rightRest, t);
      }
    }
  }

  /** No common start: list the alternatives of both sides by their tops. */
  method MergeTops<S(!new)>(left: UNode<S>, right: UNode<S>, ghost d: int) returns (r: UNode<S>)
    requires UWf(left) && UWf(right) && UDepth(left) <= d && UDepth(right) <= d && -1 <= d
    ensures UWf(r) && UDepth(r) <= d
    ensures UIsUnion(r, left, right)
    decreases d, 2, 4
  {
    hide UWf, UHas;
    var empty, children := AddAlternatives(left, false, map[], d);
    empty, children := AddAlternatives(right, empty, children, d);
    r := UBranchOf(empty, children, d);
  }

  method AddAlternatives<S(!new)>(n: UNode<S>, empty0: bool, children0: UChildren<S>, ghost d: int)
    returns (empty: bool, children: UChildren<S>)
    requires UWf(n) && UDepth(n) <= d && -1 <= d
    requires KidsBelow(children0, d) && (empty0 ==> 0 <= d)
    ensures KidsBelow(children, d) && (empty ==> 0 <= d)
    ensures forall s :: Spelled(empty, children, s) <==> Spelled(empty0, children0, s) || UHas(n, s)
    decreases d, 2, 3
  {
    match n
    case UBranch(here, more, _, _) =>
      empty := empty0 || here;
      children := Extend(children0, more);
      AddedBranch(n, empty0, children0, children, d);
    case USegment(values, _, _, _) =>
      NextOfSegment(n);
      var top := values.First().value;
      var rest := UAfterPrefix(n, 1, d);
      empty := empty0;
      children := ExtendOne(children0, top, [rest]);
      AddedSegment(n, empty0, children0, children, rest, d);
  }

  lemma AddedBranch<S(!new)>(n: UNode<S>, empty0: bool, children0: UChildren<S>, children: UChildren<S>, d: int)
    requires n.UBranch? && UWf(n) && UDepth(n) <= d && KidsBelow(children0, d)
    requires Extended(children, children0, n.children, {})
    ensures KidsBelow(children, d) && (n.empty ==> 0 <= d)
    ensures forall s :: Spelled(empty0 || n.empty, children, s) <==> Spelled(empty0, children0, s) || UHas(n, s)
  {
    if n.empty {
      UWordBounds(n, []);
    }
    AddedBranchKids(n, children0, children, d);
    hide UWf, UDepth;
    forall s ensures Spelled(empty0 || n.empty, children, s) <==> Spelled(empty0, children0, s) || UHas(n, s) {
      if s != [] {
        assert UHas(n, s) <==> exists c :: c in AltsAt(n.children, s[0]) && UHas(c, s[1..]);
      }
    }
  }

  lemma AddedBranchKids<S(!new)>(n: UNode<S>, children0: UChildren<S>, children: UChildren<S>, d: int)
    requires n.UBranch? && UWf(n) && UDepth(n) <= d && KidsBelow(children0, d)
    requires Extended(children, children0, n.children, {})
    ensures KidsBelow(children, d)
  {
    forall t, c | c in AltsAt(children, t) ensures UWf(c) && UDepth(c) < d {
      if c !in AltsAt(children0, t) {
        UDepthChild(n, t, c);
      }
    }
  }

  lemma AddedSegment<S(!new)>(n: UNode<S>, empty0: bool, children0: UChildren<S>, children: UChildren<S>,
                              rest: UNode<S>, d: int)
    requires n.USegment? && UWf(n) && UDepth(n) <= d && KidsBelow(children0, d)
    requires UWf(rest) && (UDepth(rest) == -1 || UDepth(rest) < UDepth(n))
    requires UIsPop(rest, n, 1)
    requires forall k, v {:trigger v in AltsAt(children, k)} ::
      v in AltsAt(children, k) <==> v in AltsAt(children0, k) || (k == n.values.View()[0] && v == rest)
    ensures KidsBelow(children, d)
    ensures forall s :: Spelled(empty0, children, s) <==> Spelled(empty0, children0, s) || UHas(n, s)
  {
    NextOfSegment(n);
    hide UWf, UDepth, UHas, UPopHas, UIsPop;
    forall t, c | c in AltsAt(children, t) ensures UWf(c) && UDepth(c) < d {
    }
    hide KidsBelow;
    TopHas(n, rest);
  }

  /** A segment read one symbol at a time. */
  lemma TopHas<S(!new)>(n: UNode<S>, rest: UNode<S>)
    requires n.USegment? && n.values.View() != [] && UIsPop(rest, n, 1)
    ensures forall s :: UHas(n, s) <==> s != [] && s[0] == n.values.View()[0] && UHas(rest, s[1..])
  {
    SegmentHas(n, 1);
    hide UHas, UPopHas;
    forall s ensures UHas(n, s) <==> s != [] && s[0] == n.values.View()[0] && UHas(rest, s[1..]) {
      assert n.values.View()[..1] == [n.values.View()[0]];
    }
  }

  // ----- removing tops

  /** What is left under the first `count` symbols of each stack. */
  method UAfterPrefix<S(!new)>(n: UNode<S>, count: nat, ghost d: int) returns (r: UNode<S>)
    requires UWf(n) && UDepth(n) <= d && -1 <= d
    ensures UWf(r) && (UDepth(r) == -1 || UDepth(r) + count <= UDepth(n))
    ensures UIsPop(r, n, count)
    decreases d, 1, 1
  {
    if count == 0 {
      r := n;
      UPopZero(n);
      return;
    }
    match n
    case USegment(values, next, _, _) =>
      if count < values.Len() {
        r := TailOfSegment(n, count);
      } else {
        NextOfSegment(n);
        hide UWf, UHas, UPopHas, UDepth;
        r := UAfterPrefix(next, count - values.Len(), d - values.Len());
        UPopPast(n, count);
      }
    case UBranch(_, _, _, _) =>
      r := UPopn(n, count, d);
  }

  lemma NextOfSegment<S(!new)>(n: UNode<S>)
    requires UWf(n) && n.USegment?
    ensures UWf(n.next) && n.next.paths > 0 && n.values.View() != []
    ensures -1 <= UDepth(n.next) && UDepth(n) == |n.values.View()| + UDepth(n.next)
  {
    UEmptyIff(n.next);
  }

  lemma PopNothing<S(!new)>(n: UNode<S>, count: nat)
    requires UWf(n) && (count == 0 || n.paths == 0)
    ensures UIsPop(n, n, count)
    ensures UDepth(n) == -1 || count == 0
  {
    hide UWf, UHas;
    UEmptyIff(n);
    if count == 0 {
      UPopZero(n);
    } else {
      assert forall s :: !UHas(n, s);
    }
  }

  method TailOfSegment<S(!new)>(n: UNode<S>, count: nat) returns (r: UNode<S>)
    requires UWf(n) && n.USegment? && count < |n.values.View()|
    ensures UWf(r) && (UDepth(r) == -1 || UDepth(r) + count <= UDepth(n))
    ensures UIsPop(r, n, count)
  {
    assert UWf(n.next) && UDepth(n) == |n.values.View()| + UDepth(n.next);
    UPopInside(n, count);
    hide UWf, UHas, UPopHas, UDepth;
    var tail := n.values.DropFront(count).value;
    r := USegmentOf(tail, n.next);
    USegmentOfWf(tail, n.next);
    USegmentOfHas(tail, n.next);
  }

  /** Remove exactly `count` symbols from every stack that has them. */
  method UPopn<S(!new)>(n: UNode<S>, count: nat, ghost d: int) returns (r: UNode<S>)
    requires UWf(n) && UDepth(n) <= d && -1 <= d
    ensures UWf(r) && (UDepth(r) == -1 || UDepth(r) + count <= UDepth(n))
    ensures UIsPop(r, n, count)
    ensures count == 0 ==> r == n
    decreases d, 1, 0
  {
    hide UWf, UHas, UDepth;
    UEmptyIff(n);
    if count == 0 || UIsEmpty(n) {
      r := n;
      PopNothing(n, count);
      return;
    }
    hide UPopHas;
    match n
    case USegment(values, next, _, _) =>
      if count < values.Len() {
        r := TailOfSegment(n, count);
      } else {
        NextOfSegment(n);
        r := UPopn(next, count - values.Len(), d - values.Len());
        UPopPast(n, count);
      }
    case UBranch(_, _, _, _) =>
      var pops := PopAlternatives(n, count, d);
      r := UMergeAll(pops, d - 1);
      UPopShorter(n, r, count);
  }

  method PopAlternatives<S(!new)>(n: UNode<S>, count: nat, ghost d: int) returns (pops: seq<UNode<S>>)
    requires UWf(n) && n.UBranch? && 0 <= UDepth(n) <= d && count > 0
    ensures AllWithin(pops, d - 1)
    ensures forall s :: AnyHas(pops, s) <==> UPopHas(n, count, s)
    decreases d, 0, 0
  {
    hide UWf, UHas, UDepth, UIsPop, UPopHas;
    var flat := Flatten(n.children);
    pops := [];
    for i := 0 to |flat|
      invariant |pops| == i && AllWithin(pops, d - 1)
      invariant forall j :: 0 <= j < i ==> UIsPop(pops[j], flat[j], count - 1)
    {
      UAlternative(n, flat, i);
      var p := UPopn(flat[i], count - 1, d - 1);
      pops := pops + [p];
    }
    PoppedAlternatives(n, flat, pops, count);
  }

  lemma UAlternative<S(!new)>(n: UNode<S>, flat: seq<UNode<S>>, i: nat)
    requires UWf(n) && n.UBranch? && i < |flat|
    requires forall v :: v in flat <==> exists t :: v in AltsAt(n.children, t)
    ensures UWf(flat[i]) && -1 <= UDepth(flat[i]) < UDepth(n)
  {
    assert flat[i] in flat;
    var t :| flat[i] in AltsAt(n.children, t);
    UDepthChild(n, t, flat[i]);
    UEmptyIff(flat[i]);
  }

  lemma PoppedAlternatives<S(!new)>(n: UNode<S>, flat: seq<UNode<S>>, pops: seq<UNode<S>>, count: nat)
    requires n.UBranch? && count > 0 && |pops| == |flat|
    requires forall v :: v in flat <==> exists t :: v in AltsAt(n.children, t)
    requires forall j :: 0 <= j < |pops| ==> UIsPop(pops[j], flat[j], count - 1)
    ensures forall s :: AnyHas(pops, s) <==> UPopHas(n, count, s)
  {
    UPopBranch(n, count);
    hide UHas, UPopHas;
    forall s ensures AnyHas(pops, s) <==> UPopHas(n, count, s) {
      if v :| v in pops && UHas(v, s) {
        var j :| 0 <= j < |pops| && pops[j] == v;
        assert flat[j] in flat;
      }
      if t, c :| c in AltsAt(n.children, t) && UPopHas(c, count - 1, s) {
        assert c in flat;
        var j :| 0 <= j < |flat| && flat[j] == c;
        assert pops[j] in pops;
      }
    }
  }
}
