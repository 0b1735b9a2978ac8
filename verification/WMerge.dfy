/** Merging weighted nodes: the mutually recursive core, with its memo and its keep-alive list. */
module WMerge {
  import opened Weights
  import opened Segments
  import opened Counting
  import opened Pointers
  import opened Tables
  import opened UNodes
  import opened UMerge
  import opened UPaths
  import opened WNodes
  import opened Live
  import opened WBuild
  import opened WPops
  import opened Memo

  /** What one outermost merge remembers. */
  class MergeTable<S(==, !new), W(==, !new)> {
    var memo: MemoMap<S, W>
    var keepalive: seq<WNode<S, W>>

    constructor ()
      ensures memo == map[] && keepalive == []
    {
      memo := map[];
      keepalive := [];
    }
  }

  // ----- joins of weights

  ghost predicate BoundsAll<W(!new)>(L: Lattice<W>, ws: seq<W>, u: Option<W>) {
    forall w :: w in ws ==> Under(L, w, u)
  }

  /** `r` bounds what `ws` bounds. */
  ghost predicate SameBoundsAll<W(!new)>(L: Lattice<W>, r: seq<W>, ws: seq<W>) {
    forall u :: BoundsAll(L, r, u) <==> BoundsAll(L, ws, u)
  }

  /** Join all weights into at most one, skipping those equal to the join so far. */
  method JoinWeights<W(==, !new)>(L: Lattice<W>, weights: seq<W>) returns (r: seq<W>)
    requires Laws(L)
    ensures |r| <= 1 && SameBoundsAll(L, r, weights)
  {
    if weights == [] {
      return [];
    }
    var result := weights[0];
    for i := 1 to |weights|
      invariant SameBoundsAll(L, [result], weights[..i])
    {
      var same := PtrEq(result, weights[i]);
      JoinOne(L, result, weights[i], weights[..i]);
      assert weights[..i + 1] == weights[..i] + [weights[i]];
      if !(same || result == weights[i]) {
        result := L.join(result, weights[i]);
      }
    }
    assert weights[..|weights|] == weights;
    r := [result];
  }

  lemma JoinOne<W(!new)>(L: Lattice<W>, a: W, b: W, ws: seq<W>)
    requires Laws(L) && SameBoundsAll(L, [a], ws)
    ensures SameBoundsAll(L, [L.join(a, b)], ws + [b])
    ensures a == b ==> SameBoundsAll(L, [a], ws + [b])
  {
    UnderJoin(L, a, b);
    forall u ensures BoundsAll(L, ws + [b], u) <==> Under(L, a, u) && Under(L, b, u) {
      assert BoundsAll(L, [a], u) <==> BoundsAll(L, ws, u);
      assert a in [a];
      assert b in ws + [b];
    }
    forall w, u ensures BoundsAll(L, [w], u) <==> Under(L, w, u) {
      assert w in [w];
    }
  }

  // ----- joins of nodes

  /** `m` means the pointwise join of all of `values`. */
  ghost predicate JoinOfAll<S(!new), W(!new)>(L: Lattice<W>, m: WNode<S, W>, values: seq<WNode<S, W>>) {
    forall s, u :: Below(L, m, s, u) <==> AllBelow(L, values, s, u)
  }

  ghost predicate AllBelow<S(!new), W(!new)>(L: Lattice<W>, values: seq<WNode<S, W>>, s: seq<S>, u: Option<W>) {
    forall v {:trigger v in values} :: v in values ==> Below(L, v, s, u)
  }

  lemma AllBelowMore<S(!new), W(!new)>(L: Lattice<W>, values: seq<WNode<S, W>>, v: WNode<S, W>, s: seq<S>, u: Option<W>)
    ensures AllBelow(L, values + [v], s, u) <==> AllBelow(L, values, s, u) && Below(L, v, s, u)
  {
    hide Below;
    var more := values + [v];
    assert v in more;
    forall x | x in values ensures x in more {
    }
    if AllBelow(L, values, s, u) && Below(L, v, s, u) {
      forall x | x in more ensures Below(L, x, s, u) {
        assert x in values || x == v;
      }
    }
  }

  lemma JoinOfOne<S(!new), W(!new)>(L: Lattice<W>, v: WNode<S, W>)
    ensures JoinOfAll(L, v, [v])
  {
    assert v in [v];
  }

  lemma JoinOfMore<S(!new), W(!new)>(L: Lattice<W>, m: WNode<S, W>, values: seq<WNode<S, W>>, v: WNode<S, W>, r: WNode<S, W>)
    requires JoinOfAll(L, m, values) && IsJoin(L, r, m, v)
    ensures JoinOfAll(L, r, values + [v])
  {
    hide Below, AllBelow;
    forall s, u ensures Below(L, r, s, u) <==> AllBelow(L, values + [v], s, u) {
      AllBelowMore(L, values, v, s, u);
      assert Below(L, m, s, u) <==> AllBelow(L, values, s, u);
    }
  }

  /** A node without paths bounds nothing. */
  lemma EmptyBelow<S(!new), W(!new)>(L: Lattice<W>, n: WNode<S, W>)
    requires WNormal(n) && n.paths == 0
    ensures forall s, u :: Below(L, n, s, u)
  {
    WZero(n);
    hide WNormal, WDetermined;
    forall s: seq<S>, u ensures Below(L, n, s, u) {
      if s != [] {
        assert AltsAt(n.children, s[0]) == [];
      }
    }
  }

  lemma TrivialJoins<S(!new), W(!new)>(L: Lattice<W>, left: WNode<S, W>, right: WNode<S, W>)
    requires WWf(left) && WWf(right)
    ensures left == right ==> IsJoin(L, left, left, right)
    ensures left.paths == 0 ==> IsJoin(L, right, left, right)
    ensures right.paths == 0 ==> IsJoin(L, left, left, right)
  {
    hide WNormal, WDetermined, Below;
    if left.paths == 0 {
      EmptyBelow(L, left);
    }
    if right.paths == 0 {
      EmptyBelow(L, right);
    }
  }

  // ----- common runs

  /** The run of symbols at the root, if the root is a segment of either kind. */
  function TopRun<S(==), W>(n: WNode<S, W>): Option<Segment<S>> {
    match n
    case WSegment(_, values, _, _, _) => Some(values)
    case WShared(_, _, stacks, _, _) => if stacks.USegment? then Some(stacks.values) else None
    case WBranch(_, _, _, _, _) => None
  }

  /** A node that starts with a run, read after part of it. */
  lemma RunBelow<S(!new), W(!new)>(L: Lattice<W>, n: WNode<S, W>, count: nat)
    requires TopRun(n).Some? && count <= |TopRun(n).value.View()|
    ensures IsPoppedRun(L, n, TopRun(n).value.View()[..count], count)
  {
    var v := TopRun(n).value.View();
    if n.WSegment? {
      WPopInside(L, n, count);
      hide BelowPop;
      forall s, u ensures Below(L, n, s, u) <==> (v[..count] <= s ==> BelowPop(L, n, count, s[count..], u)) {
        assert v == v[..count] + v[count..];
        PrefixSplit(v[..count], v[count..], s);
      }
    } else {
      SegmentHas(n.stacks, count);
      WPopShared(L, n, count);
      hide BelowPop, UPopHas, UHas;
    }
  }

  ghost predicate IsPoppedRun<S(!new), W(!new)>(L: Lattice<W>, n: WNode<S, W>, run: seq<S>, count: nat)
    requires |run| == count
  {
    forall s, u :: Below(L, n, s, u) <==> (run <= s ==> BelowPop(L, n, count, s[count..], u))
  }

  /** Joining below a common run joins the wholes. */
  lemma JoinUnderRun<S(!new), W(!new)>(L: Lattice<W>, left: WNode<S, W>, right: WNode<S, W>, run: seq<S>,
                                       leftRest: WNode<S, W>, rightRest: WNode<S, W>, floor: WNode<S, W>, r: WNode<S, W>)
    requires IsPoppedRun(L, left, run, |run|) && IsPoppedRun(L, right, run, |run|)
    requires WIsPop(L, leftRest, left, |run|) && WIsPop(L, rightRest, right, |run|)
    requires IsJoin(L, floor, leftRest, rightRest) && IsPrefixed(L, r, run, floor)
    ensures IsJoin(L, r, left, right)
  {
    hide Below, BelowPop;
    forall s, u ensures Below(L, r, s, u) <==> Below(L, left, s, u) && Below(L, right, s, u) {
      if run <= s {
        var t := s[|run|..];
        assert Below(L, floor, t, u) <==> Below(L, leftRest, t, u) && Below(L, rightRest, t, u);
      }
    }
  }

  // ----- the memoised merge

  /** What a merge may rely on: both sides are pinned and well formed. */
  ghost predicate Ready<S(!new), W(!new)>(L: Lattice<W>, left: WNode<S, W>, right: WNode<S, W>, base: set<WNode<S, W>>,
                                          memo: MemoMap<S, W>, keep: seq<WNode<S, W>>, d: int) {
    && State(L, base, memo, keep)
    && left in Pins(base, memo, keep) && right in Pins(base, memo, keep)
    && WWf(left) && WWf(right) && WDepth(left) <= d && WDepth(right) <= d && -1 <= d
  }

  /** What a merge leaves: a pinned join, and a memo that has only grown. */
  ghost predicate Done<S(!new), W(!new)>(L: Lattice<W>, r: WNode<S, W>, left: WNode<S, W>, right: WNode<S, W>,
                                         base: set<WNode<S, W>>, memo0: MemoMap<S, W>, keep0: seq<WNode<S, W>>,
                                         memo: MemoMap<S, W>, keep: seq<WNode<S, W>>, d: int) {
    && State(L, base, memo, keep)
    && Grows(base, memo0, keep0, memo, keep, d)
    && r in Pins(base, memo, keep)
    && WWf(r) && IsJoin(L, r, left, right)
  }

  /** The same before the result has been entered into the memo. */
  ghost predicate Fresh<S(!new), W(!new)>(L: Lattice<W>, r: WNode<S, W>, left: WNode<S, W>, right: WNode<S, W>,
                                          base: set<WNode<S, W>>, memo0: MemoMap<S, W>, keep0: seq<WNode<S, W>>,
                                          memo: MemoMap<S, W>, keep: seq<WNode<S, W>>, d: int) {
    && State(L, base, memo, keep)
    && Grows(base, memo0, keep0, memo, keep, d - 1)
    && FitsIn(Pins(base, memo, keep), r)
    && WWf(r) && IsJoin(L, r, left, right)
  }

  lemma AtOnce<S(!new), W(!new)>(L: Lattice<W>, r: WNode<S, W>, left: WNode<S, W>, right: WNode<S, W>,
                                 base: set<WNode<S, W>>, memo: MemoMap<S, W>, keep: seq<WNode<S, W>>, d: int)
    requires Ready(L, left, right, base, memo, keep, d)
    requires r in Pins(base, memo, keep) && WWf(r) && IsJoin(L, r, left, right)
    ensures Done(L, r, left, right, base, memo, keep, memo, keep, d)
  {
    GrowsRefl(base, memo, keep, d);
  }

  /** Live nodes at one address are one node. */
  lemma SameAddress<S(!new), W(!new)>(L: Lattice<W>, left: WNode<S, W>, right: WNode<S, W>,
                                      base: set<WNode<S, W>>, memo: MemoMap<S, W>, keep: seq<WNode<S, W>>, d: int)
    requires Ready(L, left, right, base, memo, keep, d) && left.addr == right.addr
    ensures left == right
  {
  }

  lemma Inserted<S(!new), W(!new)>(L: Lattice<W>, r: WNode<S, W>, left: WNode<S, W>, right: WNode<S, W>,
                                   base: set<WNode<S, W>>, memo0: MemoMap<S, W>, keep0: seq<WNode<S, W>>,
                                   memo: MemoMap<S, W>, keep: seq<WNode<S, W>>, exact: int, d: int)
    requires Ready(L, left, right, base, memo0, keep0, d) && KeyOf(left, right) !in memo0
    requires exact == Max(WDepth(left), WDepth(right))
    requires Fresh(L, r, left, right, base, memo0, keep0, memo, keep, exact)
    ensures Done(L, r, left, right, base, memo0, keep0, memo[KeyOf(left, right) := r], keep, d)
  {
    hide WNormal, WDetermined, WDepth, IsJoin, Reach, EntryOk;
    assert left in Pins(base, memo, keep) && right in Pins(base, memo, keep);
    hide Pins;
    NotOverwritten(base, memo0, keep0, memo, keep, left, right, exact);
    StateInsert(L, base, memo, keep, left, right, r, exact);
    GrowsTrans(L, base, memo0, keep0, memo, keep, memo[KeyOf(left, right) := r], keep, exact - 1, exact, d);
  }

  method WMerge<S(!new), W(!new)>(L: Lattice<W>, left: WNode<S, W>, right: WNode<S, W>,
                                          held: set<WNode<S, W>>, ghost d: int) returns (r: WNode<S, W>)
    requires Laws(L) && Heap(held) && left in held && right in held && WWf(left) && WWf(right)
    requires WDepth(left) <= d && WDepth(right) <= d && -1 <= d
    ensures WWf(r) && FitsIn(held, r) && IsJoin(L, r, left, right) && WDepth(r) <= d
    decreases d, 5, 0
  {
    hide WNormal, WDetermined, WDepth, IsJoin, Below;
    var table := new MergeTable();
    PinsStart(L, held);
    r := WMergeMemo(L, left, right, table, held, d);
    JoinDepth(L, r, left, right, d);
    PinnedFits(L, held, table.memo, table.keepalive, r);
  }

  lemma PinnedFits<S(!new), W(!new)>(L: Lattice<W>, base: set<WNode<S, W>>, memo: MemoMap<S, W>, keep: seq<WNode<S, W>>,
                                     r: WNode<S, W>)
    requires State(L, base, memo, keep) && r in Pins(base, memo, keep)
    ensures FitsIn(base, r)
  {
    ReachWithin(r, Pins(base, memo, keep));
    ReachClosed(r);
    HeapSub(Pins(base, memo, keep), base + Reach(r));
  }

  method WMergeMemo<S(!new), W(!new)>(L: Lattice<W>, left: WNode<S, W>, right: WNode<S, W>,
                                              table: MergeTable<S, W>, base: set<WNode<S, W>>, ghost d: int)
    returns (result: WNode<S, W>)
    requires Laws(L) && Ready(L, left, right, base, table.memo, table.keepalive, d)
    modifies table
    ensures Done(L, result, left, right, base, old(table.memo), old(table.keepalive), table.memo, table.keepalive, d)
    decreases d, 4, 3
  {
    hide WNormal, WDetermined, WDepth, IsJoin, Below, Pins, State, Done;
    TrivialJoins(L, left, right);
    if left.addr == right.addr {
      SameAddress(L, left, right, base, table.memo, table.keepalive, d);
      AtOnce(L, left, left, right, base, table.memo, table.keepalive, d);
      return left;
    }
    if WIsEmpty(left) {
      AtOnce(L, right, left, right, base, table.memo, table.keepalive, d);
      return right;
    }
    if WIsEmpty(right) {
      AtOnce(L, left, left, right, base, table.memo, table.keepalive, d);
      return left;
    }
    var key := KeyOf(left, right);
    if key in table.memo {
      MemoHit(L, base, table.memo, table.keepalive, left, right);
      AtOnce(L, table.memo[key], left, right, base, table.memo, table.keepalive, d);
      return table.memo[key];
    }
    ghost var exact := Max(WDepth(left), WDepth(right));
    DepthsExact(left, right);
    result := MergeFresh(L, left, right, table, base, exact);
    Inserted(L, result, left, right, base, old(table.memo), old(table.keepalive), table.memo, table.keepalive, exact, d);
    table.memo := table.memo[key := result];
  }

  lemma DepthsExact<S(!new), W(!new)>(left: WNode<S, W>, right: WNode<S, W>)
    requires WWf(left) && WWf(right)
    ensures WDepth(left) >= -1 && (left.paths > 0 ==> WDepth(left) >= 0)
    ensures WDepth(right) >= -1 && (right.paths > 0 ==> WDepth(right) >= 0)
  {
    WEmptyIff(left);
    WEmptyIff(right);
  }

  /** Neither side is empty, they differ, and the pair is not in the memo. */
  method MergeFresh<S(!new), W(!new)>(L: Lattice<W>, left: WNode<S, W>, right: WNode<S, W>,
                                              table: MergeTable<S, W>, base: set<WNode<S, W>>, ghost d: int)
    returns (result: WNode<S, W>)
    requires Laws(L) && Ready(L, left, right, base, table.memo, table.keepalive, d)
    requires left.paths > 0 && right.paths > 0 && 0 <= d
    modifies table
    ensures Fresh(L, result, left, right, base, old(table.memo), old(table.keepalive), table.memo, table.keepalive, d)
    decreases d, 4, 2
  {
    hide Ready, Fresh;
    if left.WSegment? || right.WSegment? {
      var leftRun, rightRun := TopRun(left), TopRun(right);
      if leftRun.Some? && rightRun.Some? {
        var common := CommonLen(leftRun.value.View(), rightRun.value.View());
        if common > 0 {
          result := MergeCommonRun(L, left, right, leftRun.value.View()[..common], table, base, d);
          return;
        }
      }
    }
    if left.WShared? && right.WShared? {
      var shortcut := MergeShared(L, left, right, table, base, d);
      if shortcut.Some? {
        return shortcut.value;
      }
    }
    result := MergeExposed(L, left, right, table, base, d);
  }

  // ----- merging below a common run

  lemma KeepBoth<S(!new), W(!new)>(L: Lattice<W>, base: set<WNode<S, W>>, memo: MemoMap<S, W>, keep: seq<WNode<S, W>>,
                                   x: WNode<S, W>, y: WNode<S, W>)
    requires State(L, base, memo, keep)
    requires FitsIn(Pins(base, memo, keep), x) && FitsIn(Pins(base, memo, keep) + Reach(x), y)
    ensures State(L, base, memo, keep + [x] + [y]) && Grows(base, memo, keep, memo, keep + [x] + [y], -1)
    ensures x in Pins(base, memo, keep + [x] + [y]) && y in Pins(base, memo, keep + [x] + [y])
  {
    StateKeep(L, base, memo, keep, x);
    StateKeep(L, base, memo, keep + [x], y);
    hide Pins, State, Reach;
    GrowsTrans(L, base, memo, keep, memo, keep + [x], memo, keep + [x] + [y], -1, -1, -1);
  }

  /** Keep both rests alive, merge them, and put the run back on top. */
  method MergeRests<S(!new), W(!new)>(L: Lattice<W>, left: WNode<S, W>, right: WNode<S, W>, run: seq<S>,
                                              leftRest: WNode<S, W>, rightRest: WNode<S, W>,
                                              table: MergeTable<S, W>, base: set<WNode<S, W>>, ghost d: int)
    returns (result: WNode<S, W>)
    requires Laws(L) && Ready(L, left, right, base, table.memo, table.keepalive, d)
    requires 0 < |run| <= d
    requires IsPoppedRun(L, left, run, |run|) && IsPoppedRun(L, right, run, |run|)
    requires WWf(leftRest) && WWf(rightRest)
    requires WIsPop(L, leftRest, left, |run|) && WIsPop(L, rightRest, right, |run|)
    requires FitsIn(Pins(base, table.memo, table.keepalive), leftRest)
    requires FitsIn(Pins(base, table.memo, table.keepalive) + Reach(leftRest), rightRest)
    modifies table
    ensures Fresh(L, result, left, right, base, old(table.memo), old(table.keepalive), table.memo, table.keepalive, d)
    decreases d, 4, 0, 0
  {
    hide WNormal, WDetermined, WDepth, IsJoin, Below, Pins, State, Reach, WIsPop, IsPoppedRun, IsPrefixed, FitsIn, Grows;
    KeepBoth(L, base, table.memo, table.keepalive, leftRest, rightRest);
    WPopShorter(L, left, leftRest, |run|);
    WPopShorter(L, right, rightRest, |run|);
    table.keepalive := table.keepalive + [leftRest];
    table.keepalive := table.keepalive + [rightRest];
    ghost var memo1, keep1 := table.memo, table.keepalive;
    var floor := WMergeMemo(L, leftRest, rightRest, table, base, d - |run|);
    StateHeap(L, base, table.memo, table.keepalive);
    result := WSegmentOf(L, FromTopFirst(run), floor, Pins(base, table.memo, table.keepalive));
    JoinUnderRun(L, left, right, run, leftRest, rightRest, floor, result);
    GrowsTrans(L, base, old(table.memo), old(table.keepalive), memo1, keep1, table.memo, table.keepalive,
               -1, d - |run|, d - 1);
  }

  lemma StateHeap<S(!new), W(!new)>(L: Lattice<W>, base: set<WNode<S, W>>, memo: MemoMap<S, W>, keep: seq<WNode<S, W>>)
    requires State(L, base, memo, keep)
    ensures Heap(Pins(base, memo, keep))
  {
  }

  /** A node that starts with a run is at least that deep. */
  lemma RunDepth<S(!new), W(!new)>(n: WNode<S, W>)
    requires WWf(n) && n.paths > 0 && TopRun(n).Some?
    ensures |TopRun(n).value.View()| <= WDepth(n)
  {
    if n.WSegment? {
      WEmptyIff(n.next);
    } else {
      NextOfSegment(n.stacks);
      UEmptyIff(n.stacks.next);
    }
  }

  method MergeCommonRun<S(!new), W(!new)>(L: Lattice<W>, left: WNode<S, W>, right: WNode<S, W>, run: seq<S>,
                                                  table: MergeTable<S, W>, base: set<WNode<S, W>>, ghost d: int)
    returns (result: WNode<S, W>)
    requires Laws(L) && Ready(L, left, right, base, table.memo, table.keepalive, d)
    requires left.paths > 0 && right.paths > 0 && run != []
    requires TopRun(left).Some? && run <= TopRun(left).value.View()
    requires TopRun(right).Some? && run <= TopRun(right).value.View()
    modifies table
    ensures Fresh(L, result, left, right, base, old(table.memo), old(table.keepalive), table.memo, table.keepalive, d)
    decreases d, 4, 1
  {
    hide WNormal, WDetermined, WDepth, Below, Pins, State, Reach, WIsPop, IsPoppedRun, FitsIn, Fresh;
    var pins := Pins(base, table.memo, table.keepalive);
    StateHeap(L, base, table.memo, table.keepalive);
    RunDepth(left);
    assert TopRun(left).value.View()[..|run|] == run == TopRun(right).value.View()[..|run|];
    RunBelow(L, left, |run|);
    RunBelow(L, right, |run|);
    var leftRest := WAfterPrefix(L, left, |run|, pins, d);
    FitsMore(pins, leftRest);
    var rightRest := WAfterPrefix(L, right, |run|, pins + Reach(leftRest), d);
    result := MergeRests(L, left, right, run, leftRest, rightRest, table, base, d);
  }

  lemma FitsMore<S(!new), W(!new)>(held: set<WNode<S, W>>, r: WNode<S, W>)
    requires FitsIn(held, r)
    ensures Heap(held + Reach(r)) && r in held + Reach(r)
  {
    ReachSelf(r);
  }

  // ----- shortcuts for two shared regions

  method MergeShared<S(!new), W(!new)>(L: Lattice<W>, left: WNode<S, W>, right: WNode<S, W>,
                                               table: MergeTable<S, W>, base: set<WNode<S, W>>, ghost d: int)
    returns (result: Option<WNode<S, W>>)
    requires Laws(L) && Ready(L, left, right, base, table.memo, table.keepalive, d)
    requires left.WShared? && right.WShared? && 0 <= d
    modifies table
    ensures result.Some? ==> Fresh(L, result.value, left, right, base, old(table.memo), old(table.keepalive), table.memo, table.keepalive, d)
    ensures result.None? ==> table.memo == old(table.memo) && table.keepalive == old(table.keepalive)
    decreases d, 4, 1
  {
    assert UWf(left.stacks) && UWf(right.stacks) && left.stacks.paths > 0 && right.stacks.paths > 0;
    StateHeap(L, base, table.memo, table.keepalive);
    hide WNormal, WDetermined, WDepth, Below, Pins, State, Reach, WIsPop, FitsIn, Fresh, IsJoin, UWf, UPath, OnePath, UHas, UDepth, IsShared, UIsUnion;
    var pins := Pins(base, table.memo, table.keepalive);
    var same := PtrEq(left.stacks, right.stacks);
    if !same {
      same := USameSinglePath(left.stacks, right.stacks);
    }
    if same {
      SameLanguage(left.stacks, right.stacks);
      var r := MergeSameStacks(L, left, right, table, base, d);
      return Some(r);
    }
    if left.stacks.paths == 1 && right.stacks.paths == 1 {
      var prefix := UCommonSinglePathPrefix(left.stacks, right.stacks);
      if prefix != [] {
        var r := MergeSinglePaths(L, left, right, prefix, table, base, d);
        return Some(r);
      }
    }
    var sameWeight := PtrEq(left.weight, right.weight);
    if sameWeight || left.weight == right.weight {
      var both := UMerge.UMerge(left.stacks, right.stacks, Max(UDepth(left.stacks), Max(UDepth(right.stacks), -1)));
      var r := WSharedOf(L, left.weight, both, pins);
      JoinSameWeight(L, left, right, both, r);
      FreshNow(L, r, left, right, base, table.memo, table.keepalive, d);
      return Some(r);
    }
    result := None;
  }

  /** Two regions over one language become one region with the joined weight. */
  method MergeSameStacks<S(!new), W(!new)>(L: Lattice<W>, left: WNode<S, W>, right: WNode<S, W>,
                                                   table: MergeTable<S, W>, base: set<WNode<S, W>>, ghost d: int)
    returns (r: WNode<S, W>)
    requires Laws(L) && Ready(L, left, right, base, table.memo, table.keepalive, d)
    requires left.WShared? && right.WShared? && 0 <= d
    requires forall s :: UHas(left.stacks, s) <==> UHas(right.stacks, s)
    ensures Fresh(L, r, left, right, base, table.memo, table.keepalive, table.memo, table.keepalive, d)
  {
    assert UWf(left.stacks) && UWf(right.stacks);
    StateHeap(L, base, table.memo, table.keepalive);
    hide WNormal, WDetermined, WDepth, Below, Pins, State, Reach, FitsIn, Fresh, IsJoin, UWf, UHas;
    var weight := left.weight;
    var sameWeight := PtrEq(left.weight, right.weight);
    if !(sameWeight || left.weight == right.weight) {
      weight := L.join(left.weight, right.weight);
    }
    r := WSharedOf(L, weight, left.stacks, Pins(base, table.memo, table.keepalive));
    JoinSameStacks(L, left, right, weight, r);
    FreshNow(L, r, left, right, base, table.memo, table.keepalive, d);
  }

  lemma FreshNow<S(!new), W(!new)>(L: Lattice<W>, r: WNode<S, W>, left: WNode<S, W>, right: WNode<S, W>,
                                   base: set<WNode<S, W>>, memo: MemoMap<S, W>, keep: seq<WNode<S, W>>, d: int)
    requires State(L, base, memo, keep) && FitsIn(Pins(base, memo, keep), r) && WWf(r) && IsJoin(L, r, left, right)
    ensures Fresh(L, r, left, right, base, memo, keep, memo, keep, d)
  {
    GrowsRefl(base, memo, keep, d - 1);
  }

  lemma SameLanguage<S(!new)>(a: UNode<S>, b: UNode<S>)
    requires UWf(a) && UWf(b)
    requires a == b || (a.paths == 1 && b.paths == 1 && OnePath(a) && OnePath(b) && UPath(a) == UPath(b))
    ensures forall s :: UHas(a, s) <==> UHas(b, s)
  {
    hide UWf, UHas;
    if a != b {
      PathFacts(a);
      PathFacts(b);
    }
  }

  lemma JoinSameStacks<S(!new), W(!new)>(L: Lattice<W>, left: WNode<S, W>, right: WNode<S, W>, weight: W, r: WNode<S, W>)
    requires Laws(L) && left.WShared? && right.WShared?
    requires forall s :: UHas(left.stacks, s) <==> UHas(right.stacks, s)
    requires weight == L.join(left.weight, right.weight) || (left.weight == right.weight && weight == left.weight)
    requires IsShared(L, r, weight, left.stacks)
    ensures IsJoin(L, r, left, right)
  {
    UnderJoin(L, left.weight, right.weight);
  }

  lemma JoinSameWeight<S(!new), W(!new)>(L: Lattice<W>, left: WNode<S, W>, right: WNode<S, W>, both: UNode<S>, r: WNode<S, W>)
    requires left.WShared? && right.WShared? && left.weight == right.weight
    requires UIsUnion(both, left.stacks, right.stacks) && IsShared(L, r, left.weight, both)
    ensures IsJoin(L, r, left, right)
  {
  }

  /** Two single stacks that agree from the top: split off what they share. */
  method MergeSinglePaths<S(!new), W(!new)>(L: Lattice<W>, left: WNode<S, W>, right: WNode<S, W>, prefix: seq<S>,
                                                    table: MergeTable<S, W>, base: set<WNode<S, W>>, ghost d: int)
    returns (result: WNode<S, W>)
    requires Laws(L) && Ready(L, left, right, base, table.memo, table.keepalive, d)
    requires left.WShared? && right.WShared? && left.stacks.paths == 1 && right.stacks.paths == 1
    requires OnePath(left.stacks) && OnePath(right.stacks)
    requires prefix == UPath(left.stacks)[..CommonLen(UPath(left.stacks), UPath(right.stacks))] && prefix != []
    modifies table
    ensures Fresh(L, result, left, right, base, old(table.memo), old(table.keepalive), table.memo, table.keepalive, d)
    decreases d, 4, 0, 1
  {
    assert UWf(left.stacks) && UWf(right.stacks) && WDepth(left) == UDepth(left.stacks);
    StateHeap(L, base, table.memo, table.keepalive);
    PathFacts(left.stacks);
    hide WNormal, WDetermined, Below, Pins, State, Reach, WIsPop, FitsIn, Fresh, IsJoin, UWf, UHas, UDepth, UIsPop;
    PathRun(L, left, prefix);
    PathRun(L, right, prefix);
    hide WDepth, UPath, OnePath;
    var count := |prefix|;
    var pins := Pins(base, table.memo, table.keepalive);
    var leftTail := UPopn(left.stacks, count, Max(UDepth(left.stacks), -1));
    var leftRest := WSharedOf(L, left.weight, leftTail, pins);
    PopOfShared(L, left, leftTail, leftRest, count);
    FitsMore(pins, leftRest);
    var rightTail := UPopn(right.stacks, count, Max(UDepth(right.stacks), -1));
    var rightRest := WSharedOf(L, right.weight, rightTail, pins + Reach(leftRest));
    PopOfShared(L, right, rightTail, rightRest, count);
    PrefixLeavesBoth(left.stacks, right.stacks, leftTail, rightTail, count);
    assert leftRest.paths > 0 && rightRest.paths > 0;
    result := MergeRests(L, left, right, prefix, leftRest, rightRest, table, base, d);
  }

  lemma PopOfShared<S(!new), W(!new)>(L: Lattice<W>, n: WNode<S, W>, tail: UNode<S>, r: WNode<S, W>, count: nat)
    requires n.WShared? && UIsPop(tail, n.stacks, count) && IsShared(L, r, n.weight, tail)
    ensures WIsPop(L, r, n, count)
  {
    WPopShared(L, n, count);
    hide UPopHas, UHas, Below, BelowPop;
  }

  /** A single stack read under part of itself. */
  lemma PathRun<S(!new), W(!new)>(L: Lattice<W>, n: WNode<S, W>, run: seq<S>)
    requires n.WShared? && UWf(n.stacks) && n.stacks.paths == 1 && OnePath(n.stacks) && run <= UPath(n.stacks)
    ensures IsPoppedRun(L, n, run, |run|)
  {
    PathFacts(n.stacks);
    var path := UPath(n.stacks);
    WPopShared(L, n, |run|);
    hide UWf, UHas, UPath, BelowPop;
    forall s ensures UHas(n.stacks, s) <==> run <= s && UPopHas(n.stacks, |run|, s[|run|..]) {
      if run <= s && UPopHas(n.stacks, |run|, s[|run|..]) {
        var p :| |p| == |run| && UHas(n.stacks, p + s[|run|..]);
        assert p == (p + s[|run|..])[..|run|] == run;
        assert s == run + s[|run|..];
      }
      if UHas(n.stacks, s) {
        assert s == run + s[|run|..];
      }
    }
  }

  // ----- exposing tops

  /** `r` lists the alternatives of `n` by their tops; it need not be deterministic. */
  ghost predicate Exposes<S(!new), W(!new)>(L: Lattice<W>, r: WNode<S, W>, n: WNode<S, W>) {
    && r.WBranch? && |r.empty| <= 1
    && SameMeaning(L, r, n)
    && forall t, c {:trigger c in AltsAt(r.children, t)} :: c in AltsAt(r.children, t) ==> WWf(c) && WDepth(c) < WDepth(n)
  }

  method WExposeTop<S(!new), W(!new)>(L: Lattice<W>, n: WNode<S, W>, held: set<WNode<S, W>>, ghost d: int)
    returns (r: WNode<S, W>)
    requires Laws(L) && Heap(held) && n in held && WWf(n) && n.paths > 0 && WDepth(n) <= d
    ensures Exposes(L, r, n) && FitsIn(held, r)
    decreases d, 2, 0
  {
    match n
    case WBranch(_, _, _, _, _) =>
      r := n;
      FitsHeld(held, n);
      ExposedBranch(L, n);
    case WSegment(_, values, _, _, _) =>
      WEmptyIff(n);
      var rest := WAfterPrefix(L, n, 1, held, d);
      r := WSingleChild(L, n, values.First().value, rest, held);
    case WShared(_, weight, stacks, _, _) =>
      if stacks.USegment? {
        NextOfSegment(stacks);
        var tail := UAfterPrefix(stacks, 1, UDepth(stacks));
        var rest := WSharedOf(L, weight, tail, held);
        PopOfShared(L, n, tail, rest, 1);
        r := WSingleChild(L, n, stacks.values.First().value, rest, held);
      } else {
        r := WExposeShared(L, n, held);
      }
  }

  lemma ExposedBranch<S(!new), W(!new)>(L: Lattice<W>, n: WNode<S, W>)
    requires WWf(n) && n.WBranch?
    ensures Exposes(L, n, n)
  {
    forall t, c | c in AltsAt(n.children, t) ensures WWf(c) && WDepth(c) < WDepth(n) {
      WDepthChild(n, t, c);
    }
  }

  /** The exposed form of a node that starts with a run: one symbol over what is left. */
  method WSingleChild<S(!new), W(!new)>(ghost L: Lattice<W>, n: WNode<S, W>, top: S, rest: WNode<S, W>,
                                                held: set<WNode<S, W>>) returns (r: WNode<S, W>)
    requires WWf(n) && n.paths > 0 && TopRun(n).Some? && TopRun(n).value.View() != []
    requires top == TopRun(n).value.View()[0]
    requires WWf(rest) && WIsPop(L, rest, n, 1) && Closed(held) && FitsIn(held, rest)
    ensures Exposes(L, r, n) && FitsIn(held, r)
  {
    WEmptyIff(n);
    RunBelow(L, n, 1);
    assert TopRun(n).value.View()[..1] == [top];
    WPopShorter(L, n, rest, 1);
    hide WNormal, WDetermined, WDepth, WIsPop, Below, Reach, IsPoppedRun;
    FitsMore(held, rest);
    var children: WChildren<S, W> := map[];
    children := PutAlts(children, top, [rest]);
    r := WBranchOf([], children, held + Reach(rest));
    FitsLess(held, held + Reach(rest), r);
    SingleChildExposes(L, r, n, top, rest, children);
  }

  lemma FitsLess<S(!new), W(!new)>(held: set<WNode<S, W>>, more: set<WNode<S, W>>, r: WNode<S, W>)
    requires FitsIn(more, r) && held <= more && Closed(held)
    ensures FitsIn(held, r)
  {
    ReachClosed(r);
    HeapSub(more + Reach(r), held + Reach(r));
  }

  lemma SingleChildExposes<S(!new), W(!new)>(L: Lattice<W>, r: WNode<S, W>, n: WNode<S, W>, top: S, rest: WNode<S, W>,
                                             children: WChildren<S, W>)
    requires IsBranchOf(r, [], children) && WWf(rest) && WDepth(rest) < WDepth(n)
    requires forall t, c {:trigger c in AltsAt(children, t)} :: c in AltsAt(children, t) <==> t == top && c == rest
    requires IsPoppedRun(L, n, [top], 1) && WIsPop(L, rest, n, 1)
    ensures Exposes(L, r, n)
  {
    OnlyUnderTop(L, r, top, rest, children);
    hide WNormal, WDetermined, WDepth, BelowPop, Below;
    forall s, u ensures Below(L, r, s, u) <==> Below(L, n, s, u) {
      assert Below(L, n, s, u) <==> ([top] <= s ==> BelowPop(L, n, 1, s[1..], u));
    }
  }

  lemma OnlyUnderTop<S(!new), W(!new)>(L: Lattice<W>, r: WNode<S, W>, top: S, rest: WNode<S, W>, children: WChildren<S, W>)
    requires IsBranchOf(r, [], children) && WWf(rest)
    requires forall t, c {:trigger c in AltsAt(children, t)} :: c in AltsAt(children, t) <==> t == top && c == rest
    ensures IsPrefixed(L, r, [top], rest)
  {
    if rest.paths == 0 {
      EmptyBelow(L, rest);
    }
    hide WNormal, WDetermined;
    forall s, u ensures Below(L, r, s, u) <==> ([top] <= s ==> Below(L, rest, s[1..], u)) {
      if s != [] {
        assert rest in AltsAt(children, top);
      }
    }
  }

  // ----- exposing a shared branch

  /** Under every symbol `kids` carries the alternatives of `children`, all weighted alike. */
  ghost predicate ShareKids<S(!new), W(!new)>(L: Lattice<W>, kids: WChildren<S, W>, weight: W, children: UChildren<S>,
                                              todo: set<S>) {
    && (forall t, s, u {:trigger AllBelow(L, AltsAt(kids, t), s, u)} :: t !in todo ==>
          (AllBelow(L, AltsAt(kids, t), s, u) <==> (AnyHas(AltsAt(children, t), s) ==> Under(L, weight, u))))
    && (forall t {:trigger AltsAt(kids, t)} :: t in todo ==> AltsAt(kids, t) == [])
  }

  ghost predicate KidsShallow<S(!new), W(!new)>(kids: WChildren<S, W>, d: int) {
    forall t, c {:trigger c in AltsAt(kids, t)} :: c in AltsAt(kids, t) ==> WDetermined(c) && WDepth(c) < d
  }

  method WExposeShared<S(!new), W(!new)>(L: Lattice<W>, n: WNode<S, W>, held: set<WNode<S, W>>)
    returns (r: WNode<S, W>)
    requires Heap(held) && WWf(n) && n.WShared? && n.stacks.UBranch?
    ensures Exposes(L, r, n) && FitsIn(held, r)
  {
    SharedAlternatives(n);
    hide WNormal, WDetermined, UWf, WDepth, UDepth, Below;
    var empty := if n.stacks.empty then [n.weight] else [];
    var kids: WChildren<S, W> := map[];
    var live := held;
    var todo := n.stacks.children.Keys;
    while todo != {}
      invariant todo <= n.stacks.children.Keys
      invariant Heap(live) && held <= live
      invariant KidsHeld(kids, live) && KidsShallow(kids, WDepth(n))
      invariant ShareKids(L, kids, n.weight, n.stacks.children, todo)
      decreases |todo|
    {
      var t :| t in todo;
      var shared;
      shared, live := ShareAll(L, n.weight, n.stacks.children[t].nodes, live, WDepth(n));
      ShareStep(L, kids, n.weight, n.stacks.children, todo, t, shared, live, WDepth(n));
      kids := PutAlts(kids, t, shared);
      todo := todo - {t};
    }
    r := WBranchOf(empty, kids, live);
    FitsLess(held, live, r);
    ExposedShared(L, r, n, empty, kids, live);
  }

  lemma SharedAlternatives<S(!new), W(!new)>(n: WNode<S, W>)
    requires WWf(n) && n.WShared? && n.stacks.UBranch?
    ensures forall t :: t in n.stacks.children ==> AllWithin(n.stacks.children[t].nodes, WDepth(n) - 1)
    ensures UWf(n.stacks) && 0 <= WDepth(n)
  {
    SharedParts(n);
    hide WNormal, WDetermined, WDepth, UDepth, AllWithin, UWf;
    forall t | t in n.stacks.children ensures AllWithin(n.stacks.children[t].nodes, WDepth(n) - 1) {
      AlternativesWithin(n.stacks, t);
    }
  }

  lemma SharedParts<S(!new), W(!new)>(n: WNode<S, W>)
    requires WWf(n) && n.WShared?
    ensures UWf(n.stacks) && WDepth(n) == UDepth(n.stacks) >= 0
  {
    UEmptyIff(n.stacks);
  }

  lemma AlternativesWithin<S(!new)>(n: UNode<S>, t: S)
    requires UWf(n) && n.UBranch? && t in n.children
    ensures AllWithin(n.children[t].nodes, UDepth(n) - 1)
  {
    var q := n.children[t].nodes;
    hide UDepth;
    forall i | 0 <= i < |q| ensures UWf(q[i]) && UDepth(q[i]) <= UDepth(n) - 1 {
      assert q[i] in AltsAt(n.children, t);
      UDepthChild(n, t, q[i]);
    }
  }

  /** One weighted node per alternative, each allocated while the earlier ones are held. */
  method ShareAll<S(!new), W(!new)>(ghost L: Lattice<W>, weight: W, nodes: seq<UNode<S>>, held: set<WNode<S, W>>,
                                            ghost d: int)
    returns (shared: seq<WNode<S, W>>, live: set<WNode<S, W>>)
    requires Heap(held) && AllWithin(nodes, d - 1)
    ensures Heap(live) && held <= live
    ensures forall v {:trigger v in shared} :: v in shared ==> v in live && WWf(v) && WDepth(v) < Max(d, 0)
    ensures forall s, u :: AllBelow(L, shared, s, u) <==> (AnyHas(nodes, s) ==> Under(L, weight, u))
  {
    shared := [];
    live := held;
    for i := 0 to |nodes|
      invariant Heap(live) && held <= live
      invariant AllSharing(L, shared, weight, nodes[..i], live, d)
    {
      hide UWf, WNormal, WDetermined, WDepth, UDepth, Below, UHas, IsSharing, AllSharing, Reach, Heap;
      var v := WSharedOf(L, weight, nodes[i], live);
      FitsMore(live, v);
      SharingDepth(L, v, weight, nodes[i], live + Reach(v), d);
      assert nodes[..i + 1] == nodes[..i] + [nodes[i]];
      shared := shared + [v];
      live := live + Reach(v);
    }
    assert nodes[..|nodes|] == nodes;
    SharedBounds(L, shared, weight, nodes, live, d);
  }

  ghost predicate AllSharing<S(!new), W(!new)>(L: Lattice<W>, shared: seq<WNode<S, W>>, weight: W, nodes: seq<UNode<S>>,
                                               live: set<WNode<S, W>>, d: int) {
    && |shared| == |nodes|
    && forall j {:trigger shared[j]} :: 0 <= j < |shared| ==> IsSharing(L, shared[j], weight, nodes[j], live, d)
  }

  ghost predicate IsSharing<S(!new), W(!new)>(L: Lattice<W>, v: WNode<S, W>, weight: W, stacks: UNode<S>,
                                              live: set<WNode<S, W>>, d: int) {
    v in live && WWf(v) && WDepth(v) < Max(d, 0) && IsShared(L, v, weight, stacks)
  }

  lemma SharingDepth<S(!new), W(!new)>(L: Lattice<W>, v: WNode<S, W>, weight: W, stacks: UNode<S>,
                                       live: set<WNode<S, W>>, d: int)
    requires v in live && WWf(v) && UWf(stacks) && UDepth(stacks) <= d - 1 && IsShared(L, v, weight, stacks)
    requires v.paths == stacks.paths && (v.paths > 0 ==> v.WShared? && v.stacks == stacks)
    ensures IsSharing(L, v, weight, stacks, live, d)
  {
    WEmptyIff(v);
    UEmptyIff(stacks);
  }

  lemma SharedBounds<S(!new), W(!new)>(L: Lattice<W>, shared: seq<WNode<S, W>>, weight: W, nodes: seq<UNode<S>>,
                                       live: set<WNode<S, W>>, d: int)
    requires AllSharing(L, shared, weight, nodes, live, d)
    ensures forall v {:trigger v in shared} :: v in shared ==> v in live && WWf(v) && WDepth(v) < Max(d, 0)
    ensures forall s, u :: AllBelow(L, shared, s, u) <==> (AnyHas(nodes, s) ==> Under(L, weight, u))
  {
    hide WNormal, WDetermined, WDepth, UHas, Below;
    forall s, u ensures AllBelow(L, shared, s, u) <==> (AnyHas(nodes, s) ==> Under(L, weight, u)) {
      if AllBelow(L, shared, s, u) && AnyHas(nodes, s) {
        var v :| v in nodes && UHas(v, s);
        var j :| 0 <= j < |nodes| && nodes[j] == v;
        assert shared[j] in shared && Below(L, shared[j], s, u);
      }
      if AnyHas(nodes, s) ==> Under(L, weight, u) {
        forall v | v in shared ensures Below(L, v, s, u) {
          var j :| 0 <= j < |shared| && shared[j] == v;
          assert UHas(nodes[j], s) ==> nodes[j] in nodes;
        }
      }
    }
  }

  lemma ShareStep<S(!new), W(!new)>(L: Lattice<W>, kids: WChildren<S, W>, weight: W, children: UChildren<S>, todo: set<S>,
                                    t: S, shared: seq<WNode<S, W>>, live: set<WNode<S, W>>, d: int)
    requires ShareKids(L, kids, weight, children, todo) && t in todo && t in children && 0 <= d
    requires KidsShallow(kids, d)
    requires KidsHeld(kids, live)
    requires forall v {:trigger v in shared} :: v in shared ==> v in live && WWf(v) && WDepth(v) < Max(d, 0)
    requires forall s, u :: AllBelow(L, shared, s, u) <==> (AnyHas(children[t].nodes, s) ==> Under(L, weight, u))
    ensures ShareKids(L, PutAlts(kids, t, shared), weight, children, todo - {t})
    ensures KidsHeld(PutAlts(kids, t, shared), live) && KidsShallow(PutAlts(kids, t, shared), d)
  {
    hide WNormal, WDetermined, WDepth, Below, UHas, AllBelow, AnyHas;
    assert AltsAt(children, t) == children[t].nodes;
  }

  lemma ExposedShared<S(!new), W(!new)>(L: Lattice<W>, r: WNode<S, W>, n: WNode<S, W>, empty: seq<W>, kids: WChildren<S, W>,
                                        live: set<WNode<S, W>>)
    requires n.WShared? && n.stacks.UBranch?
    requires empty == if n.stacks.empty then [n.weight] else []
    requires IsBranchOf(r, empty, kids) && |r.empty| <= 1
    requires ShareKids(L, kids, n.weight, n.stacks.children, {}) && KidsHeld(kids, live) && KidsShallow(kids, WDepth(n))
    ensures Exposes(L, r, n)
  {
    hide WDepth;
    forall s, u ensures Below(L, r, s, u) <==> Below(L, n, s, u) {
      if s != [] {
        LiveAlternatives(L, r, empty, kids, live, s, u);
        assert AllBelow(L, AltsAt(kids, s[0]), s[1..], u)
          <==> (AnyHas(AltsAt(n.stacks.children, s[0]), s[1..]) ==> Under(L, n.weight, u));
      } else {
        assert n.weight in [n.weight];
      }
    }
  }

  /** Dropping dead alternatives does not change what a table bounds. */
  lemma LiveAlternatives<S(!new), W(!new)>(L: Lattice<W>, r: WNode<S, W>, empty: seq<W>, kids: WChildren<S, W>,
                                           live: set<WNode<S, W>>, s: seq<S>, u: Option<W>)
    requires IsBranchOf(r, empty, kids) && KidsHeld(kids, live) && s != []
    ensures Below(L, r, s, u) <==> AllBelow(L, AltsAt(kids, s[0]), s[1..], u)
  {
    hide WNormal, WDetermined;
    if Below(L, r, s, u) {
      forall c | c in AltsAt(kids, s[0]) ensures Below(L, c, s[1..], u) {
        if c.paths == 0 {
          EmptyBelow(L, c);
        } else {
          assert c in AltsAt(r.children, s[0]);
        }
      }
    }
  }

  // ----- merging alternatives top by top

  ghost predicate AllReady<S(!new), W(!new)>(values: seq<WNode<S, W>>, pins: set<WNode<S, W>>, d: int) {
    forall v {:trigger v in values} :: v in values ==> v in pins && WWf(v) && WDepth(v) <= d
  }

  ghost predicate Merged<S(!new), W(!new)>(L: Lattice<W>, m: WNode<S, W>, values: seq<WNode<S, W>>, pins: set<WNode<S, W>>,
                                           d: int) {
    m in pins && WWf(m) && WDepth(m) <= d && JoinOfAll(L, m, values)
  }

  /** Fold the merge over the alternatives of one symbol. */
  method MergeValues<S(!new), W(!new)>(L: Lattice<W>, values: seq<WNode<S, W>>, table: MergeTable<S, W>,
                                               base: set<WNode<S, W>>, ghost d: int) returns (merged: WNode<S, W>)
    requires Laws(L) && State(L, base, table.memo, table.keepalive) && -1 <= d && values != []
    requires AllReady(values, Pins(base, table.memo, table.keepalive), d)
    modifies table
    ensures State(L, base, table.memo, table.keepalive)
    ensures Grows(base, old(table.memo), old(table.keepalive), table.memo, table.keepalive, d)
    ensures Merged(L, merged, values, Pins(base, table.memo, table.keepalive), d)
    decreases d, 4, 4
  {
    hide WNormal, WDetermined, WDepth, Below, Pins, State, Grows, JoinOfAll;
    merged := values[0];
    JoinOfOne(L, values[0]);
    assert values[..1] == [values[0]];
    assert values[0] in values;
    GrowsRefl(base, table.memo, table.keepalive, d);
    for i := 1 to |values|
      invariant State(L, base, table.memo, table.keepalive)
      invariant Grows(base, old(table.memo), old(table.keepalive), table.memo, table.keepalive, d)
      invariant Merged(L, merged, values[..i], Pins(base, table.memo, table.keepalive), d)
    {
      assert values[i] in values;
      GrowsPins(base, old(table.memo), old(table.keepalive), table.memo, table.keepalive, d, values[i]);
      ghost var memo1, keep1 := table.memo, table.keepalive;
      var next := WMergeMemo(L, merged, values[i], table, base, d);
      JoinOfMore(L, merged, values[..i], values[i], next);
      JoinDepth(L, next, merged, values[i], d);
      GrowsTrans(L, base, old(table.memo), old(table.keepalive), memo1, keep1, table.memo, table.keepalive, d, d, d);
      assert values[..i + 1] == values[..i] + [values[i]];
      merged := next;
    }
    assert values[..|values|] == values;
  }

  lemma GrowsPins<S(!new), W(!new)>(base: set<WNode<S, W>>, memo0: MemoMap<S, W>, keep0: seq<WNode<S, W>>,
                                    memo: MemoMap<S, W>, keep: seq<WNode<S, W>>, d: int, x: WNode<S, W>)
    requires Grows(base, memo0, keep0, memo, keep, d) && x in Pins(base, memo0, keep0)
    ensures x in Pins(base, memo, keep)
  {
  }

  /** Outside `todo`, every symbol of `all` has the join of its alternatives in `children`. */
  ghost predicate TopsMerged<S(!new), W(!new)>(L: Lattice<W>, children: WChildren<S, W>, all: WChildren<S, W>,
                                               todo: set<S>, pins: set<WNode<S, W>>) {
    forall t {:trigger AltsAt(children, t)} ::
      if t in todo || AltsAt(all, t) == [] then AltsAt(children, t) == []
      else |AltsAt(children, t)| == 1 && JoinOfAll(L, AltsAt(children, t)[0], AltsAt(all, t))
           && AltsAt(children, t)[0] in pins && WWf(AltsAt(children, t)[0])
  }

  ghost predicate TableReady<S(!new), W(!new)>(all: WChildren<S, W>, pins: set<WNode<S, W>>, d: int) {
    forall t {:trigger AltsAt(all, t)} :: AllReady(AltsAt(all, t), pins, d)
  }

  method MergeAllTops<S(!new), W(!new)>(L: Lattice<W>, all: WChildren<S, W>, table: MergeTable<S, W>,
                                                base: set<WNode<S, W>>, ghost d: int) returns (children: WChildren<S, W>)
    requires Laws(L) && State(L, base, table.memo, table.keepalive) && -1 <= d
    requires TableReady(all, Pins(base, table.memo, table.keepalive), d)
    modifies table
    ensures State(L, base, table.memo, table.keepalive)
    ensures Grows(base, old(table.memo), old(table.keepalive), table.memo, table.keepalive, d)
    ensures TopsMerged(L, children, all, {}, Pins(base, table.memo, table.keepalive))
    decreases d, 4, 5
  {
    hide WNormal, WDetermined, WDepth, Below, Pins, State, Grows, JoinOfAll, TopsMerged, AllReady, Merged;
    children := map[];
    var todo := all.Keys;
    NothingMerged(L, children, all, Pins(base, table.memo, table.keepalive));
    GrowsRefl(base, table.memo, table.keepalive, d);
    while todo != {}
      invariant todo <= all.Keys
      invariant State(L, base, table.memo, table.keepalive)
      invariant Grows(base, old(table.memo), old(table.keepalive), table.memo, table.keepalive, d)
      invariant TableReady(all, Pins(base, table.memo, table.keepalive), d)
      invariant TopsMerged(L, children, all, todo, Pins(base, table.memo, table.keepalive))
      decreases |todo|
    {
      var top :| top in todo;
      ghost var memo1, keep1 := table.memo, table.keepalive;
      var values := all[top].nodes;
      assert AltsAt(all, top) == values;
      if values != [] {
        var merged := MergeValues(L, values, table, base, d);
        MergedGrows(L, children, all, todo, base, memo1, keep1, table.memo, table.keepalive, d);
        MergedStep(L, children, all, todo, top, merged, Pins(base, table.memo, table.keepalive), d);
        GrowsTrans(L, base, old(table.memo), old(table.keepalive), memo1, keep1, table.memo, table.keepalive, d, d, d);
        children := PutAlts(children, top, [merged]);
      } else {
        NoValues(L, children, all, todo, top, Pins(base, table.memo, table.keepalive));
      }
      todo := todo - {top};
    }
  }

  lemma NothingMerged<S(!new), W(!new)>(L: Lattice<W>, children: WChildren<S, W>, all: WChildren<S, W>, pins: set<WNode<S, W>>)
    requires children == map[]
    ensures TopsMerged(L, children, all, all.Keys, pins)
  {
    forall t ensures AltsAt(children, t) == [] && (t in all.Keys || AltsAt(all, t) == []) {
    }
  }

  lemma NoValues<S(!new), W(!new)>(L: Lattice<W>, children: WChildren<S, W>, all: WChildren<S, W>, todo: set<S>, top: S,
                                   pins: set<WNode<S, W>>)
    requires TopsMerged(L, children, all, todo, pins) && AltsAt(all, top) == []
    ensures TopsMerged(L, children, all, todo - {top}, pins)
  {
    hide WNormal, WDetermined, JoinOfAll;
  }

  lemma MergedGrows<S(!new), W(!new)>(L: Lattice<W>, children: WChildren<S, W>, all: WChildren<S, W>, todo: set<S>,
                                      base: set<WNode<S, W>>, memo0: MemoMap<S, W>, keep0: seq<WNode<S, W>>,
                                      memo: MemoMap<S, W>, keep: seq<WNode<S, W>>, d: int)
    requires Grows(base, memo0, keep0, memo, keep, d)
    requires TopsMerged(L, children, all, todo, Pins(base, memo0, keep0))
    requires TableReady(all, Pins(base, memo0, keep0), d)
    ensures TopsMerged(L, children, all, todo, Pins(base, memo, keep))
    ensures TableReady(all, Pins(base, memo, keep), d)
  {
    hide WNormal, WDetermined, WDepth, JoinOfAll, Pins;
  }

  lemma MergedStep<S(!new), W(!new)>(L: Lattice<W>, children: WChildren<S, W>, all: WChildren<S, W>, todo: set<S>, top: S,
                                     merged: WNode<S, W>, pins: set<WNode<S, W>>, d: int)
    requires TopsMerged(L, children, all, todo, pins) && AltsAt(all, top) != []
    requires Merged(L, merged, AltsAt(all, top), pins, d)
    ensures TopsMerged(L, PutAlts(children, top, [merged]), all, todo - {top}, pins)
  {
    hide WNormal, WDetermined, WDepth, JoinOfAll;
  }

  /** The general case: list both sides by their tops and merge symbol by symbol. */
  method MergeExposed<S(!new), W(!new)>(L: Lattice<W>, left: WNode<S, W>, right: WNode<S, W>,
                                                table: MergeTable<S, W>, base: set<WNode<S, W>>, ghost d: int)
    returns (result: WNode<S, W>)
    requires Laws(L) && Ready(L, left, right, base, table.memo, table.keepalive, d)
    requires left.paths > 0 && right.paths > 0 && 0 <= d
    modifies table
    ensures Fresh(L, result, left, right, base, old(table.memo), old(table.keepalive), table.memo, table.keepalive, d)
    decreases d, 4, 1
  {
    hide WNormal, WDetermined, WDepth, Below, Pins, State, Grows, JoinOfAll, TopsMerged, Exposes, FitsIn, Reach, TableReady;
    var pins := Pins(base, table.memo, table.keepalive);
    StateHeap(L, base, table.memo, table.keepalive);
    var exposedLeft := WExposeTop(L, left, pins, d);
    FitsMore(pins, exposedLeft);
    var exposedRight := WExposeTop(L, right, pins + Reach(exposedLeft), d);
    ghost var memo0, keep0 := table.memo, table.keepalive;
    KeepExposed(L, base, memo0, keep0, left, exposedLeft, right, exposedRight);
    if exposedLeft.addr != left.addr {
      table.keepalive := table.keepalive + [exposedLeft];
    }
    if exposedRight.addr != right.addr {
      table.keepalive := table.keepalive + [exposedRight];
    }
    ghost var memo1, keep1 := table.memo, table.keepalive;
    var empty := JoinWeights(L, exposedLeft.empty + exposedRight.empty);
    var all := Extend(map[], exposedLeft.children);
    all := Extend(all, exposedRight.children);
    AllExposed(L, left, right, exposedLeft, exposedRight, all, base, memo1, keep1, d);
    var children := MergeAllTops(L, all, table, base, d - 1);
    TopsHeld(L, children, all, Pins(base, table.memo, table.keepalive));
    StateHeap(L, base, table.memo, table.keepalive);
    result := WBranchOf(empty, children, Pins(base, table.memo, table.keepalive));
    assert WWf(result) by { hide IsBranchOf; TopsDeterministic(L, empty, children, all, Pins(base, table.memo, table.keepalive)); }
    JoinExposed(L, result, left, right, exposedLeft, exposedRight, empty, all, children,
                Pins(base, table.memo, table.keepalive));
    GrowsTrans(L, base, memo0, keep0, memo1, keep1, table.memo, table.keepalive, -1, d - 1, d - 1);
  }

  lemma KeepExposed<S(!new), W(!new)>(L: Lattice<W>, base: set<WNode<S, W>>, memo: MemoMap<S, W>, keep: seq<WNode<S, W>>,
                                      left: WNode<S, W>, x: WNode<S, W>, right: WNode<S, W>, y: WNode<S, W>)
    requires State(L, base, memo, keep)
    requires left in Pins(base, memo, keep) && right in Pins(base, memo, keep)
    requires FitsIn(Pins(base, memo, keep), x) && FitsIn(Pins(base, memo, keep) + Reach(x), y)
    ensures var keep1 := if x.addr != left.addr then keep + [x] else keep;
            var keep2 := if y.addr != right.addr then keep1 + [y] else keep1;
      State(L, base, memo, keep2) && Grows(base, memo, keep, memo, keep2, -1)
      && x in Pins(base, memo, keep2) && y in Pins(base, memo, keep2)
  {
    var keep1 := if x.addr != left.addr then keep + [x] else keep;
    KeepOne(L, base, memo, keep, left, x);
    assert left in Pins(base, memo, keep1) && right in Pins(base, memo, keep1);
    KeepOne(L, base, memo, keep1, right, y);
    var keep2 := if y.addr != right.addr then keep1 + [y] else keep1;
    GrowsTrans(L, base, memo, keep, memo, keep1, memo, keep2, -1, -1, -1);
  }

  /** An exposed node is either the live node itself or a temporary that must be kept. */
  lemma KeepOne<S(!new), W(!new)>(L: Lattice<W>, base: set<WNode<S, W>>, memo: MemoMap<S, W>, keep: seq<WNode<S, W>>,
                                  n: WNode<S, W>, x: WNode<S, W>)
    requires State(L, base, memo, keep) && n in Pins(base, memo, keep) && FitsIn(Pins(base, memo, keep), x)
    ensures var keep1 := if x.addr != n.addr then keep + [x] else keep;
      State(L, base, memo, keep1) && Grows(base, memo, keep, memo, keep1, -1) && x in Pins(base, memo, keep1)
      && Pins(base, memo, keep1) == Pins(base, memo, keep) + Reach(x)
  {
    if x.addr != n.addr {
      StateKeep(L, base, memo, keep, x);
    } else {
      ReachSelf(x);
      assert x == n;
      FitsHeld(Pins(base, memo, keep), x);
      GrowsRefl(base, memo, keep, -1);
    }
  }

  lemma AllExposed<S(!new), W(!new)>(L: Lattice<W>, left: WNode<S, W>, right: WNode<S, W>, x: WNode<S, W>, y: WNode<S, W>,
                                     all: WChildren<S, W>, base: set<WNode<S, W>>, memo: MemoMap<S, W>, keep: seq<WNode<S, W>>,
                                     d: int)
    requires State(L, base, memo, keep) && x in Pins(base, memo, keep) && y in Pins(base, memo, keep)
    requires Exposes(L, x, left) && Exposes(L, y, right) && WDepth(left) <= d && WDepth(right) <= d
    requires forall t, v {:trigger v in AltsAt(all, t)} ::
      v in AltsAt(all, t) ==> v in AltsAt(x.children, t) || v in AltsAt(y.children, t)
    ensures TableReady(all, Pins(base, memo, keep), d - 1)
  {
    var pins := Pins(base, memo, keep);
    hide WNormal, WDetermined, WDepth, Pins, EntryOk;
    forall t ensures AllReady(AltsAt(all, t), pins, d - 1) {
      forall v | v in AltsAt(all, t) ensures v in pins && WWf(v) && WDepth(v) <= d - 1 {
        if v in AltsAt(x.children, t) {
          assert IsKid(v, x);
        } else {
          assert IsKid(v, y);
        }
      }
    }
  }

  lemma TopsHeld<S(!new), W(!new)>(L: Lattice<W>, children: WChildren<S, W>, all: WChildren<S, W>, pins: set<WNode<S, W>>)
    requires TopsMerged(L, children, all, {}, pins)
    ensures KidsHeld(children, pins)
  {
    hide WNormal, WDetermined, JoinOfAll;
    forall t, c | c in AltsAt(children, t) ensures c in pins && WWf(c) {
      assert c == AltsAt(children, t)[0];
    }
  }

  lemma TopsDeterministic<S(!new), W(!new)>(L: Lattice<W>, empty: seq<W>, children: WChildren<S, W>, all: WChildren<S, W>,
                                            pins: set<WNode<S, W>>)
    requires TopsMerged(L, children, all, {}, pins) && |empty| <= 1
    ensures Deterministic(empty, children)
  {
    hide WNormal, WDetermined, JoinOfAll;
  }

  lemma JoinExposed<S(!new), W(!new)>(L: Lattice<W>, r: WNode<S, W>, left: WNode<S, W>, right: WNode<S, W>,
                                      x: WNode<S, W>, y: WNode<S, W>, empty: seq<W>, all: WChildren<S, W>,
                                      children: WChildren<S, W>, pins: set<WNode<S, W>>)
    requires Exposes(L, x, left) && Exposes(L, y, right)
    requires SameBoundsAll(L, empty, x.empty + y.empty) && IsBranchOf(r, empty, children)
    requires TopsMerged(L, children, all, {}, pins) && KidsHeld(children, pins)
    requires forall t, v {:trigger v in AltsAt(all, t)} ::
      v in AltsAt(all, t) <==> v in AltsAt(x.children, t) || v in AltsAt(y.children, t)
    ensures IsJoin(L, r, left, right)
  {
    hide WNormal, WDetermined, WDepth;
    forall s, u ensures Below(L, r, s, u) <==> Below(L, x, s, u) && Below(L, y, s, u) {
      if s == [] {
        JoinEmpties(L, r, x, y, empty, children, u);
      } else {
        LiveAlternatives(L, r, empty, children, pins, s, u);
        MergedAt(L, children, all, pins, s[0], s[1..], u);
        BothSides(L, x, y, all, s, u);
      }
    }
    hide Below;
  }

  lemma JoinEmpties<S(!new), W(!new)>(L: Lattice<W>, r: WNode<S, W>, x: WNode<S, W>, y: WNode<S, W>, empty: seq<W>,
                                      children: WChildren<S, W>, u: Option<W>)
    requires x.WBranch? && y.WBranch?
    requires SameBoundsAll(L, empty, x.empty + y.empty) && IsBranchOf(r, empty, children)
    ensures Below(L, r, [], u) <==> Below(L, x, [], u) && Below(L, y, [], u)
  {
    assert BoundsAll(L, empty, u) <==> BoundsAll(L, x.empty + y.empty, u);
    assert BoundsAll(L, x.empty + y.empty, u) <==> BoundsAll(L, x.empty, u) && BoundsAll(L, y.empty, u) by {
      assert forall w :: w in x.empty + y.empty <==> w in x.empty || w in y.empty;
    }
  }

  lemma BothSides<S(!new), W(!new)>(L: Lattice<W>, x: WNode<S, W>, y: WNode<S, W>, all: WChildren<S, W>, s: seq<S>, u: Option<W>)
    requires x.WBranch? && y.WBranch? && s != []
    requires forall t, v {:trigger v in AltsAt(all, t)} ::
      v in AltsAt(all, t) <==> v in AltsAt(x.children, t) || v in AltsAt(y.children, t)
    ensures AllBelow(L, AltsAt(all, s[0]), s[1..], u) <==> Below(L, x, s, u) && Below(L, y, s, u)
  {
    if AllBelow(L, AltsAt(all, s[0]), s[1..], u) {
      forall c | c in AltsAt(x.children, s[0]) || c in AltsAt(y.children, s[0]) ensures Below(L, c, s[1..], u) {
        assert c in AltsAt(all, s[0]);
      }
    }
  }

  lemma MergedAt<S(!new), W(!new)>(L: Lattice<W>, children: WChildren<S, W>, all: WChildren<S, W>, pins: set<WNode<S, W>>,
                                   t: S, s: seq<S>, u: Option<W>)
    requires TopsMerged(L, children, all, {}, pins)
    ensures AllBelow(L, AltsAt(children, t), s, u) <==> AllBelow(L, AltsAt(all, t), s, u)
  {
    hide WNormal, WDetermined, Below;
    if AltsAt(all, t) != [] {
      var m := AltsAt(children, t)[0];
      assert m in AltsAt(children, t);
      assert Below(L, m, s, u) <==> AllBelow(L, AltsAt(all, t), s, u);
    }
  }

  // ----- joins of many nodes

  ghost predicate AllIn<S(!new), W(!new)>(values: seq<WNode<S, W>>, d: int) {
    forall i :: 0 <= i < |values| ==> WWf(values[i]) && WDepth(values[i]) <= d
  }

  ghost predicate SameAll<S(!new), W(!new)>(L: Lattice<W>, a: seq<WNode<S, W>>, b: seq<WNode<S, W>>) {
    forall s, u :: AllBelow(L, a, s, u) <==> AllBelow(L, b, s, u)
  }

  /** One node for the pointwise join of all inputs, merged in pairs; each merge has its own memo. */
  method WMergeAll<S(!new), W(!new)>(L: Lattice<W>, values: seq<WNode<S, W>>, held: set<WNode<S, W>>, ghost d: int)
    returns (r: WNode<S, W>)
    requires Laws(L) && Closed(held) && Heap(held + ReachAll(values)) && AllIn(values, d) && -1 <= d
    ensures WWf(r) && FitsIn(held, r) && JoinOfAll(L, r, values) && WDepth(r) <= d
    decreases d, 6, 1
  {
    hide WNormal, WDetermined, WDepth, Below, Reach, ReachAll, SameAll;
    HeapSub(held + ReachAll(values), held);
    if values == [] {
      r := WEmpty(held);
      EmptyBelow(L, r);
      WEmptyIff(r);
      return;
    }
    var queue := values;
    SameAllRefl(L, queue, values);
    while |queue| > 1
      invariant queue != [] && AllIn(queue, d)
      invariant Heap(held + ReachAll(queue))
      invariant SameAll(L, queue, values)
      decreases |queue|
    {
      ghost var before := queue;
      queue := WPairUp(L, queue, held, d);
      SameAllTrans(L, queue, before, values);
    }
    r := queue[0];
    OneLeft(L, queue, values, held);
  }

  lemma OneLeft<S(!new), W(!new)>(L: Lattice<W>, queue: seq<WNode<S, W>>, values: seq<WNode<S, W>>, held: set<WNode<S, W>>)
    requires |queue| == 1 && SameAll(L, queue, values) && Heap(held + ReachAll(queue)) && Closed(held)
    ensures JoinOfAll(L, queue[0], values) && FitsIn(held, queue[0])
  {
    assert queue == [queue[0]];
    assert queue[0] in queue;
    assert ReachAll(queue) == Reach(queue[0]);
    hide Below;
    forall s, u ensures Below(L, queue[0], s, u) <==> AllBelow(L, values, s, u) {
      assert AllBelow(L, queue, s, u) <==> AllBelow(L, values, s, u);
    }
  }

  lemma SameAllRefl<S(!new), W(!new)>(L: Lattice<W>, a: seq<WNode<S, W>>, b: seq<WNode<S, W>>)
    requires a == b
    ensures SameAll(L, a, b)
  {
  }

  lemma SameAllTrans<S(!new), W(!new)>(L: Lattice<W>, a: seq<WNode<S, W>>, b: seq<WNode<S, W>>, c: seq<WNode<S, W>>)
    requires SameAll(L, a, b) && SameAll(L, b, c)
    ensures SameAll(L, a, c)
  {
    hide AllBelow;
  }

  /** One round of the tournament; an odd one out goes through unmerged. */
  method WPairUp<S(!new), W(!new)>(L: Lattice<W>, values: seq<WNode<S, W>>, held: set<WNode<S, W>>, ghost d: int)
    returns (next: seq<WNode<S, W>>)
    requires Laws(L) && Closed(held) && Heap(held + ReachAll(values)) && AllIn(values, d) && |values| > 1 && -1 <= d
    ensures AllIn(next, d) && 0 < |next| < |values|
    ensures Heap(held + ReachAll(next)) && SameAll(L, next, values)
    decreases d, 6, 0
  {
    hide WNormal, WDetermined, WDepth, Below, Reach, ReachAll, SameAll, AllBelow, IsJoin, Heap;
    next := [];
    var queue := values;
    assert next + queue == values;
    SameAllRefl(L, next + queue, values);
    while queue != []
      invariant AllIn(queue, d) && AllIn(next, d)
      invariant |queue| < |values| ==> 0 < |next| && |next| + |queue| < |values|
      invariant |queue| == |values| ==> next == []
      invariant |queue| <= |values|
      invariant Heap(held + ReachAll(next + queue))
      invariant SameAll(L, next + queue, values)
      decreases |queue|
    {
      var left := queue[0];
      if |queue| > 1 {
        var right := queue[1];
        var live := held + ReachAll(next + queue);
        InReachAll(held, next, queue);
        var both := WMerge(L, left, right, live, d);
        PairHeap(held, next, queue, both);
        SameAllPair(L, next, queue, both, values);
        queue := queue[2..];
        next := next + [both];
      } else {
        assert next + queue == (next + [left]) + queue[1..];
        queue := queue[1..];
        next := next + [left];
      }
    }
    assert next + queue == next;
  }

  lemma InReachAll<S(!new), W(!new)>(held: set<WNode<S, W>>, next: seq<WNode<S, W>>, queue: seq<WNode<S, W>>)
    requires |queue| > 1
    ensures queue[0] in held + ReachAll(next + queue) && queue[1] in held + ReachAll(next + queue)
  {
    ReachAllClosed(next + queue);
    assert queue[0] in next + queue && queue[1] in next + queue;
  }

  lemma PairHeap<S(!new), W(!new)>(held: set<WNode<S, W>>, next: seq<WNode<S, W>>, queue: seq<WNode<S, W>>, both: WNode<S, W>)
    requires |queue| > 1 && Closed(held) && FitsIn(held + ReachAll(next + queue), both)
    ensures Heap(held + ReachAll(next + [both] + queue[2..]))
  {
    var after := next + [both] + queue[2..];
    var live := held + ReachAll(next + queue) + Reach(both);
    forall m | m in ReachAll(after) ensures m in live {
      var v :| v in after && m in Reach(v);
      assert v == both || v in next + queue;
    }
    ReachAllClosed(after);
    HeapSub(live, held + ReachAll(after));
  }

  lemma SameAllPair<S(!new), W(!new)>(L: Lattice<W>, next: seq<WNode<S, W>>, queue: seq<WNode<S, W>>, both: WNode<S, W>,
                                      values: seq<WNode<S, W>>)
    requires |queue| > 1 && IsJoin(L, both, queue[0], queue[1]) && SameAll(L, next + queue, values)
    ensures SameAll(L, next + [both] + queue[2..], values)
  {
    hide Below;
    var before, after := next + queue, next + [both] + queue[2..];
    assert queue == [queue[0], queue[1]] + queue[2..];
    forall s, u ensures AllBelow(L, after, s, u) <==> AllBelow(L, before, s, u) {
      assert both in after && queue[0] in before && queue[1] in before;
      if AllBelow(L, after, s, u) {
        forall v | v in before ensures Below(L, v, s, u) {
          assert v == queue[0] || v == queue[1] || v in after;
        }
      }
      if AllBelow(L, before, s, u) {
        forall v | v in after ensures Below(L, v, s, u) {
          assert v == both || v in before;
        }
      }
    }
  }

  // ----- removing tops

  /** What is left under the first `count` symbols of each stack. */
  method WAfterPrefix<S(!new), W(!new)>(L: Lattice<W>, n: WNode<S, W>, count: nat, held: set<WNode<S, W>>, ghost d: int)
    returns (r: WNode<S, W>)
    requires Laws(L) && Heap(held) && n in held && WWf(n) && WDepth(n) <= d && 0 <= d
    ensures WWf(r) && FitsIn(held, r) && WIsPop(L, r, n, count)
    decreases d, 1, 1
  {
    if count == 0 {
      r := n;
      FitsHeld(held, n);
      WPopZero(L, n);
      return;
    }
    match n
    case WSegment(_, values, next, _, _) =>
      NextOfWSegment(n);
      assert IsKid(next, n);
      hide WNormal, WDetermined, WDepth, Below, BelowPop;
      if count < values.Len() {
        var tail := values.DropFront(count).value;
        r := WSegmentOf(L, tail, next, held);
        TailPop(L, n, count, r);
      } else {
        r := WAfterPrefix(L, next, count - values.Len(), held, d - values.Len());
        PastPop(L, n, count, r);
      }
    case WBranch(_, _, _, _, _) =>
      r := WPopn(L, n, count, held, d);
    case WShared(_, _, _, _, _) =>
      r := WPopn(L, n, count, held, d);
  }

  lemma NextOfWSegment<S(!new), W(!new)>(n: WNode<S, W>)
    requires WWf(n) && n.WSegment?
    ensures WWf(n.next) && n.values.View() != [] && 0 <= WDepth(n.next) == WDepth(n) - |n.values.View()|
  {
    WEmptyIff(n.next);
  }

  lemma TailPop<S(!new), W(!new)>(L: Lattice<W>, n: WNode<S, W>, count: nat, r: WNode<S, W>)
    requires n.WSegment? && count < |n.values.View()|
    requires IsPrefixed(L, r, n.values.View()[count..], n.next)
    ensures WIsPop(L, r, n, count)
  {
    WPopInside(L, n, count);
    hide Below, BelowPop;
  }

  lemma PastPop<S(!new), W(!new)>(L: Lattice<W>, n: WNode<S, W>, count: nat, r: WNode<S, W>)
    requires n.WSegment? && |n.values.View()| <= count
    requires WIsPop(L, r, n.next, count - |n.values.View()|)
    ensures WIsPop(L, r, n, count)
  {
    WPopPast(L, n, count);
    hide Below, BelowPop;
  }

  /** Remove exactly `count` symbols from every stack that has them, joining collisions. */
  method WPopn<S(!new), W(!new)>(L: Lattice<W>, n: WNode<S, W>, count: nat, held: set<WNode<S, W>>, ghost d: int)
    returns (r: WNode<S, W>)
    requires Laws(L) && Heap(held) && n in held && WWf(n) && WDepth(n) <= d && 0 <= d
    ensures WWf(r) && FitsIn(held, r) && WIsPop(L, r, n, count)
    ensures count == 0 ==> r == n
    decreases d, 1, if n.WSegment? then 2 else 0
  {
    if count == 0 {
      r := n;
      FitsHeld(held, n);
      WPopZero(L, n);
      return;
    }
    match n
    case WShared(_, weight, stacks, _, _) =>
      UEmptyIff(stacks);
      var tail := UPopn(stacks, count, UDepth(stacks));
      r := WSharedOf(L, weight, tail, held);
      PopOfShared(L, n, tail, r, count);
    case WSegment(_, _, _, _, _) =>
      r := WAfterPrefix(L, n, count, held, d);
    case WBranch(_, _, _, _, _) =>
      WEmptyIff(n);
      var pops := PopEach(L, n, count, held, d);
      r := WMergeAll(L, pops, held, d - 1);
      MergedPops(L, n, count, pops, r);
  }

  method PopEach<S(!new), W(!new)>(L: Lattice<W>, n: WNode<S, W>, count: nat, held: set<WNode<S, W>>, ghost d: int)
    returns (pops: seq<WNode<S, W>>)
    requires Laws(L) && Heap(held) && n in held && WWf(n) && n.WBranch? && WDepth(n) <= d && 0 <= d && count > 0
    ensures Heap(held + ReachAll(pops)) && AllIn(pops, d - 1)
    ensures forall s, u :: AllBelow(L, pops, s, u) <==> BelowPop(L, n, count, s, u)
    decreases d, 0, 0
  {
    hide WNormal, WDetermined, WDepth, Below, BelowPop, WIsPop, Reach, ReachAll;
    var flat := Flatten(n.children);
    pops := [];
    assert held + ReachAll(pops) == held by { ReachAllNone<S, W>(pops); }
    for i := 0 to |flat|
      invariant |pops| == i && AllIn(pops, d - 1) && Heap(held + ReachAll(pops))
      invariant forall j :: 0 <= j < i ==> WIsPop(L, pops[j], flat[j], count - 1)
    {
      WAlternative(n, flat, i, held);
      var live := held + ReachAll(pops);
      var p := WPopn(L, flat[i], count - 1, live, d - 1);
      WPopShorter(L, flat[i], p, count - 1);
      MorePops(held, pops, p);
      pops := pops + [p];
    }
    PoppedEach(L, n, flat, pops, count);
  }

  lemma ReachAllNone<S(!new), W(!new)>(q: seq<WNode<S, W>>)
    requires q == []
    ensures ReachAll(q) == {}
  {
  }

  lemma MorePops<S(!new), W(!new)>(held: set<WNode<S, W>>, pops: seq<WNode<S, W>>, p: WNode<S, W>)
    requires FitsIn(held + ReachAll(pops), p)
    ensures Heap(held + ReachAll(pops + [p]))
  {
    forall m ensures m in ReachAll(pops + [p]) <==> m in ReachAll(pops) || m in Reach(p) {
      if m in ReachAll(pops) {
        var v :| v in pops && m in Reach(v);
        assert v in pops + [p];
      }
      assert p in pops + [p];
    }
    assert held + ReachAll(pops + [p]) == held + ReachAll(pops) + Reach(p);
  }

  lemma WAlternative<S(!new), W(!new)>(n: WNode<S, W>, flat: seq<WNode<S, W>>, i: nat, held: set<WNode<S, W>>)
    requires WWf(n) && n.WBranch? && i < |flat| && Closed(held) && n in held
    requires forall v :: v in flat <==> exists t :: v in AltsAt(n.children, t)
    ensures flat[i] in held && WWf(flat[i]) && 0 <= WDepth(flat[i]) < WDepth(n)
  {
    assert flat[i] in flat;
    var t :| flat[i] in AltsAt(n.children, t);
    assert IsKid(flat[i], n);
    WDepthChild(n, t, flat[i]);
    WEmptyIff(flat[i]);
  }

  lemma PoppedEach<S(!new), W(!new)>(L: Lattice<W>, n: WNode<S, W>, flat: seq<WNode<S, W>>, pops: seq<WNode<S, W>>, count: nat)
    requires n.WBranch? && count > 0 && |pops| == |flat|
    requires forall v :: v in flat <==> exists t :: v in AltsAt(n.children, t)
    requires forall j :: 0 <= j < |pops| ==> WIsPop(L, pops[j], flat[j], count - 1)
    ensures forall s, u :: AllBelow(L, pops, s, u) <==> BelowPop(L, n, count, s, u)
  {
    WPopBranch(L, n, count);
    hide Below, BelowPop;
    forall s, u ensures AllBelow(L, pops, s, u) <==> AlternativesPop(L, n, count, s, u) {
      if AllBelow(L, pops, s, u) {
        forall t, c | c in AltsAt(n.children, t) ensures BelowPop(L, c, count - 1, s, u) {
          assert c in flat;
          var j :| 0 <= j < |flat| && flat[j] == c;
          assert pops[j] in pops && Below(L, pops[j], s, u);
        }
      }
      if AlternativesPop(L, n, count, s, u) {
        forall v | v in pops ensures Below(L, v, s, u) {
          var j :| 0 <= j < |pops| && pops[j] == v;
          assert flat[j] in flat;
          var t :| flat[j] in AltsAt(n.children, t);
        }
      }
    }
  }

  lemma MergedPops<S(!new), W(!new)>(L: Lattice<W>, n: WNode<S, W>, count: nat, pops: seq<WNode<S, W>>, r: WNode<S, W>)
    requires forall s, u :: AllBelow(L, pops, s, u) <==> BelowPop(L, n, count, s, u)
    requires JoinOfAll(L, r, pops)
    ensures WIsPop(L, r, n, count)
  {
    hide Below, BelowPop, AllBelow;
  }
}
