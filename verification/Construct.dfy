/** Constructing graphs from explicit stacks, given bottom first. */
module Construct {
  import opened Weights
  import opened Segments
  import opened UNodes
  import opened UMerge
  import opened WNodes
  import opened Live
  import opened WBuild
  import opened WMerge
  import opened Meaning
  import opened Arenas
  import opened Floors

  // ----- one stack

  /** `n` means just the bottom-first `stack` with `weight`. */
  ghost predicate MeansOne<S(!new), W(!new)>(L: Lattice<W>, n: WNode<S, W>, stack: seq<S>, weight: W) {
    forall s :: Den(L, n, s) == if s == Rev(stack) then Some(weight) else None
  }

  method FromStack<S(!new), W(!new)>(ghost L: Lattice<W>, stack: seq<S>, weight: W, held: set<WNode<S, W>>)
    returns (r: WNode<S, W>)
    requires Heap(held)
    ensures WWf(r) && FitsIn(held, r) && MeansOne(L, r, stack, weight)
  {
    var stacks := if stack == [] then UEnd() else USegmentOf(FromTopFirst(Rev(stack)), UEnd());
    OneStack(stack);
    r := WSharedOf(L, weight, stacks, held);
    SharedMeans(L, r, weight, stacks);
  }

  lemma OneStack<S(!new)>(stack: seq<S>)
    ensures var stacks := if stack == [] then UEnd() else USegmentOf(FromTopFirst(Rev(stack)), UEnd());
            UWf(stacks) && stacks.paths > 0 && forall s :: UHas(stacks, s) <==> s == Rev(stack)
  {
    UEndWf<S>();
    var run := FromTopFirst(Rev(stack));
    USegmentOfWf(run, UEnd<S>());
    USegmentOfHas(run, UEnd<S>());
    hide UHas, UWf;
    forall s ensures run.View() <= s && UHas(UEnd(), s[|run.View()|..]) <==> s == Rev(stack) {
      CutAt(Rev(stack), [], s);
      assert Rev(stack) + [] == Rev(stack);
    }
  }

  /** A shared region means its weight on each of its stacks. */
  lemma SharedMeans<S(!new), W(!new)>(L: Lattice<W>, r: WNode<S, W>, weight: W, stacks: UNode<S>)
    requires WWf(r) && r.paths == stacks.paths && UWf(stacks)
    requires r.paths > 0 ==> r.WShared? && r.weight == weight && r.stacks == stacks
    ensures forall s :: Den(L, r, s) == if UHas(stacks, s) then Some(weight) else None
  {
    UEmptyIff(stacks);
    WEmptyIff(r);
    assert JoinAll(L, [weight]) == Some(weight) by {
      assert [weight][1..] == [] && JoinAll(L, [weight][1..]) == None;
    }
    if r.paths == 0 {
      forall s ensures Den(L, r, s) == None {
        DenSome(L, r, s);
      }
    }
  }

  // ----- several stacks with one weight

  ghost predicate MeansEach<S(!new), W(!new)>(L: Lattice<W>, n: WNode<S, W>, stacks: seq<seq<S>>, weight: W) {
    forall k: seq<S> {:trigger k in stacks} {:trigger Rev(k)} ::
      Den(L, n, Rev(k)) == if k in stacks then Some(weight) else None
  }

  method FromStacksWithWeight<S(!new), W(!new)>(ghost L: Lattice<W>, stacks: seq<seq<S>>, weight: W,
                                                        held: set<WNode<S, W>>) returns (r: WNode<S, W>)
    requires Heap(held)
    ensures WWf(r) && FitsIn(held, r) && MeansEach(L, r, stacks, weight)
  {
    hide UWf, UHas, WNormal, WDetermined, Den, Floor, Shared, Node;
    var cells, ids := SharedStackRefs(stacks);
    RefsRead(stacks, cells, ids);
    var refs := Nodes(cells, ids);
    ghost var d := RefsWithin(stacks, refs);
    var merged := UMergeAll(refs, d);
    r := WSharedOf(L, weight, merged, held);
    SharedMeans(L, r, weight, merged);
    forall k: seq<S> ensures UHas(merged, Rev(k)) <==> k in stacks {
      RefsSpell(stacks, refs, k);
    }
  }

  lemma RefsRead<S(!new)>(stacks: seq<seq<S>>, cells: seq<Cell<S>>, ids: seq<nat>)
    requires Shared(stacks, cells, ids)
    ensures Linked(cells) && |ids| == |stacks| && forall k :: 0 <= k < |ids| ==> ids[k] < |cells|
    ensures forall k :: 0 <= k < |ids| ==> Node(cells, ids[k]) == Floor(stacks, stacks[k])
  {
  }

  lemma RefsWithin<S(!new)>(stacks: seq<seq<S>>, refs: seq<UNode<S>>) returns (d: int)
    requires |refs| == |stacks| && forall k :: 0 <= k < |refs| ==> refs[k] == Floor(stacks, stacks[k])
    ensures AllWithin(refs, d) && -1 <= d
  {
    forall k | 0 <= k < |refs| ensures UWf(refs[k]) {
      FloorLanguage(stacks, stacks[k]);
    }
    d := Deepest(refs);
  }

  lemma {:induction false} Deepest<S(!new)>(refs: seq<UNode<S>>) returns (d: int)
    requires forall k :: 0 <= k < |refs| ==> UWf(refs[k])
    ensures AllWithin(refs, d) && -1 <= d
  {
    d := -1;
    if refs != [] {
      var most := refs[..|refs| - 1];
      var e := Deepest(most);
      var last := refs[|refs| - 1];
      d := if e < UDepth(last) then UDepth(last) else e;
      OneMoreWithin(refs, d, e);
    }
  }

  lemma OneMoreWithin<S(!new)>(refs: seq<UNode<S>>, d: int, e: int)
    requires refs != [] && AllWithin(refs[..|refs| - 1], e) && e <= d
    requires UWf(refs[|refs| - 1]) && UDepth(refs[|refs| - 1]) <= d
    ensures AllWithin(refs, d)
  {
    hide UWf, UDepth;
    forall i | 0 <= i < |refs| ensures UWf(refs[i]) && UDepth(refs[i]) <= d {
      assert i < |refs| - 1 ==> refs[i] == refs[..|refs| - 1][i];
    }
  }

  lemma RefsSpell<S(!new)>(stacks: seq<seq<S>>, refs: seq<UNode<S>>, k: seq<S>)
    requires |refs| == |stacks| && forall i :: 0 <= i < |refs| ==> refs[i] == Floor(stacks, stacks[i])
    ensures AnyHas(refs, Rev(k)) <==> k in stacks
  {
    forall i | 0 <= i < |refs| ensures UHas(refs[i], Rev(k)) <==> stacks[i] == k {
      FloorLanguage(stacks, stacks[i]);
      RevRev(k);
      RevRev(stacks[i]);
    }
    if k in stacks {
      var i :| 0 <= i < |stacks| && stacks[i] == k;
      assert refs[i] in refs;
    }
  }

  // ----- stacks with their own weights

  /** The weights listed for the bottom-first stack `k`. */
  function Listed<S(==), W>(entries: seq<(seq<S>, W)>, k: seq<S>): seq<W> {
    if entries == [] then []
    else
      var last := entries[|entries| - 1];
      Listed(entries[..|entries| - 1], k) + if last.0 == k then [last.1] else []
  }

  /** `n` means, for every stack, the join of the weights listed for it. */
  ghost predicate MeansListed<S(!new), W(!new)>(L: Lattice<W>, n: WNode<S, W>, entries: seq<(seq<S>, W)>) {
    forall k: seq<S> {:trigger Rev(k)} {:trigger Listed(entries, k)} :: Den(L, n, Rev(k)) == JoinAll(L, Listed(entries, k))
  }

  /** The regions allocated for the entries so far. */
  ghost predicate Regions<S(!new), W(!new)>(L: Lattice<W>, values: seq<WNode<S, W>>, entries: seq<(seq<S>, W)>,
                                            held: set<WNode<S, W>>, d: int) {
    && AllIn(values, d) && -1 <= d
    && Heap(held + ReachAll(values))
    && forall k: seq<S>, u {:trigger AllBelow(L, values, Rev(k), u)} ::
         AllBelow(L, values, Rev(k), u) <==> AllUnder(L, Listed(entries, k), u)
  }

  method FromStacks<S(!new), W(!new)>(L: Lattice<W>, entries: seq<(seq<S>, W)>, held: set<WNode<S, W>>)
    returns (r: WNode<S, W>)
    requires Laws(L) && Heap(held)
    ensures WWf(r) && FitsIn(held, r) && MeansListed(L, r, entries)
  {
    hide WNormal, WDetermined, UWf, Den, Below, Reach, ReachAll, Floor, Regions, Listed, Shared, Node;
    var stacks := Firsts(entries);
    var cells, ids := SharedStackRefs(stacks);
    RefsRead(stacks, cells, ids);
    var refs := Nodes(cells, ids);
    var values: seq<WNode<S, W>> := [];
    ghost var d := -1;
    NoRegions(L, held, entries[..0]);
    for i := 0 to |entries|
      invariant Regions(L, values, entries[..i], held, d)
    {
      FloorLanguage(stacks, stacks[i]);
      RegionsHeap(L, values, entries[..i], held, d);
      var region := WSharedOf(L, entries[i].1, refs[i], held + ReachAll(values));
      d := OneRegionMore(L, values, entries, i, held, d, region, refs[i]);
      values := values + [region];
    }
    RegionsHeap(L, values, entries[..|entries|], held, d);
    r := WMergeAll(L, values, held, d);
    assert entries[..|entries|] == entries;
    RegionsMean(L, values, entries, held, d, r);
  }

  function Firsts<S, W>(entries: seq<(seq<S>, W)>): (r: seq<seq<S>>)
    ensures |r| == |entries| && forall i :: 0 <= i < |r| ==> r[i] == entries[i].0
  {
    seq(|entries|, i requires 0 <= i < |entries| => entries[i].0)
  }

  lemma NoRegions<S(!new), W(!new)>(L: Lattice<W>, held: set<WNode<S, W>>, none: seq<(seq<S>, W)>)
    requires Heap(held) && none == []
    ensures Regions(L, [], none, held, -1)
  {
    assert ReachAll<S, W>([]) == {};
    assert held + {} == held;
  }

  lemma RegionsHeap<S(!new), W(!new)>(L: Lattice<W>, values: seq<WNode<S, W>>, entries: seq<(seq<S>, W)>,
                                      held: set<WNode<S, W>>, d: int)
    requires Regions(L, values, entries, held, d)
    ensures Heap(held + ReachAll(values)) && AllIn(values, d) && -1 <= d
  {
  }

  lemma OneRegionMore<S(!new), W(!new)>(L: Lattice<W>, values: seq<WNode<S, W>>, entries: seq<(seq<S>, W)>, i: nat,
                                        held: set<WNode<S, W>>, d: int, region: WNode<S, W>, stack: UNode<S>)
    returns (e: int)
    requires i < |entries| && Regions(L, values, entries[..i], held, d)
    requires WWf(region) && FitsIn(held + ReachAll(values), region)
    requires IsShared(L, region, entries[i].1, stack)
    requires forall s :: UHas(stack, s) <==> s == Rev(entries[i].0)
    ensures Regions(L, values + [region], entries[..i + 1], held, e)
  {
    var more := values + [region];
    e := if d < WDepth(region) then WDepth(region) else d;
    hide WNormal, WDetermined, WDepth, Below, Reach, UHas;
    assert ReachAll(more) == ReachAll(values) + Reach(region);
    assert held + ReachAll(more) == held + ReachAll(values) + Reach(region);
    hide ReachAll;
    forall k: seq<S>, u ensures AllBelow(L, more, Rev(k), u) <==> AllUnder(L, Listed(entries[..i + 1], k), u) {
      AllBelowMore(L, values, region, Rev(k), u);
      assert AllBelow(L, values, Rev(k), u) <==> AllUnder(L, Listed(entries[..i], k), u);
      assert Below(L, region, Rev(k), u) <==> (UHas(stack, Rev(k)) ==> Under(L, entries[i].1, u));
      ListedMore(L, entries, i, k, u);
      RevRev(k);
      RevRev(entries[i].0);
    }
  }

  lemma ListedMore<S(!new), W(!new)>(L: Lattice<W>, entries: seq<(seq<S>, W)>, i: nat, k: seq<S>, u: Option<W>)
    requires i < |entries|
    ensures AllUnder(L, Listed(entries[..i + 1], k), u)
       <==> AllUnder(L, Listed(entries[..i], k), u) && (k == entries[i].0 ==> Under(L, entries[i].1, u))
  {
    assert entries[..i + 1][..i] == entries[..i];
    var ws := Listed(entries[..i], k);
    assert forall w :: w in ws + [entries[i].1] <==> w in ws || w == entries[i].1;
  }

  /** Whatever the tournament order, the merged regions mean the listed joins. */
  lemma RegionsMean<S(!new), W(!new)>(L: Lattice<W>, values: seq<WNode<S, W>>, entries: seq<(seq<S>, W)>,
                                      held: set<WNode<S, W>>, d: int, r: WNode<S, W>)
    requires Laws(L) && Regions(L, values, entries, held, d) && JoinOfAll(L, r, values)
    ensures MeansListed(L, r, entries)
  {
    hide Below, WNormal, WDetermined, Reach, AllBelow, Den, Listed;
    forall k: seq<S> ensures Den(L, r, Rev(k)) == JoinAll(L, Listed(entries, k)) {
      DenBounds(L, r, Rev(k));
      JoinAllBounds(L, Listed(entries, k));
      forall u ensures OptUnder(L, Den(L, r, Rev(k)), u) <==> OptUnder(L, JoinAll(L, Listed(entries, k)), u) {
        assert Below(L, r, Rev(k), u) <==> AllBelow(L, values, Rev(k), u);
      }
      SameBounds(L, Den(L, r, Rev(k)), JoinAll(L, Listed(entries, k)));
    }
  }
}
