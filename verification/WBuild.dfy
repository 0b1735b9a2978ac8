/** Allocating weighted nodes: each constructor keeps the heap coherent, the invariants in
    place and the counters exact. */
module WBuild {
  import opened Weights
  import opened Segments
  import opened Counting
  import opened Pointers
  import opened Tables
  import opened UNodes
  import opened WNodes
  import opened Live

  /** `r` can live next to everything in `held`. */
  ghost predicate FitsIn<S(!new), W(!new)>(held: set<WNode<S, W>>, r: WNode<S, W>) {
    Heap(held + Reach(r))
  }

  lemma FitsHeld<S(!new), W(!new)>(held: set<WNode<S, W>>, r: WNode<S, W>)
    requires Heap(held) && r in held
    ensures FitsIn(held, r) && held + Reach(r) == held
  {
    ReachWithin(r, held);
    assert held + Reach(r) == held;
  }

  ghost predicate KidsHeld<S(!new), W(!new)>(children: WChildren<S, W>, held: set<WNode<S, W>>) {
    forall t, c {:trigger c in AltsAt(children, t)} :: c in AltsAt(children, t) ==> c in held && WNormal(c)
  }

  /** `r` is a branch with the live part of the given table. */
  ghost predicate IsBranchOf<S(!new), W(!new)>(r: WNode<S, W>, empty: seq<W>, children: WChildren<S, W>) {
    && r.WBranch? && |r.empty| <= |empty|
    && (forall w :: w in r.empty <==> w in empty)
    && (forall t, v {:trigger v in AltsAt(r.children, t)} {:trigger v in AltsAt(children, t)} ::
          v in AltsAt(r.children, t) <==> v in AltsAt(children, t) && v.paths > 0)
  }

  /** At most one weight for the empty stack, at most one alternative per symbol, and all the
      alternatives determined. */
  ghost predicate Deterministic<S(!new), W(!new)>(empty: seq<W>, children: WChildren<S, W>) {
    && |empty| <= 1
    && (forall t {:trigger AltsAt(children, t)} :: |AltsAt(children, t)| <= 1)
    && (forall t, c {:trigger c in AltsAt(children, t)} :: c in AltsAt(children, t) ==> WDetermined(c))
  }

  // ----- leaves

  method WEmpty<S(!new), W(!new)>(held: set<WNode<S, W>>) returns (r: WNode<S, W>)
    requires Heap(held)
    ensures WWf(r) && r.paths == 0 && IsBranchOf(r, [], map[]) && FitsIn(held, r)
  {
    var a := NewAddr(held);
    r := WBranch(a, [], map[], 0, 0);
    HeapGrows(held, r);
  }

  /** `r` gives `weight` to every stack of `stacks` and nothing to any other. */
  ghost predicate IsShared<S(!new), W(!new)>(L: Lattice<W>, r: WNode<S, W>, weight: W, stacks: UNode<S>) {
    forall s, u :: Below(L, r, s, u) <==> (UHas(stacks, s) ==> Under(L, weight, u))
  }

  method WSharedOf<S(!new), W(!new)>(ghost L: Lattice<W>, weight: W, stacks: UNode<S>, held: set<WNode<S, W>>)
    returns (r: WNode<S, W>)
    requires Heap(held) && UWf(stacks)
    ensures WWf(r) && FitsIn(held, r) && !r.WSegment?
    ensures IsShared(L, r, weight, stacks) && r.paths == stacks.paths
    ensures r.paths > 0 ==> r.WShared? && r.weight == weight && r.stacks == stacks
  {
    UEmptyIff(stacks);
    if UIsEmpty(stacks) {
      r := WEmpty(held);
    } else {
      var a := NewAddr(held);
      r := WShared(a, weight, stacks, stacks.paths, stacks.maxDepth);
      HeapGrows(held, r);
    }
  }

  // ----- segments

  lemma WSegmentNormal<S(!new), W(!new)>(x: WNode<S, W>)
    requires x.WSegment? && x.values.View() != [] && WNormal(x.next) && x.next.paths > 0 && !x.next.WSegment?
    requires x.paths == x.next.paths && x.maxDepth == SatAdd(|x.values.View()|, x.next.maxDepth)
    ensures WNormal(x)
  {
    WEmptyIff(x.next);
    assert WCached(x.next);
    hide WNormal, WDetermined;
    assert WCached(x);
  }

  method WSegmentOf<S(!new), W(!new)>(ghost L: Lattice<W>, values: Segment<S>, next: WNode<S, W>, held: set<WNode<S, W>>)
    returns (r: WNode<S, W>)
    requires Heap(held) && next in held && WNormal(next)
    ensures WNormal(r) && (WDetermined(next) ==> WDetermined(r))
    ensures FitsIn(held, r) && IsPrefixed(L, r, values.View(), next)
  {
    if values.IsEmpty() {
      r := next;
      FitsHeld(held, next);
      return;
    }
    if WIsEmpty(next) {
      r := WEmpty(held);
      PrefixedEmpty(L, r, values.View(), next);
      return;
    }
    var a := NewAddr(held);
    hide WNormal, WDetermined, Below, Reach;
    if next.WSegment? {
      var combined := FromTopFirst(values.View() + next.values.View());
      r := WSegment(a, combined, next.next, next.next.paths, SatAdd(combined.Len(), next.next.maxDepth));
      assert IsKid(next.next, next);
      PrefixedTwice(L, r, values.View(), next);
    } else {
      r := WSegment(a, values, next, next.paths, SatAdd(values.Len(), next.maxDepth));
    }
    WSegmentNormal(r);
    HeapGrows(held, r);
  }

  lemma PrefixedEmpty<S(!new), W(!new)>(L: Lattice<W>, r: WNode<S, W>, v: seq<S>, next: WNode<S, W>)
    requires IsBranchOf(r, [], map[]) && WNormal(next) && next.paths == 0
    ensures IsPrefixed(L, r, v, next)
  {
    WZero(next);
    hide WNormal, WDetermined;
    forall s, u ensures Below(L, r, s, u) && Below(L, next, s, u) {
      if s != [] {
        assert AltsAt<S, WNode<S, W>>(map[], s[0]) == [];
      }
    }
  }

  lemma PrefixedTwice<S(!new), W(!new)>(L: Lattice<W>, r: WNode<S, W>, v: seq<S>, next: WNode<S, W>)
    requires r.WSegment? && next.WSegment? && r.next == next.next
    requires r.values.View() == v + next.values.View()
    ensures IsPrefixed(L, r, v, next)
  {
    var w := next.values.View();
    forall s, u ensures Below(L, r, s, u) <==> (v <= s ==> Below(L, next, s[|v|..], u)) {
      PrefixSplit(v, w, s);
    }
  }

  lemma PrefixSplit<S>(v: seq<S>, w: seq<S>, s: seq<S>)
    ensures v + w <= s <==> v <= s && w <= s[|v|..]
    ensures v + w <= s ==> s[|v|..][|w|..] == s[|v + w|..]
  {
    if v <= s && w <= s[|v|..] {
      assert s == v + s[|v|..] && s[|v|..] == w + s[|v|..][|w|..];
    }
    if v + w <= s {
      assert s[|v|..][..|w|] == (v + w)[|v|..];
    }
  }

  // ----- branches

  method WRetainNonEmpty<S(!new), W(!new)>(values: seq<WNode<S, W>>) returns (kept: seq<WNode<S, W>>)
    ensures forall v {:trigger v in kept} {:trigger v in values} :: v in kept <==> v in values && v.paths > 0
    ensures |kept| <= |values|
  {
    kept := [];
    for i := 0 to |values|
      invariant forall v {:trigger v in kept} :: v in kept <==> v in values[..i] && v.paths > 0
      invariant |kept| <= i
    {
      if !WIsEmpty(values[i]) {
        kept := kept + [values[i]];
      }
    }
  }

  /** Keep the first reference to each address; among live nodes that loses nothing. */
  method DedupeAddr<S(!new), W(!new)>(values: seq<WNode<S, W>>, ghost held: set<WNode<S, W>>)
    returns (kept: seq<WNode<S, W>>)
    requires Coherent(held) && forall v :: v in values ==> v in held
    ensures forall v :: v in kept <==> v in values
    ensures |kept| <= |values|
  {
    kept := [];
    var seen: set<nat> := {};
    for i := 0 to |values|
      invariant forall v :: v in kept <==> v in values[..i]
      invariant forall a :: a in seen <==> exists v :: v in kept && v.addr == a
      invariant |kept| <= i
    {
      if values[i].addr !in seen {
        kept := kept + [values[i]];
        seen := seen + {values[i].addr};
      }
    }
  }

  /** Outside `todo`, `kept` holds just the non-empty alternatives of `children`. */
  ghost predicate WRetained<S(!new), W(!new)>(children: WChildren<S, W>, kept: WChildren<S, W>, todo: set<S>) {
    && (forall t :: t in kept ==> t in children && t !in todo && kept[t].nodes != [])
    && (forall t, v {:trigger v in AltsAt(kept, t)} ::
          v in AltsAt(kept, t) ==> v in AltsAt(children, t) && v.paths > 0)
    && (forall t, v {:trigger v in AltsAt(children, t)} ::
          v in AltsAt(children, t) && t !in todo && v.paths > 0 ==> v in AltsAt(kept, t))
    && (forall t {:trigger AltsAt(kept, t)} :: |AltsAt(kept, t)| <= |AltsAt(children, t)|)
  }

  method WRetainAlternatives<S(!new), W(!new)>(children: WChildren<S, W>, ghost held: set<WNode<S, W>>)
    returns (kept: WChildren<S, W>)
    requires Coherent(held) && KidsHeld(children, held)
    ensures WRetained(children, kept, {})
  {
    kept := map[];
    var todo := children.Keys;
    assert WRetained(children, kept, todo);
    hide WRetained;
    while todo != {}
      invariant todo <= children.Keys
      invariant WRetained(children, kept, todo)
      decreases |todo|
    {
      var t :| t in todo;
      assert AltsAt(children, t) == children[t].nodes;
      var alive := WRetainNonEmpty(children[t].nodes);
      var alts := DedupeAddr(alive, held);
      WRetainedStep(children, kept, todo, t, alts);
      if alts != [] {
        kept := PutAlts(kept, t, alts);
      }
      todo := todo - {t};
    }
  }

  lemma WRetainedStep<S(!new), W(!new)>(children: WChildren<S, W>, kept: WChildren<S, W>, todo: set<S>, t: S,
                                        alts: seq<WNode<S, W>>)
    requires WRetained(children, kept, todo) && t in todo && t in children
    requires forall v {:trigger v in alts} :: v in alts <==> v in children[t].nodes && v.paths > 0
    requires |alts| <= |children[t].nodes|
    ensures WRetained(children, if alts == [] then kept else PutAlts(kept, t, alts), todo - {t})
  {
    assert AltsAt(children, t) == children[t].nodes;
    assert AltsAt(kept, t) == [];
  }

  method WAddPaths<S(!new), W(!new)>(start: nat, nodes: seq<WNode<S, W>>) returns (n: nat)
    requires start <= MAX
    requires forall v {:trigger v in nodes} :: v in nodes ==> WCached(v)
    ensures n == Min(start + WCountAll(nodes), MAX)
  {
    n := start;
    for i := 0 to |nodes|
      invariant n <= MAX
      invariant Min(n + WCountAll(nodes[i..]), MAX) == Min(start + WCountAll(nodes), MAX)
    {
      assert nodes[i] in nodes && nodes[i..][1..] == nodes[i + 1..];
      n := SatAdd(n, nodes[i].paths);
    }
  }

  method WCountPaths<S(!new), W(!new)>(empty: seq<W>, children: WChildren<S, W>) returns (n: nat)
    requires forall t, c {:trigger c in AltsAt(children, t)} :: c in AltsAt(children, t) ==> WCached(c)
    requires |empty| <= MAX
    ensures n == Min(WCount(WBranch(0, empty, children, 0, 0)), MAX)
  {
    ghost var counts := WCounts(WBranch(0, empty, children, 0, 0));
    assert forall t :: t in children ==> t in counts && counts[t] == WCountAll(children[t].nodes);
    n := WAddTable(|empty|, children, counts);
  }

  method WAddTable<S(!new), W(!new)>(start: nat, children: WChildren<S, W>, ghost counts: map<S, nat>)
    returns (n: nat)
    requires start <= MAX
    requires forall t, c {:trigger c in AltsAt(children, t)} :: c in AltsAt(children, t) ==> WCached(c)
    requires counts.Keys == children.Keys
    requires forall t :: t in children ==> counts[t] == WCountAll(children[t].nodes)
    ensures n == Min(start + Sum(counts), MAX)
  {
    hide WCached, WCountAll, Sum;
    n := start;
    ghost var rest := counts;
    var todo := children.Keys;
    while todo != {}
      invariant todo <= children.Keys && rest.Keys == todo
      invariant forall t :: t in rest ==> rest[t] == counts[t]
      invariant n <= MAX
      invariant Min(n + Sum(rest), MAX) == Min(start + Sum(counts), MAX)
      decreases |todo|
    {
      var t :| t in todo;
      SumRemove(rest, t);
      assert AltsAt(children, t) == children[t].nodes;
      n := WAddPaths(n, children[t].nodes);
      rest := rest - {t};
      todo := todo - {t};
    }
    SumNone(rest);
  }

  method WDeepest<S(!new), W(!new)>(flat: seq<WNode<S, W>>) returns (m: nat)
    requires forall v {:trigger v in flat} :: v in flat ==> WCached(v) && WDepth(v) >= 0
    ensures forall v {:trigger v in flat} :: v in flat ==> Min(1 + WDepth(v), MAX) <= m
    ensures m == 0 || exists v :: v in flat && m == Min(1 + WDepth(v), MAX)
  {
    hide WDepth, WCount;
    m := 0;
    for i := 0 to |flat|
      invariant forall j :: 0 <= j < i ==> Min(1 + WDepth(flat[j]), MAX) <= m
      invariant m == 0 || exists v :: v in flat && m == Min(1 + WDepth(v), MAX)
    {
      assert flat[i] in flat;
      m := Max(m, SatAdd(flat[i].maxDepth, 1));
    }
  }

  lemma WDeepestIsDepth<S(!new), W(!new)>(b: WNode<S, W>, flat: seq<WNode<S, W>>, m: nat)
    requires b.WBranch?
    requires forall v {:trigger v in flat} :: v in flat <==> exists t :: v in AltsAt(b.children, t)
    requires forall v {:trigger v in flat} :: v in flat ==> WDepth(v) >= 0 && Min(1 + WDepth(v), MAX) <= m
    requires m == 0 || exists v :: v in flat && m == Min(1 + WDepth(v), MAX)
    ensures m == Min(Max(WDepth(b), 0), MAX)
  {
    hide WDepth;
    if v :| v in flat && m == Min(1 + WDepth(v), MAX) {
      var t :| v in AltsAt(b.children, t);
      WDepthChild(b, t, v);
    }
    if WDepth(b) > 0 {
      var t, c := WDeepestAlternative(b);
      assert c in flat;
    }
  }

  /** A branch deeper than its end is one deeper than some alternative. */
  lemma WDeepestAlternative<S(!new), W(!new)>(b: WNode<S, W>) returns (t: S, c: WNode<S, W>)
    requires b.WBranch? && WDepth(b) > 0
    ensures c in AltsAt(b.children, t) && WDepth(b) == 1 + WDepth(c)
  {
    var ds := set t, c | t in b.children && c in AltsAt(b.children, t) :: 1 + WDepth(c);
    assert WDepth(b) == MaxOf({if b.empty != [] then 0 else -1} + ds);
    t, c :| t in b.children && c in AltsAt(b.children, t) && WDepth(b) == 1 + WDepth(c);
  }

  lemma WCountersIrrelevant<S(!new), W(!new)>(a: WNode<S, W>, b: WNode<S, W>)
    requires a.WBranch? && b.WBranch? && a.empty == b.empty && a.children == b.children
    ensures WCount(a) == WCount(b)
  {
    assert WCounts(a) == WCounts(b);
  }

  lemma WKeptFacts<S(!new), W(!new)>(kept: WChildren<S, W>, held: set<WNode<S, W>>)
    requires KidsHeld(kept, held) && WRetained(kept, kept, {})
    ensures forall t, c {:trigger c in AltsAt(kept, t)} ::
              c in AltsAt(kept, t) ==> WCached(c) && WDepth(c) >= 0
  {
    forall t, c | c in AltsAt(kept, t) ensures WCached(c) && WDepth(c) >= 0 {
      WEmptyIff(c);
    }
  }

  /** Allocate a branch whose alternatives are all alive. */
  method WAllocBranch<S(!new), W(!new)>(empty: seq<W>, kept: WChildren<S, W>, held: set<WNode<S, W>>)
    returns (r: WNode<S, W>)
    requires Heap(held) && KidsHeld(kept, held) && WRetained(kept, kept, {}) && |empty| <= MAX
    ensures FitsIn(held, r) && WCached(r)
    ensures r.WBranch? && r.empty == empty && r.children == kept
  {
    hide WDepth, WCount;
    WKeptFacts(kept, held);
    hide WNormal, WDetermined;
    var paths := WCountPaths(empty, kept);
    var flat := Flatten(kept);
    var maxDepth := WDeepest(flat);
    var a := NewAddr(held);
    r := WBranch(a, empty, kept, paths, maxDepth);
    WDeepestIsDepth(r, flat, maxDepth);
    WCountersIrrelevant(r, WBranch(0, empty, kept, 0, 0));
    assert WCached(r);
    HeapGrows(held, r);
  }

  lemma WBranchNormal<S(!new), W(!new)>(r: WNode<S, W>, held: set<WNode<S, W>>)
    requires r.WBranch? && WCached(r) && |r.empty| <= MAX
    requires KidsHeld(r.children, held) && WRetained(r.children, r.children, {})
    ensures WNormal(r) && (Deterministic(r.empty, r.children) ==> WDetermined(r))
  {
    if Deterministic(r.empty, r.children) {
      forall t | t in r.children ensures |r.children[t].nodes| <= 1 {
        assert AltsAt(r.children, t) == r.children[t].nodes;
      }
    }
  }

  lemma DeterministicKept<S(!new), W(!new)>(empty0: seq<W>, children: WChildren<S, W>, empty: seq<W>, kept: WChildren<S, W>)
    requires Deterministic(empty0, children) && |empty| <= |empty0| && WRetained(children, kept, {})
    ensures Deterministic(empty, kept)
  {
    hide WDetermined;
    forall t ensures |AltsAt(kept, t)| <= 1 {
      assert |AltsAt(kept, t)| <= |AltsAt(children, t)|;
    }
  }

  /** A branch with its dead alternatives removed: in normal form, and determined if the table is. */
  method WBranchOf<S(!new), W(!new)>(empty0: seq<W>, children: WChildren<S, W>, held: set<WNode<S, W>>)
    returns (r: WNode<S, W>)
    requires Heap(held) && KidsHeld(children, held) && |empty0| <= MAX
    ensures FitsIn(held, r) && IsBranchOf(r, empty0, children)
    ensures WNormal(r) && (Deterministic(empty0, children) ==> WDetermined(r))
  {
    hide WNormal, WDetermined;
    var empty := DedupePtr(empty0);
    var kept := WRetainAlternatives(children, held);
    if empty == [] && kept == map[] {
      r := WEmpty(held);
    } else {
      r := WAllocBranch(empty, kept, held);
      WBranchNormal(r, held);
      if Deterministic(empty0, children) {
        DeterministicKept(empty0, children, empty, kept);
      }
    }
  }
}
