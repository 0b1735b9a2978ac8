/** Whole runs: any sequence of operations on any snapshots, next to the explicit model. */
module Run {
  import opened Weights
  import opened Counting
  import opened Segments
  import opened WNodes
  import opened Live
  import opened WBuild
  import opened WMerge
  import opened WOps
  import opened Construct
  import opened Meaning
  import opened MapWeights
  import opened Model

  /** One call of the interface. The numbers choose earlier snapshots, counted around. */
  datatype Op<S(==), !W> =
    | New
    | FromStack(stack: seq<S>, weight: W)
    | FromStacksWithWeight(stacks: seq<seq<S>>, weight: W)
    | FromStacks(entries: seq<(seq<S>, W)>)
    | Merge(i: nat, j: nat)
    | Push(i: nat, symbol: S)
    | Pop(i: nat)
    | Popn(i: nat, count: nat)
    | RetainTop(i: nat, top: S)
    | RetainEmpty(i: nat)
    | PopTop(i: nat, top: S)
    | FilterMap(i: nat, f: W -> Option<W>)
    | Drop(i: nat)

  /** The snapshot an operation means. */
  function Slot(i: nat, count: nat): (k: nat)
    requires count > 0
    ensures k < count
  {
    i % count
  }

  /** What the operation yields on the explicit models of the snapshots. */
  ghost function Result<S(!new), W(!new)>(L: Lattice<W>, models: seq<Explicit<S, W>>, op: Op<S, W>): Explicit<S, W>
    requires models != [] && !op.Drop?
  {
    match op
    case New => map[]
    case FromStack(stack, weight) => map[stack := weight]
    case FromStacksWithWeight(stacks, weight) => Uniform(stacks, weight)
    case FromStacks(entries) => Canonical(L, entries)
    case Merge(i, j) => Model.Merged(L, models[Slot(i, |models|)], models[Slot(j, |models|)])
    case Push(i, x) => Pushed(models[Slot(i, |models|)], x)
    case Pop(i) => Popped(L, models[Slot(i, |models|)], 1)
    case Popn(i, k) => Popped(L, models[Slot(i, |models|)], k)
    case RetainTop(i, t) => Retained(models[Slot(i, |models|)], t)
    case RetainEmpty(i) => Bottom(models[Slot(i, |models|)])
    case PopTop(i, t) => UnderTop(models[Slot(i, |models|)], t)
    case FilterMap(i, f) => Mapped(models[Slot(i, |models|)], f)
  }

  function Without<T>(q: seq<T>, i: nat): (r: seq<T>)
    requires q != []
    ensures q != [] && |q| > 1 ==> |r| == |q| - 1
    ensures r != []
  {
    if |q| == 1 then q else q[..Slot(i, |q|)] + q[Slot(i, |q|) + 1..]
  }

  /** A new snapshot is added at the end; every older one stays as it was. */
  ghost function Step<S(!new), W(!new)>(L: Lattice<W>, models: seq<Explicit<S, W>>, op: Op<S, W>): (r: seq<Explicit<S, W>>)
    requires models != []
    ensures r != []
  {
    if op.Drop? then Without(models, op.i) else models + [Result(L, models, op)]
  }

  ghost function Models<S(!new), W(!new)>(L: Lattice<W>, ops: seq<Op<S, W>>): (r: seq<Explicit<S, W>>)
    ensures r != []
  {
    if ops == [] then [map[]] else Step(L, Models(L, ops[..|ops| - 1]), ops[|ops| - 1])
  }

  // ----- what the models of a run are, operation by operation

  lemma NextModels<S(!new), W(!new)>(L: Lattice<W>, ops: seq<Op<S, W>>, op: Op<S, W>)
    ensures Models(L, ops + [op]) == Step(L, Models(L, ops), op)
  {
    assert (ops + [op])[..|ops|] == ops;
  }

  /** A run begins with one empty map. */
  lemma AtFirst<S(!new), W(!new)>(L: Lattice<W>)
    ensures Models<S, W>(L, []) == [map[]]
  {
  }

  /** Every operation but a drop adds one map and leaves the older ones alone. */
  lemma OlderKept<S(!new), W(!new)>(L: Lattice<W>, ops: seq<Op<S, W>>, op: Op<S, W>)
    requires !op.Drop?
    ensures |Models(L, ops + [op])| == |Models(L, ops)| + 1
    ensures Models(L, ops) < Models(L, ops + [op])
  {
    NextModels(L, ops, op);
  }

  /** A drop takes out the one map meant, unless it is the last; what came after it moves up. */
  lemma DropsOne<S(!new), W(!new)>(L: Lattice<W>, ops: seq<Op<S, W>>, i: nat)
    ensures var before, after := Models(L, ops), Models(L, ops + [Drop(i)]);
            if |before| == 1 then after == before
            else
              && |after| == |before| - 1
              && (forall j :: 0 <= j < i % |before| ==> after[j] == before[j])
              && (forall j :: i % |before| < j < |before| ==> after[j - 1] == before[j])
  {
    NextModels(L, ops, Drop(i));
  }

  /** The map a constructor adds. */
  lemma AddsListed<S(!new), W(!new)>(L: Lattice<W>, ops: seq<Op<S, W>>, op: Op<S, W>, k: seq<S>, u: Option<W>)
    requires Laws(L) && !op.Drop?
    ensures var after := Models(L, ops + [op]);
            var last := Look(after[|after| - 1], k);
            && (op.New? ==> last == None)
            && (op.FromStack? ==> last == if k == op.stack then Some(op.weight) else None)
            && (op.FromStacksWithWeight? ==> last == if k in op.stacks then Some(op.weight) else None)
            && (op.FromStacks? ==>
                  (OptUnder(L, last, u)
                   <==> forall e :: e in op.entries && e.0 == k ==> Under(L, e.1, u)))
  {
    NextModels(L, ops, op);
    if op.FromStacks? {
      CanonicalBounds(L, op.entries, k);
      ListedUnder(L, op.entries, k, u);
    }
  }

  lemma {:induction false} ListedUnder<S(!new), W(!new)>(L: Lattice<W>, entries: seq<(seq<S>, W)>, k: seq<S>, u: Option<W>)
    ensures AllUnder(L, Listed(entries, k), u) <==> forall e :: e in entries && e.0 == k ==> Under(L, e.1, u)
  {
    if entries != [] {
      var most, last := entries[..|entries| - 1], entries[|entries| - 1];
      ListedUnder(L, most, k, u);
      assert entries == most + [last];
      AllUnderMore(L, Listed(most, k), last.1, u);
    }
  }

  lemma AllUnderMore<W(!new)>(L: Lattice<W>, ws: seq<W>, w: W, u: Option<W>)
    ensures AllUnder(L, ws + [w], u) <==> AllUnder(L, ws, u) && Under(L, w, u)
  {
    assert forall v :: v in ws + [w] <==> v in ws || v == w;
  }

  /** A push puts its symbol on every stack of the map meant. */
  lemma AddsPushed<S(!new), W(!new)>(L: Lattice<W>, ops: seq<Op<S, W>>, i: nat, x: S, k: seq<S>)
    ensures var before, after := Models(L, ops), Models(L, ops + [Push(i, x)]);
            var m := before[i % |before|];
            Look(after[|after| - 1], k) == if k != [] && k[|k| - 1] == x then Look(m, k[..|k| - 1]) else None
  {
    NextModels(L, ops, Push(i, x));
    PushedAt(Models(L, ops)[i % |Models(L, ops)|], x, k);
  }

  /** A pop gives a stack the join of the weights of all stacks of the map meant that are that
      stack under as many symbols as are popped, and nothing if there is none. */
  lemma AddsPopped<S(!new), W(!new)>(L: Lattice<W>, ops: seq<Op<S, W>>, op: Op<S, W>, k: seq<S>, u: Option<W>)
    requires Laws(L) && (op.Pop? || op.Popn?)
    ensures var before, after := Models(L, ops), Models(L, ops + [op]);
            var m, count := before[op.i % |before|], if op.Pop? then 1 else op.count;
            OptUnder(L, Look(after[|after| - 1], k), u)
            <==> forall j :: j in m && |j| == |k| + count && k <= j ==> Under(L, m[j], u)
  {
    NextModels(L, ops, op);
    var m, count := Models(L, ops)[op.i % |Models(L, ops)|], if op.Pop? then 1 else op.count;
    PoppedLook(L, m, count, k);
    JoinKeysBounds(L, m, Above(m, k, count));
    hide Popped, JoinKeys;
  }

  /** The map added by merging, selecting from, or reweighting the maps meant. */
  lemma AddsChosen<S(!new), W(!new)>(L: Lattice<W>, ops: seq<Op<S, W>>, op: Op<S, W>, k: seq<S>)
    requires op.Merge? || op.RetainTop? || op.RetainEmpty? || op.PopTop? || op.FilterMap?
    ensures var before, after := Models(L, ops), Models(L, ops + [op]);
            var m, last := before[op.i % |before|], Look(after[|after| - 1], k);
            && (op.Merge? ==> last == JoinOpt(L, Look(m, k), Look(before[op.j % |before|], k)))
            && (op.RetainTop? ==> last == if k != [] && k[|k| - 1] == op.top then Look(m, k) else None)
            && (op.RetainEmpty? ==> last == if k == [] then Look(m, k) else None)
            && (op.PopTop? ==> last == Look(m, k + [op.top]))
            && (op.FilterMap? ==> last == if k in m then op.f(m[k]) else None)
  {
    NextModels(L, ops, op);
    if op.PopTop? {
      assert (k + [op.top])[..|k|] == k;
    }
  }

  // ----- running

  /** Every snapshot is well formed and means its model, and all of them share one coherent heap. */
  ghost predicate Agree<S(!new), W(!new)>(L: Lattice<W>, snapshots: seq<WNode<S, W>>, models: seq<Explicit<S, W>>) {
    && |snapshots| == |models| > 0
    && Heap(ReachAll(snapshots))
    && forall i {:trigger snapshots[i]} :: 0 <= i < |snapshots| ==> WWf(snapshots[i]) && Represents(L, snapshots[i], models[i])
  }

  /** After any run, every snapshot that was kept, however old, means what its model says. */
  method Execute<S(!new), W(==, !new)>(L: Lattice<W>, ops: seq<Op<S, W>>) returns (snapshots: seq<WNode<S, W>>)
    requires Laws(L)
    ensures Agree(L, snapshots, Models(L, ops))
  {
    hide Agree, Step;
    var first := WEmpty<S, W>({});
    FirstAgrees(L, first);
    snapshots := [first];
    for k := 0 to |ops|
      invariant Agree(L, snapshots, Models(L, ops[..k]))
    {
      assert ops[..k + 1][..k] == ops[..k] && ops[..k + 1][k] == ops[k];
      snapshots := Apply(L, snapshots, Models(L, ops[..k]), ops[k]);
    }
    assert ops[..|ops|] == ops;
  }

  lemma FirstAgrees<S(!new), W(!new)>(L: Lattice<W>, first: WNode<S, W>)
    requires WWf(first) && first.paths == 0 && FitsIn({}, first)
    ensures Agree(L, [first], [map[]])
  {
    EmptyModel(L, first);
    assert ReachAll([first]) == Reach(first) == {} + Reach(first);
  }

  /** What agreement says of each snapshot by itself, and of the nodes behind any two. */
  lemma Kept<S(!new), W(!new)>(L: Lattice<W>, snapshots: seq<WNode<S, W>>, models: seq<Explicit<S, W>>)
    requires Agree(L, snapshots, models)
    ensures |snapshots| == |models|
    ensures forall i, s :: 0 <= i < |snapshots| ==> WWf(snapshots[i]) && Den(L, snapshots[i], s) == Look(models[i], Rev(s))
    ensures forall i, j, a, b ::
              0 <= i < |snapshots| && 0 <= j < |snapshots| && a in Reach(snapshots[i]) && b in Reach(snapshots[j]) ==>
                (a.addr == b.addr ==> a == b)
  {
    hide WNormal, WDetermined, Den, Reach, Rev;
    forall i, a | 0 <= i < |snapshots| && a in Reach(snapshots[i]) ensures a in ReachAll(snapshots) {
      assert snapshots[i] in snapshots;
      ReachAllClosed(snapshots);
      ReachWithin(snapshots[i], ReachAll(snapshots));
    }
  }

  /** One step of a run. */
  method Apply<S(!new), W(!new)>(L: Lattice<W>, snapshots: seq<WNode<S, W>>, ghost models: seq<Explicit<S, W>>, op: Op<S, W>)
    returns (after: seq<WNode<S, W>>)
    requires Laws(L) && Agree(L, snapshots, models)
    ensures models != [] && Agree(L, after, Step(L, models, op))
  {
    hide Agree, Represents, WNormal, WDetermined, FitsIn, Result, Without;
    Counts(L, snapshots, models);
    if op.Drop? {
      after := Without(snapshots, op.i);
      Dropped(L, snapshots, models, op.i);
      return;
    }
    var r;
    if op.New? || op.FromStack? || op.FromStacksWithWeight? || op.FromStacks? {
      r := Constructed(L, snapshots, models, op);
    } else if op.Merge? {
      r := Joined(L, snapshots, models, op);
    } else if op.FilterMap? {
      r := Reweighted(L, snapshots, models, op);
    } else if op.Push? || op.Pop? || op.Popn? {
      r := Moved(L, snapshots, models, op);
    } else {
      r := Selected(L, snapshots, models, op);
    }
    after := snapshots + [r];
    Added(L, snapshots, models, r, Result(L, models, op));
  }

  lemma Added<S(!new), W(!new)>(L: Lattice<W>, snapshots: seq<WNode<S, W>>, models: seq<Explicit<S, W>>,
                                r: WNode<S, W>, m: Explicit<S, W>)
    requires Agree(L, snapshots, models)
    requires WWf(r) && FitsIn(ReachAll(snapshots), r) && Represents(L, r, m)
    ensures Agree(L, snapshots + [r], models + [m])
  {
    hide WNormal, WDetermined, Represents, Reach;
    assert ReachAll(snapshots + [r]) == ReachAll(snapshots) + Reach(r);
  }

  lemma Counts<S(!new), W(!new)>(L: Lattice<W>, snapshots: seq<WNode<S, W>>, models: seq<Explicit<S, W>>)
    requires Agree(L, snapshots, models)
    ensures |snapshots| == |models| > 0 && Heap(ReachAll(snapshots))
  {
  }

  lemma At<S(!new), W(!new)>(L: Lattice<W>, snapshots: seq<WNode<S, W>>, models: seq<Explicit<S, W>>, i: nat)
    requires Agree(L, snapshots, models)
    ensures |snapshots| == |models| > 0
    ensures var n := snapshots[Slot(i, |models|)];
            WWf(n) && Represents(L, n, models[Slot(i, |models|)]) && n in ReachAll(snapshots)
  {
    var n := snapshots[Slot(i, |models|)];
    hide WNormal, WDetermined, Represents, Reach;
    ReachAllClosed(snapshots);
    assert n in snapshots;
  }

  /** Operations that start from explicit stacks. */
  method Constructed<S(!new), W(!new)>(L: Lattice<W>, snapshots: seq<WNode<S, W>>, ghost models: seq<Explicit<S, W>>,
                                               op: Op<S, W>) returns (r: WNode<S, W>)
    requires Laws(L) && Agree(L, snapshots, models) && models != []
    requires op.New? || op.FromStack? || op.FromStacksWithWeight? || op.FromStacks?
    ensures WWf(r) && FitsIn(ReachAll(snapshots), r) && Represents(L, r, Result(L, models, op))
  {
    Counts(L, snapshots, models);
    hide Agree, WNormal, WDetermined, Represents, ReachAll;
    var held := ReachAll(snapshots);
    match op
    case New =>
      r := WEmpty(held);
      EmptyModel(L, r);
    case FromStack(stack, weight) =>
      r := Construct.FromStack(L, stack, weight, held);
      FromStackModel(L, r, stack, weight);
    case FromStacksWithWeight(stacks, weight) =>
      r := Construct.FromStacksWithWeight(L, stacks, weight, held);
      UniformModel(L, r, stacks, weight);
    case FromStacks(entries) =>
      r := Construct.FromStacks(L, entries, held);
      FromStacksModel(L, r, entries);
  }

  /** Merging two snapshots. */
  method Joined<S(!new), W(!new)>(L: Lattice<W>, snapshots: seq<WNode<S, W>>, ghost models: seq<Explicit<S, W>>, op: Op<S, W>)
    returns (r: WNode<S, W>)
    requires Laws(L) && Agree(L, snapshots, models) && models != [] && op.Merge?
    ensures WWf(r) && FitsIn(ReachAll(snapshots), r) && Represents(L, r, Result(L, models, op))
  {
    Counts(L, snapshots, models);
    At(L, snapshots, models, op.i);
    var held := ReachAll(snapshots);
    var n := snapshots[Slot(op.i, |snapshots|)];
    ghost var m := models[Slot(op.i, |models|)];
    At(L, snapshots, models, op.j);
    var other := snapshots[Slot(op.j, |snapshots|)];
    ghost var d := Max(Max(WDepth(n), WDepth(other)), -1);
    assert WDepth(n) <= d && WDepth(other) <= d && -1 <= d;
    assert Result(L, models, op) == Model.Merged(L, m, models[Slot(op.j, |models|)]);
    hide *;
    r := WMerge.WMerge(L, n, other, held, d);
    MergeModel(L, r, n, other, m, models[Slot(op.j, |models|)]);
  }

  /** Transforming the weights of a snapshot. */
  method Reweighted<S(!new), W(!new)>(L: Lattice<W>, snapshots: seq<WNode<S, W>>, ghost models: seq<Explicit<S, W>>, op: Op<S, W>)
    returns (r: WNode<S, W>)
    requires Laws(L) && Agree(L, snapshots, models) && models != [] && op.FilterMap?
    ensures WWf(r) && FitsIn(ReachAll(snapshots), r) && Represents(L, r, Result(L, models, op))
  {
    Counts(L, snapshots, models);
    At(L, snapshots, models, op.i);
    var held := ReachAll(snapshots);
    var n := snapshots[Slot(op.i, |snapshots|)];
    ghost var m := models[Slot(op.i, |models|)];
    HeapOf(held, n);
    assert Result(L, models, op) == Mapped(m, op.f);
    hide *;
    var calls;
    r, calls := MapWeights.FilterMap(L, L, n, op.f, held);
    FilterMapModel(L, r, n, m, op.f);
  }

  lemma HeapOf<S(!new), W(!new)>(held: set<WNode<S, W>>, n: WNode<S, W>)
    requires Heap(held) && n in held
    ensures Heap(Reach(n))
  {
    ReachWithin(n, held);
    ReachClosed(n);
    HeapSub(held, Reach(n));
  }

  /** Pushing and popping on one snapshot. */
  method Moved<S(!new), W(!new)>(L: Lattice<W>, snapshots: seq<WNode<S, W>>, ghost models: seq<Explicit<S, W>>, op: Op<S, W>)
    returns (r: WNode<S, W>)
    requires Laws(L) && Agree(L, snapshots, models) && models != [] && (op.Push? || op.Pop? || op.Popn?)
    ensures WWf(r) && FitsIn(ReachAll(snapshots), r) && Represents(L, r, Result(L, models, op))
  {
    Counts(L, snapshots, models);
    At(L, snapshots, models, op.i);
    var held := ReachAll(snapshots);
    var n := snapshots[Slot(op.i, |snapshots|)];
    ghost var m := models[Slot(op.i, |models|)];
    ghost var d := Max(WDepth(n), 0);
    assert WDepth(n) <= d && 0 <= d;
    assert op.Push? ==> Result(L, models, op) == Pushed(m, op.symbol);
    assert op.Pop? ==> Result(L, models, op) == Popped(L, m, 1);
    assert op.Popn? ==> Result(L, models, op) == Popped(L, m, op.count);
    hide *;
    match op
    case Push(_, x) =>
      r := WPush(L, n, x, held);
      PushModel(L, r, n, m, x);
    case Pop(_) =>
      r := WPop(L, n, held);
      PopModel(L, r, n, m, 1);
    case Popn(_, k) =>
      r := WPopn(L, n, k, held, d);
      PopModel(L, r, n, m, k);
  }

  /** Selecting stacks of one snapshot. */
  method Selected<S(!new), W(!new)>(L: Lattice<W>, snapshots: seq<WNode<S, W>>, ghost models: seq<Explicit<S, W>>, op: Op<S, W>)
    returns (r: WNode<S, W>)
    requires Laws(L) && Agree(L, snapshots, models) && models != [] && (op.RetainTop? || op.RetainEmpty? || op.PopTop?)
    ensures WWf(r) && FitsIn(ReachAll(snapshots), r) && Represents(L, r, Result(L, models, op))
  {
    Counts(L, snapshots, models);
    At(L, snapshots, models, op.i);
    var held := ReachAll(snapshots);
    var n := snapshots[Slot(op.i, |snapshots|)];
    ghost var m := models[Slot(op.i, |models|)];
    assert op.RetainTop? ==> Result(L, models, op) == Retained(m, op.top);
    assert op.RetainEmpty? ==> Result(L, models, op) == Bottom(m);
    assert op.PopTop? ==> Result(L, models, op) == UnderTop(m, op.top);
    hide *;
    match op
    case RetainTop(_, t) =>
      r := WRetainTop(L, n, t, held);
      RetainTopModel(L, r, n, m, t);
    case RetainEmpty(_) =>
      r := WRetainEmpty(L, n, held);
      RetainEmptyModel(L, r, n, m);
    case PopTop(_, t) =>
      r := WPopTop(L, n, t, held);
      PopTopModel(L, r, n, m, t);
  }

  /** Dropping a snapshot frees what only it kept alive and leaves the others as they were. */
  lemma Dropped<S(!new), W(!new)>(L: Lattice<W>, snapshots: seq<WNode<S, W>>, models: seq<Explicit<S, W>>, i: nat)
    requires Agree(L, snapshots, models)
    ensures Agree(L, Without(snapshots, i), Without(models, i))
  {
    hide WNormal, WDetermined, Represents, Reach, ReachAll;
    var rest := Without(snapshots, i);
    ReachAllClosed(rest);
    ReachAllClosed(snapshots);
    forall v | v in rest ensures v in ReachAll(snapshots) {
      assert v in snapshots;
    }
    ReachAllWithin(rest, ReachAll(snapshots));
    HeapSub(ReachAll(snapshots), ReachAll(rest));
  }
}
