/** Bounded enumeration of the concrete stacks of a graph, with one shared prefix buffer. */
module Materialize {
  import opened Weights
  import opened Segments
  import opened Tables
  import opened UNodes
  import opened WNodes
  import opened WMerge
  import opened Meaning

  datatype Result<+T> = Ok(value: T) | StackLimitExceeded

  // ----- bottom-first stacks

  /** The weight a bottom-first table has for a top-first stack. */
  function Found<S(==), W>(stacks: map<seq<S>, W>, s: seq<S>): Option<W> {
    if Rev(s) in stacks then Some(stacks[Rev(s)]) else None
  }

  // ----- what a walk adds

  /** `s` is a stack of `n` under `prefix`. */
  ghost predicate Spells<S(!new), W(!new)>(prefix: seq<S>, n: WNode<S, W>, s: seq<S>) {
    prefix <= s && WHas(n, s[|prefix|..])
  }

  /** The table has gained exactly the meaning of `n` under `prefix`. */
  ghost predicate Gained<S(!new), W(!new)>(L: Lattice<W>, before: map<seq<S>, W>, after: map<seq<S>, W>, prefix: seq<S>,
                                           n: WNode<S, W>) {
    forall s, u {:trigger OptUnder(L, Found(after, s), u)} ::
      OptUnder(L, Found(after, s), u)
      <==> OptUnder(L, Found(before, s), u) && (prefix <= s ==> Below(L, n, s[|prefix|..], u))
  }

  ghost predicate GainedAll<S(!new), W(!new)>(L: Lattice<W>, before: map<seq<S>, W>, after: map<seq<S>, W>, prefix: seq<S>,
                                              nodes: seq<WNode<S, W>>) {
    forall s, u {:trigger OptUnder(L, Found(after, s), u)} ::
      OptUnder(L, Found(after, s), u)
      <==> OptUnder(L, Found(before, s), u) && (prefix <= s ==> AllBelow(L, nodes, s[|prefix|..], u))
  }

  /** The same for a branch whose tops in `todo` are still to be walked. */
  ghost predicate GainedTops<S(!new), W(!new)>(L: Lattice<W>, before: map<seq<S>, W>, after: map<seq<S>, W>, prefix: seq<S>,
                                               n: WNode<S, W>, todo: set<S>)
    requires n.WBranch?
  {
    forall s, u {:trigger OptUnder(L, Found(after, s), u)} ::
      OptUnder(L, Found(after, s), u)
      <==> OptUnder(L, Found(before, s), u) && (prefix <= s ==> TopsBelow(L, n, s[|prefix|..], u, todo))
  }

  ghost predicate TopsBelow<S(!new), W(!new)>(L: Lattice<W>, n: WNode<S, W>, s: seq<S>, u: Option<W>, todo: set<S>)
    requires n.WBranch?
  {
    if s == [] then BoundsAll(L, n.empty, u)
    else s[0] !in todo ==> AllBelow(L, AltsAt(n.children, s[0]), s[1..], u)
  }

  /** The table is full, holds nothing foreign, and lacks some stack of `n` under `prefix`. */
  ghost predicate Overflows<S(!new), W(!new)>(before: map<seq<S>, W>, after: map<seq<S>, W>, prefix: seq<S>, n: WNode<S, W>,
                                              limit: nat) {
    && |after| == limit
    && (forall s {:trigger Found(after, s)} :: Found(after, s).Some? ==> Found(before, s).Some? || Spells(prefix, n, s))
    && (exists s :: Found(after, s).None? && Spells(prefix, n, s))
  }

  /** A collecting walk: the table of bottom-first stacks and the top-first path so far. */
  class Collector<S(==, !new), W(==, !new)> {
    const L: Lattice<W>
    const limit: nat
    var stacks: map<seq<S>, W>
    var prefix: seq<S>

    ghost predicate Valid()
      reads this
    {
      Laws(L) && |stacks| <= limit
    }

    constructor (L: Lattice<W>, limit: nat)
      requires Laws(L)
      ensures Valid() && stacks == map[] && prefix == [] && this.L == L && this.limit == limit
    {
      this.L := L;
      this.limit := limit;
      stacks := map[];
      prefix := [];
    }

    /** Join a weight onto the current path, or refuse a new stack when the table is full. */
    method Emit(weight: W) returns (complete: bool)
      requires Valid()
      modifies this`stacks
      ensures Valid()
      ensures complete ==> Gained(L, old(stacks), stacks, prefix, Leaf(weight))
      ensures !complete ==> Overflows(old(stacks), stacks, prefix, Leaf(weight), limit)
    {
      var stack := Rev(prefix);
      EmitKeys(prefix);
      var atLimit := |stacks| == limit;
      if stack in stacks {
        EmitJoin(L, stacks, prefix, weight);
        stacks := stacks[stack := L.join(stacks[stack], weight)];
        return true;
      }
      if atLimit {
        FullTable(stacks, prefix, weight, limit);
        return false;
      }
      EmitNew(L, stacks, prefix, weight);
      stacks := stacks[stack := weight];
      complete := true;
    }

    /** Walk a weighted node; the path is as before on success and on abort. */
    method WalkWeighted(n: WNode<S, W>) returns (complete: bool)
      requires Valid()
      modifies this`stacks, this`prefix
      ensures Valid() && prefix == old(prefix)
      ensures Outcome(L, old(stacks), stacks, prefix, n, limit, complete)
      decreases n, 4
    {
      hide Outcome, WHas, Below;
      match n
      case WShared(_, weight, stacks, _, _) =>
        complete := WalkUnweighted(stacks, weight);
        ShareIsShared(L, n, old(this.stacks), this.stacks, prefix, limit, complete);
      case WSegment(_, values, next, _, _) =>
        var oldLen := |prefix|;
        prefix := prefix + values.View();
        complete := WalkWeighted(next);
        UnderSegment(L, n, old(stacks), stacks, old(prefix), limit, complete);
        prefix := prefix[..oldLen];
      case WBranch(_, empty, children, _, _) =>
        complete := EmitAll(empty);
        EmptiesFirst(L, n, old(stacks), stacks, prefix, limit, complete);
        if !complete {
          return;
        }
        complete := WalkTops(n, old(stacks));
        AllTops(L, n, old(stacks), stacks, prefix, limit, complete);
    }

    method EmitAll(ws: seq<W>) returns (complete: bool)
      requires Valid()
      modifies this`stacks
      ensures Valid()
      ensures Outcome(L, old(stacks), stacks, prefix, LeafAll(ws), limit, complete)
    {
      hide Outcome, WHas, Below;
      NoneEmitted(L, stacks, prefix, limit);
      for i := 0 to |ws|
        invariant Valid()
        invariant Outcome(L, old(stacks), stacks, prefix, LeafAll(ws[..i]), limit, true)
      {
        ghost var mid := stacks;
        complete := Emit(ws[i]);
        EmittedMore(L, old(stacks), mid, stacks, prefix, ws, i, limit, complete);
        if !complete {
          return;
        }
      }
      assert ws[..|ws|] == ws;
      complete := true;
    }

    /** The tops of a branch, one after the other, in any order. */
    method WalkTops(n: WNode<S, W>, ghost before: map<seq<S>, W>) returns (complete: bool)
      requires Valid() && n.WBranch? && GainedTops(L, before, stacks, prefix, n, n.children.Keys)
      modifies this`stacks, this`prefix
      ensures Valid() && prefix == old(prefix)
      ensures complete ==> GainedTops(L, before, stacks, prefix, n, {})
      ensures !complete ==> Overflows(before, stacks, prefix, n, limit)
      decreases n, 3
    {
      hide GainedTops, Overflows, GainedAll, OverflowsAll, WHas, Below;
      var todo := n.children.Keys;
      while todo != {}
        invariant todo <= n.children.Keys
        invariant Valid() && prefix == old(prefix)
        invariant GainedTops(L, before, stacks, prefix, n, todo)
        decreases |todo|
      {
        var top :| top in todo;
        ghost var mid := stacks;
        assert AltsAt(n.children, top) == n.children[top].nodes;
        prefix := prefix + [top];
        complete := WalkAlternatives(n.children[top].nodes);
        assert prefix == old(prefix) + [top];
        prefix := prefix[..|prefix| - 1];
        if !complete {
          TopOverflows(L, n, before, mid, stacks, prefix, todo, top, limit);
          return;
        }
        TopGained(L, n, before, mid, stacks, prefix, todo, top);
        todo := todo - {top};
      }
      complete := true;
    }

    method WalkAlternatives(nodes: seq<WNode<S, W>>) returns (complete: bool)
      requires Valid()
      modifies this`stacks, this`prefix
      ensures Valid() && prefix == old(prefix)
      ensures complete ==> GainedAll(L, old(stacks), stacks, prefix, nodes)
      ensures !complete ==> OverflowsAll(old(stacks), stacks, prefix, nodes, limit)
      decreases nodes, 0
    {
      hide Outcome, GainedAll, OverflowsAll, WHas, Below;
      NothingGained(L, stacks, prefix);
      for i := 0 to |nodes|
        invariant Valid() && prefix == old(prefix)
        invariant GainedAll(L, old(stacks), stacks, prefix, nodes[..i])
      {
        ghost var mid := stacks;
        complete := WalkWeighted(nodes[i]);
        OneMore(L, old(stacks), mid, stacks, prefix, nodes, i, limit, complete);
        if !complete {
          return;
        }
      }
      assert nodes[..|nodes|] == nodes;
      complete := true;
    }

    /** The same walk on an unweighted node, emitting one weight throughout. */
    method WalkUnweighted(n: UNode<S>, weight: W) returns (complete: bool)
      requires Valid()
      modifies this`stacks, this`prefix
      ensures Valid() && prefix == old(prefix)
      ensures Outcome(L, old(stacks), stacks, prefix, Share(weight, n), limit, complete)
      decreases n, 4
    {
      hide Outcome, WHas, Below, UHas;
      match n
      case USegment(values, next, _, _) =>
        var oldLen := |prefix|;
        prefix := prefix + values.View();
        complete := WalkUnweighted(next, weight);
        UnderUSegment(L, n, weight, old(stacks), stacks, old(prefix), limit, complete);
        prefix := prefix[..oldLen];
      case UBranch(empty, children, _, _) =>
        if empty {
          complete := Emit(weight);
          EmittedOne(L, old(stacks), stacks, prefix, weight, limit, complete);
        } else {
          complete := true;
          NoneEmitted(L, stacks, prefix, limit);
        }
        EmptiesFirst(L, AsBranch(weight, n), old(stacks), stacks, prefix, limit, complete);
        if complete {
          complete := WalkUTops(n, weight, old(stacks));
          AllTops(L, AsBranch(weight, n), old(stacks), stacks, prefix, limit, complete);
        }
        AsBranchOutcome(L, n, weight, old(stacks), stacks, prefix, limit, complete);
    }

    method WalkUTops(n: UNode<S>, weight: W, ghost before: map<seq<S>, W>) returns (complete: bool)
      requires Valid() && n.UBranch?
      requires GainedTops(L, before, stacks, prefix, AsBranch(weight, n), n.children.Keys)
      modifies this`stacks, this`prefix
      ensures Valid() && prefix == old(prefix)
      ensures complete ==> GainedTops(L, before, stacks, prefix, AsBranch(weight, n), {})
      ensures !complete ==> Overflows(before, stacks, prefix, AsBranch(weight, n), limit)
      decreases n, 3
    {
      hide GainedTops, Overflows, GainedAll, OverflowsAll, WHas, Below;
      var todo := n.children.Keys;
      while todo != {}
        invariant todo <= n.children.Keys
        invariant Valid() && prefix == old(prefix)
        invariant GainedTops(L, before, stacks, prefix, AsBranch(weight, n), todo)
        decreases |todo|
      {
        var top :| top in todo;
        ghost var mid := stacks;
        assert AltsAt(AsBranch(weight, n).children, top) == ShareSeq(weight, n.children[top].nodes);
        prefix := prefix + [top];
        complete := WalkUAlternatives(n.children[top].nodes, weight);
        assert prefix == old(prefix) + [top];
        prefix := prefix[..|prefix| - 1];
        if !complete {
          TopOverflows(L, AsBranch(weight, n), before, mid, stacks, prefix, todo, top, limit);
          return;
        }
        TopGained(L, AsBranch(weight, n), before, mid, stacks, prefix, todo, top);
        todo := todo - {top};
      }
      complete := true;
    }

    method WalkUAlternatives(nodes: seq<UNode<S>>, weight: W) returns (complete: bool)
      requires Valid()
      modifies this`stacks, this`prefix
      ensures Valid() && prefix == old(prefix)
      ensures complete ==> GainedAll(L, old(stacks), stacks, prefix, ShareSeq(weight, nodes))
      ensures !complete ==> OverflowsAll(old(stacks), stacks, prefix, ShareSeq(weight, nodes), limit)
      decreases nodes, 0
    {
      hide Outcome, GainedAll, OverflowsAll, WHas, Below;
      NothingGained(L, stacks, prefix);
      ghost var shared := ShareSeq(weight, nodes);
      for i := 0 to |nodes|
        invariant Valid() && prefix == old(prefix)
        invariant GainedAll(L, old(stacks), stacks, prefix, shared[..i])
      {
        ghost var mid := stacks;
        complete := WalkUnweighted(nodes[i], weight);
        OneMore(L, old(stacks), mid, stacks, prefix, shared, i, limit, complete);
        if !complete {
          return;
        }
      }
      assert shared[..|nodes|] == shared;
      complete := true;
    }
  }

  /** The one-stack region an emission stands for. */
  ghost function Leaf<S(!new), W>(weight: W): WNode<S, W> {
    WBranch(0, [weight], map[], 1, 0)
  }

  lemma LeafBelow<S(!new), W(!new)>(L: Lattice<W>, weight: W)
    ensures forall s: seq<S>, u :: Below(L, Leaf<S, W>(weight), s, u) <==> (s == [] ==> Under(L, weight, u))
    ensures forall s: seq<S> :: WHas(Leaf<S, W>(weight), s) <==> s == []
  {
    assert forall t: S :: AltsAt<S, WNode<S, W>>(map[], t) == [];
    assert weight in [weight];
  }

  lemma EmitKeys<S>(prefix: seq<S>)
    ensures forall s: seq<S> :: Rev(s) == Rev(prefix) <==> s == prefix
    ensures forall s: seq<S> :: prefix <= s ==> (s[|prefix|..] == [] <==> s == prefix)
  {
    forall s: seq<S> ensures Rev(s) == Rev(prefix) <==> s == prefix {
      RevRev(s);
      RevRev(prefix);
    }
  }

  lemma EmitJoin<S(!new), W(!new)>(L: Lattice<W>, stacks: map<seq<S>, W>, prefix: seq<S>, weight: W)
    requires Laws(L) && Rev(prefix) in stacks
    ensures Gained(L, stacks, stacks[Rev(prefix) := L.join(stacks[Rev(prefix)], weight)], prefix, Leaf(weight))
  {
    EmitKeys(prefix);
    LeafBelow<S, W>(L, weight);
    UnderJoin(L, stacks[Rev(prefix)], weight);
    hide Below, Rev;
  }

  lemma EmitNew<S(!new), W(!new)>(L: Lattice<W>, stacks: map<seq<S>, W>, prefix: seq<S>, weight: W)
    requires Rev(prefix) !in stacks
    ensures Gained(L, stacks, stacks[Rev(prefix) := weight], prefix, Leaf(weight))
  {
    EmitKeys(prefix);
    LeafBelow<S, W>(L, weight);
    hide Below, Rev;
  }

  lemma FullTable<S(!new), W(!new)>(stacks: map<seq<S>, W>, prefix: seq<S>, weight: W, limit: nat)
    requires Rev(prefix) !in stacks && |stacks| == limit
    ensures Overflows(stacks, stacks, prefix, Leaf(weight), limit)
  {
    assert Found(stacks, prefix).None? && Spells(prefix, Leaf<S, W>(weight), prefix);
  }

  // ----- the pieces of a walk

  ghost predicate Outcome<S(!new), W(!new)>(L: Lattice<W>, before: map<seq<S>, W>, after: map<seq<S>, W>, prefix: seq<S>,
                                            n: WNode<S, W>, limit: nat, complete: bool) {
    if complete then Gained(L, before, after, prefix, n) else Overflows(before, after, prefix, n, limit)
  }

  ghost predicate SpellsAny<S(!new), W(!new)>(prefix: seq<S>, nodes: seq<WNode<S, W>>, s: seq<S>) {
    exists c :: c in nodes && Spells(prefix, c, s)
  }

  ghost predicate OverflowsAll<S(!new), W(!new)>(before: map<seq<S>, W>, after: map<seq<S>, W>, prefix: seq<S>,
                                                 nodes: seq<WNode<S, W>>, limit: nat) {
    && |after| == limit
    && (forall s {:trigger Found(after, s)} :: Found(after, s).Some? ==> Found(before, s).Some? || SpellsAny(prefix, nodes, s))
    && (exists s :: Found(after, s).None? && SpellsAny(prefix, nodes, s))
  }

  ghost function LeafAll<S(!new), W>(ws: seq<W>): WNode<S, W> {
    WBranch(0, ws, map[], |ws|, 0)
  }

  ghost function Share<S(!new), W>(weight: W, n: UNode<S>): WNode<S, W> {
    WShared(0, weight, n, n.paths, n.maxDepth)
  }

  ghost function ShareSeq<S(!new), W>(weight: W, nodes: seq<UNode<S>>): seq<WNode<S, W>> {
    seq(|nodes|, i requires 0 <= i < |nodes| => Share(weight, nodes[i]))
  }

  /** An unweighted branch with its weight spread over the alternatives. */
  ghost function AsBranch<S(!new), W>(weight: W, n: UNode<S>): WNode<S, W>
    requires n.UBranch?
  {
    WBranch(0, if n.empty then [weight] else [],
            map t | t in n.children :: Alts(ShareSeq(weight, n.children[t].nodes)), n.paths, n.maxDepth)
  }

  /** Whatever the table has gained is foreign to nobody. */
  ghost predicate Within<S(!new), W(!new)>(before: map<seq<S>, W>, after: map<seq<S>, W>, prefix: seq<S>, n: WNode<S, W>) {
    forall s {:trigger Found(after, s)} :: Found(after, s).Some? ==> Found(before, s).Some? || Spells(prefix, n, s)
  }

  lemma NothingGained<S(!new), W(!new)>(L: Lattice<W>, stacks: map<seq<S>, W>, prefix: seq<S>)
    ensures GainedAll(L, stacks, stacks, prefix, [])
  {
  }

  lemma NoneEmitted<S(!new), W(!new)>(L: Lattice<W>, stacks: map<seq<S>, W>, prefix: seq<S>, limit: nat)
    ensures Outcome(L, stacks, stacks, prefix, LeafAll([]), limit, true)
  {
    LeafAllBelow<S, W>(L, []);
    hide Below;
  }

  lemma LeafAllBelow<S(!new), W(!new)>(L: Lattice<W>, ws: seq<W>)
    ensures forall s: seq<S>, u :: Below(L, LeafAll<S, W>(ws), s, u) <==> (s == [] ==> BoundsAll(L, ws, u))
    ensures forall s: seq<S> :: WHas(LeafAll<S, W>(ws), s) <==> s == [] && ws != []
  {
    assert forall t: S :: AltsAt<S, WNode<S, W>>(map[], t) == [];
  }

  lemma EmittedOne<S(!new), W(!new)>(L: Lattice<W>, before: map<seq<S>, W>, after: map<seq<S>, W>, prefix: seq<S>,
                                     weight: W, limit: nat, complete: bool)
    requires complete ==> Gained(L, before, after, prefix, Leaf(weight))
    requires !complete ==> Overflows(before, after, prefix, Leaf(weight), limit)
    ensures Outcome(L, before, after, prefix, LeafAll([weight]), limit, complete)
  {
    assert Leaf<S, W>(weight) == LeafAll([weight]);
  }

  lemma EmittedMore<S(!new), W(!new)>(L: Lattice<W>, before: map<seq<S>, W>, mid: map<seq<S>, W>, after: map<seq<S>, W>,
                                      prefix: seq<S>, ws: seq<W>, i: nat, limit: nat, complete: bool)
    requires i < |ws| && Outcome(L, before, mid, prefix, LeafAll(ws[..i]), limit, true)
    requires complete ==> Gained(L, mid, after, prefix, Leaf(ws[i]))
    requires !complete ==> Overflows(mid, after, prefix, Leaf(ws[i]), limit)
    ensures complete ==> Outcome(L, before, after, prefix, LeafAll(ws[..i + 1]), limit, true)
    ensures !complete ==> Outcome(L, before, after, prefix, LeafAll(ws), limit, false)
  {
    LeafAllBelow<S, W>(L, ws[..i]);
    LeafAllBelow<S, W>(L, ws);
    LeafAllBelow<S, W>(L, ws[..i + 1]);
    LeafBelow<S, W>(L, ws[i]);
    assert forall u :: BoundsAll(L, ws[..i + 1], u) <==> BoundsAll(L, ws[..i], u) && Under(L, ws[i], u) by {
      assert ws[..i + 1] == ws[..i] + [ws[i]];
      assert forall w :: w in ws[..i + 1] <==> w in ws[..i] || w == ws[i];
    }
    hide Below, WHas, BoundsAll, Found, Leaf, LeafAll;
    if complete {
      forall s, u ensures OptUnder(L, Found(after, s), u)
                     <==> OptUnder(L, Found(before, s), u) && (prefix <= s ==> Below(L, LeafAll(ws[..i + 1]), s[|prefix|..], u)) {
        assert OptUnder(L, Found(mid, s), u)
          <==> OptUnder(L, Found(before, s), u) && (prefix <= s ==> Below(L, LeafAll(ws[..i]), s[|prefix|..], u));
      }
    } else {
      GainedWithin(L, before, mid, prefix, LeafAll(ws[..i]));
    }
  }

  lemma GainedWithin<S(!new), W(!new)>(L: Lattice<W>, before: map<seq<S>, W>, after: map<seq<S>, W>, prefix: seq<S>, n: WNode<S, W>)
    requires Gained(L, before, after, prefix, n)
    ensures Within(before, after, prefix, n)
  {
    hide Below, WHas, Found;
    forall s | Found(after, s).Some? ensures Found(before, s).Some? || Spells(prefix, n, s) {
      assert !OptUnder(L, Found(after, s), None);
      if prefix <= s {
        BelowNone(L, n, s[|prefix|..]);
      }
    }
  }

  lemma ShareIsShared<S(!new), W(!new)>(L: Lattice<W>, n: WNode<S, W>, before: map<seq<S>, W>, after: map<seq<S>, W>,
                                        prefix: seq<S>, limit: nat, complete: bool)
    requires n.WShared? && Outcome(L, before, after, prefix, Share(n.weight, n.stacks), limit, complete)
    ensures Outcome(L, before, after, prefix, n, limit, complete)
  {
    SameOutcome(L, Share(n.weight, n.stacks), n, before, after, prefix, limit, complete);
  }

  /** Outcomes depend only on bounds and stacks. */
  lemma SameOutcome<S(!new), W(!new)>(L: Lattice<W>, a: WNode<S, W>, b: WNode<S, W>, before: map<seq<S>, W>,
                                      after: map<seq<S>, W>, prefix: seq<S>, limit: nat, complete: bool)
    requires Outcome(L, before, after, prefix, a, limit, complete)
    requires forall s, u :: Below(L, a, s, u) <==> Below(L, b, s, u)
    requires forall s :: WHas(a, s) <==> WHas(b, s)
    ensures Outcome(L, before, after, prefix, b, limit, complete)
  {
    hide Below, WHas, Found;
    if !complete {
      var s :| Found(after, s).None? && Spells(prefix, a, s);
      assert Spells(prefix, b, s);
    }
  }

  lemma UnderSegment<S(!new), W(!new)>(L: Lattice<W>, n: WNode<S, W>, before: map<seq<S>, W>, after: map<seq<S>, W>,
                                       prefix: seq<S>, limit: nat, complete: bool)
    requires n.WSegment? && Outcome(L, before, after, prefix + n.values.View(), n.next, limit, complete)
    ensures Outcome(L, before, after, prefix, n, limit, complete)
  {
    var v := n.values.View();
    forall s ensures prefix + v <= s <==> prefix <= s && v <= s[|prefix|..] {
      CutPrefix(prefix, v, s);
    }
    forall s | prefix + v <= s ensures s[|prefix + v|..] == s[|prefix|..][|v|..] {
    }
    if complete {
      hide Found;
    } else {
      forall s ensures Spells(prefix + v, n.next, s) <==> Spells(prefix, n, s) {
      }
      hide Found, WHas, Spells;
    }
  }

  lemma CutPrefix<S>(p: seq<S>, v: seq<S>, s: seq<S>)
    ensures p + v <= s <==> p <= s && v <= s[|p|..]
  {
    if p <= s && v <= s[|p|..] {
      assert s == p + s[|p|..] && s[|p|..] == v + s[|p|..][|v|..];
    }
    if p + v <= s {
      assert s[|p|..][..|v|] == (p + v)[|p|..];
    }
  }

  lemma UnderUSegment<S(!new), W(!new)>(L: Lattice<W>, n: UNode<S>, weight: W, before: map<seq<S>, W>, after: map<seq<S>, W>,
                                        prefix: seq<S>, limit: nat, complete: bool)
    requires n.USegment? && Outcome(L, before, after, prefix + n.values.View(), Share(weight, n.next), limit, complete)
    ensures Outcome(L, before, after, prefix, Share(weight, n), limit, complete)
  {
    var x := WSegment(0, n.values, Share(weight, n.next), 0, 0);
    UnderSegment(L, x, before, after, prefix, limit, complete);
    SameOutcome(L, x, Share(weight, n), before, after, prefix, limit, complete);
  }

  /** After the empties, all tops are still to be walked. */
  lemma EmptiesFirst<S(!new), W(!new)>(L: Lattice<W>, n: WNode<S, W>, before: map<seq<S>, W>, after: map<seq<S>, W>,
                                       prefix: seq<S>, limit: nat, complete: bool)
    requires n.WBranch? && Outcome(L, before, after, prefix, LeafAll(n.empty), limit, complete)
    ensures complete ==> GainedTops(L, before, after, prefix, n, n.children.Keys)
    ensures !complete ==> Outcome(L, before, after, prefix, n, limit, false)
  {
    LeafAllBelow<S, W>(L, n.empty);
    if complete {
      hide WHas, Found, Below;
      forall s, u ensures s != [] ==> TopsBelow(L, n, s, u, n.children.Keys) {
        if s != [] && s[0] !in n.children {
          assert AltsAt(n.children, s[0]) == [];
        }
      }
    } else {
      forall s | Spells(prefix, LeafAll(n.empty), s) ensures Spells(prefix, n, s) {
      }
      hide WHas, Found, Spells, Below;
    }
  }

  /** Once every top is walked, so is the branch. */
  lemma AllTops<S(!new), W(!new)>(L: Lattice<W>, n: WNode<S, W>, before: map<seq<S>, W>, after: map<seq<S>, W>,
                                  prefix: seq<S>, limit: nat, complete: bool)
    requires n.WBranch?
    requires complete ==> GainedTops(L, before, after, prefix, n, {})
    requires !complete ==> Overflows(before, after, prefix, n, limit)
    ensures Outcome(L, before, after, prefix, n, limit, complete)
  {
    hide Found, WHas;
    forall s, u ensures TopsBelow(L, n, s, u, {}) <==> Below(L, n, s, u) {
    }
    hide Below, TopsBelow;
  }

  lemma TopGained<S(!new), W(!new)>(L: Lattice<W>, n: WNode<S, W>, before: map<seq<S>, W>, mid: map<seq<S>, W>,
                                    after: map<seq<S>, W>, prefix: seq<S>, todo: set<S>, top: S)
    requires n.WBranch? && top in todo && GainedTops(L, before, mid, prefix, n, todo)
    requires GainedAll(L, mid, after, prefix + [top], AltsAt(n.children, top))
    ensures GainedTops(L, before, after, prefix, n, todo - {top})
  {
    hide Found, Below, AllBelow;
    forall s, u ensures OptUnder(L, Found(after, s), u)
                   <==> OptUnder(L, Found(before, s), u) && (prefix <= s ==> TopsBelow(L, n, s[|prefix|..], u, todo - {top})) {
      CutPrefix(prefix, [top], s);
      assert OptUnder(L, Found(mid, s), u)
        <==> OptUnder(L, Found(before, s), u) && (prefix <= s ==> TopsBelow(L, n, s[|prefix|..], u, todo));
      if prefix + [top] <= s {
        assert s[|prefix + [top]|..] == s[|prefix|..][1..];
      }
    }
  }

  lemma TopOverflows<S(!new), W(!new)>(L: Lattice<W>, n: WNode<S, W>, before: map<seq<S>, W>, mid: map<seq<S>, W>,
                                       after: map<seq<S>, W>, prefix: seq<S>, todo: set<S>, top: S, limit: nat)
    requires n.WBranch? && GainedTops(L, before, mid, prefix, n, todo)
    requires OverflowsAll(mid, after, prefix + [top], AltsAt(n.children, top), limit)
    ensures Overflows(before, after, prefix, n, limit)
  {
    TopsWithin(L, n, before, mid, prefix, todo);
    forall s | SpellsAny(prefix + [top], AltsAt(n.children, top), s) ensures Spells(prefix, n, s) {
      CutPrefix(prefix, [top], s);
      assert s[|prefix + [top]|..] == s[|prefix|..][1..];
    }
    hide Found, WHas, Spells, SpellsAny;
  }

  lemma TopsWithin<S(!new), W(!new)>(L: Lattice<W>, n: WNode<S, W>, before: map<seq<S>, W>, after: map<seq<S>, W>,
                                     prefix: seq<S>, todo: set<S>)
    requires n.WBranch? && GainedTops(L, before, after, prefix, n, todo)
    ensures Within(before, after, prefix, n)
  {
    hide Found;
    forall s | Found(after, s).Some? && Found(before, s).None? ensures Spells(prefix, n, s) {
      assert !OptUnder(L, Found(after, s), None) && OptUnder(L, Found(before, s), None);
      assert prefix <= s && !TopsBelow(L, n, s[|prefix|..], None, todo);
      BelowNone(L, n, s[|prefix|..]);
    }
  }

  lemma OneMore<S(!new), W(!new)>(L: Lattice<W>, before: map<seq<S>, W>, mid: map<seq<S>, W>, after: map<seq<S>, W>,
                                  prefix: seq<S>, nodes: seq<WNode<S, W>>, i: nat, limit: nat, complete: bool)
    requires i < |nodes| && GainedAll(L, before, mid, prefix, nodes[..i])
    requires Outcome(L, mid, after, prefix, nodes[i], limit, complete)
    ensures complete ==> GainedAll(L, before, after, prefix, nodes[..i + 1])
    ensures !complete ==> OverflowsAll(before, after, prefix, nodes, limit)
  {
    hide Found, WHas, Below;
    assert nodes[..i + 1] == nodes[..i] + [nodes[i]];
    if complete {
      forall s, u ensures AllBelow(L, nodes[..i + 1], s, u) <==> AllBelow(L, nodes[..i], s, u) && Below(L, nodes[i], s, u) {
        AllBelowMore(L, nodes[..i], nodes[i], s, u);
      }
      hide AllBelow;
      forall s, u ensures OptUnder(L, Found(after, s), u)
                     <==> OptUnder(L, Found(before, s), u) && (prefix <= s ==> AllBelow(L, nodes[..i + 1], s[|prefix|..], u)) {
        assert OptUnder(L, Found(mid, s), u)
          <==> OptUnder(L, Found(before, s), u) && (prefix <= s ==> AllBelow(L, nodes[..i], s[|prefix|..], u));
      }
    } else {
      OneOverflows(L, before, mid, after, prefix, nodes, i, limit);
    }
  }

  lemma OneOverflows<S(!new), W(!new)>(L: Lattice<W>, before: map<seq<S>, W>, mid: map<seq<S>, W>, after: map<seq<S>, W>,
                                       prefix: seq<S>, nodes: seq<WNode<S, W>>, i: nat, limit: nat)
    requires i < |nodes| && GainedAll(L, before, mid, prefix, nodes[..i])
    requires Overflows(mid, after, prefix, nodes[i], limit)
    ensures OverflowsAll(before, after, prefix, nodes, limit)
  {
    hide Found, WHas, Below;
    assert nodes[i] in nodes;
    forall s | Found(mid, s).Some? && Found(before, s).None? ensures SpellsAny(prefix, nodes, s) {
      assert !OptUnder(L, Found(mid, s), None) && OptUnder(L, Found(before, s), None);
      assert prefix <= s && !AllBelow(L, nodes[..i], s[|prefix|..], None);
      var c :| c in nodes[..i] && !Below(L, c, s[|prefix|..], None);
      BelowNone(L, c, s[|prefix|..]);
      assert c in nodes && Spells(prefix, c, s);
    }
    forall s | Spells(prefix, nodes[i], s) ensures SpellsAny(prefix, nodes, s) {
    }
    hide Spells, SpellsAny;
    var s :| Found(after, s).None? && Spells(prefix, nodes[i], s);
  }

  lemma AsBranchOutcome<S(!new), W(!new)>(L: Lattice<W>, n: UNode<S>, weight: W, before: map<seq<S>, W>, after: map<seq<S>, W>,
                                          prefix: seq<S>, limit: nat, complete: bool)
    requires n.UBranch? && Outcome(L, before, after, prefix, AsBranch(weight, n), limit, complete)
    ensures Outcome(L, before, after, prefix, Share(weight, n), limit, complete)
  {
    hide Outcome;
    var b := AsBranch(weight, n);
    forall s ensures WHas(b, s) <==> UHas(n, s)
             ensures forall u :: Below(L, b, s, u) <==> Below(L, Share(weight, n), s, u) {
      AsBranchSame(L, n, weight, s);
    }
    SameOutcome(L, b, Share(weight, n), before, after, prefix, limit, complete);
  }

  lemma AsBranchSame<S(!new), W(!new)>(L: Lattice<W>, n: UNode<S>, weight: W, s: seq<S>)
    requires n.UBranch?
    ensures WHas(AsBranch(weight, n), s) <==> UHas(n, s)
    ensures forall u :: Below(L, AsBranch(weight, n), s, u) <==> Below(L, Share(weight, n), s, u)
  {
    var b := AsBranch(weight, n);
    if s == [] {
      assert weight in [weight];
    } else {
      var alts := AltsAt(n.children, s[0]);
      assert AltsAt(b.children, s[0]) == ShareSeq(weight, alts);
      forall c | c in alts ensures Share(weight, c) in ShareSeq(weight, alts) {
        var i :| 0 <= i < |alts| && alts[i] == c;
        assert ShareSeq(weight, alts)[i] == Share(weight, c);
      }
    }
  }

  // ----- the result

  /** The bottom-first stack `k` is represented. */
  ghost predicate Represented<S(!new), W(!new)>(n: WNode<S, W>, k: seq<S>) {
    WHas(n, Rev(k))
  }

  ghost predicate AllRepresented<S(!new), W(!new)>(n: WNode<S, W>, some: set<seq<S>>) {
    forall k :: k in some ==> Represented(n, k)
  }

  ghost predicate HasKey<S(!new), W(!new)>(pairs: seq<(seq<S>, W)>, k: seq<S>) {
    exists i :: 0 <= i < |pairs| && pairs[i].0 == k
  }

  ghost predicate NoRepeats<S(!new), W(!new)>(pairs: seq<(seq<S>, W)>) {
    forall i, j {:trigger pairs[i], pairs[j]} :: 0 <= i < j < |pairs| ==> pairs[i].0 != pairs[j].0
  }

  /** The bottom-first pairs list every represented stack once, with its joined weight. */
  ghost predicate Lists<S(!new), W(!new)>(L: Lattice<W>, n: WNode<S, W>, pairs: seq<(seq<S>, W)>) {
    && NoRepeats(pairs)
    && (forall i {:trigger pairs[i]} :: 0 <= i < |pairs| ==> Den(L, n, Rev(pairs[i].0)) == Some(pairs[i].1))
    && (forall k {:trigger Represented(n, k)} :: Represented(n, k) ==> HasKey(pairs, k))
  }

  /** More than `limit` distinct stacks are represented. */
  ghost predicate TooMany<S(!new), W(!new)>(n: WNode<S, W>, limit: nat) {
    exists some :: AllRepresented(n, some) && |some| > limit
  }

  /** Whoever can list the stacks has too many exactly when the listing is too long; so the
      two outcomes of a bounded enumeration exclude each other and leave nothing between. */
  lemma ListsNotTooMany<S(!new), W(!new)>(L: Lattice<W>, n: WNode<S, W>, pairs: seq<(seq<S>, W)>, limit: nat)
    requires Lists(L, n, pairs)
    ensures TooMany(n, limit) <==> |pairs| > limit
  {
    var keys := KeySet(pairs);
    KeySetSize(pairs);
    KeySetHas(pairs);
    forall k ensures Represented(n, k) <==> k in keys {
      hide WHas, Den;
      if k in keys {
        var i :| 0 <= i < |pairs| && pairs[i].0 == k;
        DenSome(L, n, Rev(k));
      }
    }
    hide Represented, Lists, KeySet;
    assert AllRepresented(n, keys);
    if TooMany(n, limit) {
      var some :| AllRepresented(n, some) && |some| > limit;
      SubsetSize(some, keys);
    }
  }

  ghost function KeySet<S(!new), W(!new)>(pairs: seq<(seq<S>, W)>): set<seq<S>> {
    set i | 0 <= i < |pairs| :: pairs[i].0
  }

  lemma KeySetHas<S(!new), W(!new)>(pairs: seq<(seq<S>, W)>)
    ensures forall k :: k in KeySet(pairs) <==> HasKey(pairs, k)
  {
  }

  lemma {:induction false} KeySetSize<S(!new), W(!new)>(pairs: seq<(seq<S>, W)>)
    requires NoRepeats(pairs)
    ensures |KeySet(pairs)| == |pairs|
  {
    if pairs != [] {
      var rest := pairs[..|pairs| - 1];
      KeySetSize(rest);
      assert KeySet(pairs) == KeySet(rest) + {pairs[|pairs| - 1].0};
    }
  }

  lemma {:induction false} SubsetSize<T>(a: set<T>, b: set<T>)
    requires a <= b
    ensures |a| <= |b|
  {
    if a != {} {
      var x :| x in a;
      SubsetSize(a - {x}, b - {x});
    }
  }

  /** All stacks with their joined weights if there are at most `limit`, and an error otherwise. */
  ghost predicate Enumerates<S(!new), W(!new)>(L: Lattice<W>, n: WNode<S, W>, limit: nat, r: Result<seq<(seq<S>, W)>>) {
    match r
    case Ok(pairs) => |pairs| <= limit && Lists(L, n, pairs)
    case StackLimitExceeded => TooMany(n, limit)
  }

  /** A bounded enumeration fails exactly when there are too many distinct stacks, and its
      success is determined up to order: any two enumerations list the same pairs. */
  lemma EnumerationUnique<S(!new), W(!new)>(L: Lattice<W>, n: WNode<S, W>, limit: nat,
                                            r: Result<seq<(seq<S>, W)>>, q: Result<seq<(seq<S>, W)>>)
    requires Enumerates(L, n, limit, r) && Enumerates(L, n, limit, q)
    ensures r.Ok? <==> q.Ok?
    ensures r.Ok? ==> !TooMany(n, limit) && |r.value| == |q.value| && forall x :: x in r.value <==> x in q.value
  {
    if r.Ok? {
      ListsNotTooMany(L, n, r.value, limit);
    }
    if q.Ok? {
      ListsNotTooMany(L, n, q.value, limit);
    }
    if r.Ok? && q.Ok? {
      ListsNotTooMany(L, n, r.value, |q.value|);
      ListsNotTooMany(L, n, q.value, |q.value|);
      ListsNotTooMany(L, n, r.value, |r.value|);
      ListsNotTooMany(L, n, q.value, |r.value|);
      SamePairs(L, n, r.value, q.value);
      SamePairs(L, n, q.value, r.value);
    }
  }

  lemma SamePairs<S(!new), W(!new)>(L: Lattice<W>, n: WNode<S, W>, p: seq<(seq<S>, W)>, q: seq<(seq<S>, W)>)
    requires Lists(L, n, p) && Lists(L, n, q)
    ensures forall x :: x in p ==> x in q
  {
    hide Den, WHas;
    forall x | x in p ensures x in q {
      var i :| 0 <= i < |p| && p[i] == x;
      DenSome(L, n, Rev(x.0));
      assert Represented(n, x.0);
      var j :| 0 <= j < |q| && q[j].0 == x.0;
      assert q[j].1 == x.1;
    }
  }

  method MaterializeStacks<S(!new), W(!new)>(L: Lattice<W>, n: WNode<S, W>, limit: nat)
    returns (r: Result<seq<(seq<S>, W)>>)
    requires Laws(L)
    ensures Enumerates(L, n, limit, r)
  {
    hide Outcome, Lists, TooMany;
    var collector := new Collector<S, W>(L, limit);
    var complete := collector.WalkWeighted(n);
    if complete {
      var pairs := Pairs(collector.stacks);
      Complete(L, n, collector.stacks, pairs, limit);
      r := Ok(pairs);
    } else {
      Incomplete(L, n, collector.stacks, limit);
      r := StackLimitExceeded;
    }
  }

  ghost predicate EntriesOf<S(!new), W(!new)>(pairs: seq<(seq<S>, W)>, stacks: map<seq<S>, W>, todo: set<seq<S>>) {
    && NoRepeats(pairs)
    && (forall i {:trigger pairs[i]} :: 0 <= i < |pairs| ==>
          pairs[i].0 in stacks && pairs[i].0 !in todo && pairs[i].1 == stacks[pairs[i].0])
    && (forall k :: k in stacks && k !in todo ==> HasKey(pairs, k))
  }

  /** The entries of a table in whatever order it yields them. */
  method Pairs<S(==, !new), W(!new)>(stacks: map<seq<S>, W>) returns (pairs: seq<(seq<S>, W)>)
    ensures |pairs| == |stacks| && EntriesOf(pairs, stacks, {})
  {
    pairs := [];
    var todo := stacks.Keys;
    while todo != {}
      invariant todo <= stacks.Keys && |pairs| + |todo| == |stacks|
      invariant EntriesOf(pairs, stacks, todo)
      decreases |todo|
    {
      var k :| k in todo;
      OneEntry(pairs, stacks, todo, k);
      pairs := pairs + [(k, stacks[k])];
      todo := todo - {k};
    }
  }

  lemma OneEntry<S(!new), W(!new)>(pairs: seq<(seq<S>, W)>, stacks: map<seq<S>, W>, todo: set<seq<S>>, k: seq<S>)
    requires EntriesOf(pairs, stacks, todo) && k in todo && k in stacks
    ensures EntriesOf(pairs + [(k, stacks[k])], stacks, todo - {k})
  {
    var more := pairs + [(k, stacks[k])];
    forall j | j in stacks && j !in todo - {k} ensures HasKey(more, j) {
      if j == k {
        assert more[|pairs|].0 == k;
      } else {
        var i :| 0 <= i < |pairs| && pairs[i].0 == j;
        assert more[i].0 == j;
      }
    }
  }

  lemma Complete<S(!new), W(!new)>(L: Lattice<W>, n: WNode<S, W>, stacks: map<seq<S>, W>, pairs: seq<(seq<S>, W)>, limit: nat)
    requires Laws(L) && Outcome(L, map[], stacks, [], n, limit, true)
    requires EntriesOf(pairs, stacks, {})
    ensures Lists(L, n, pairs)
  {
    forall k ensures Den(L, n, Rev(k)) == Found(stacks, Rev(k)) && Rev(Rev(k)) == k {
      RevRev(k);
      FoundIsDen(L, n, stacks, Rev(k));
    }
    forall k | Represented(n, k) ensures k in stacks {
      DenSome(L, n, Rev(k));
    }
    hide WHas, Den, Below, Rev, Outcome, HasKey, Represented;
  }

  lemma FoundIsDen<S(!new), W(!new)>(L: Lattice<W>, n: WNode<S, W>, stacks: map<seq<S>, W>, s: seq<S>)
    requires Laws(L) && Gained(L, map[], stacks, [], n)
    ensures Found(stacks, s) == Den(L, n, s)
  {
    DenBounds(L, n, s);
    assert s[0..] == s && [] <= s;
    assert Found<S, W>(map[], s) == None;
    hide Den, Below, Found;
    forall u ensures OptUnder(L, Found(stacks, s), u) <==> OptUnder(L, Den(L, n, s), u) {
    }
    SameBounds(L, Found(stacks, s), Den(L, n, s));
  }

  lemma Incomplete<S(!new), W(!new)>(L: Lattice<W>, n: WNode<S, W>, stacks: map<seq<S>, W>, limit: nat)
    requires Outcome(L, map[], stacks, [], n, limit, false)
    ensures TooMany(n, limit)
  {
    hide WHas, Rev;
    var extra :| Found(stacks, extra).None? && Spells([], n, extra);
    RevRev(extra);
    assert extra[0..] == extra;
    assert Represented(n, Rev(extra));
    forall k | k in stacks ensures Represented(n, k) {
      RevRev(k);
      assert Found(stacks, Rev(k)).Some? && Found<S, W>(map[], Rev(k)) == None;
      assert Rev(k)[0..] == Rev(k);
    }
    assert |stacks.Keys + {Rev(extra)}| == |stacks| + 1;
  }
}
