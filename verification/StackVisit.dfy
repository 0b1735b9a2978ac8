/** Visiting concrete stacks top first: a fast route where there is a single path, and an
    enumeration bounded by the limit otherwise. */
module StackVisit {
  import opened Weights
  import opened Segments
  import opened Counting
  import opened Tables
  import opened UNodes
  import opened UPaths
  import opened WNodes
  import opened Meaning
  import opened Materialize

  // ----- one unweighted path

  /** `n` is `node` under the run `path`. */
  ghost predicate UUnder<S(!new)>(n: UNode<S>, path: seq<S>, node: UNode<S>) {
    forall s :: UHas(n, s) <==> path <= s && UHas(node, s[|path|..])
  }

  /** Follow the only way down, whatever the shape of the node; fail where there is none or a choice. */
  method SingleUnweightedPath<S(!new)>(n: UNode<S>) returns (path: seq<S>, found: bool)
    ensures found ==> forall s :: UHas(n, s) <==> s == path
    ensures OnePath(n) ==> found
  {
    hide UHas, OnePath;
    path := [];
    var node := n;
    while true
      invariant UUnder(n, path, node)
      invariant OnePath(n) ==> OnePath(node)
      decreases node
    {
      match node
      case USegment(values, next, _, _) =>
        UThroughSegment(n, path, node);
        path := path + values.View();
        node := next;
      case UBranch(empty, children, _, _) =>
        if empty && children == map[] {
          UAtEnd(n, path, node);
          return path, true;
        }
        var first, more := FirstEntries(children);
        if first.None? || more || empty {
          UNoWay(node);
          return path, false;
        }
        assert first.value.1 in AltsAt(children, first.value.0);
        UThroughBranch(n, path, node, first.value.0, first.value.1);
        path := path + [first.value.0];
        node := first.value.1;
    }
  }

  lemma UThroughSegment<S(!new)>(n: UNode<S>, path: seq<S>, node: UNode<S>)
    requires node.USegment? && UUnder(n, path, node)
    ensures UUnder(n, path + node.values.View(), node.next)
    ensures OnePath(node) ==> OnePath(node.next)
  {
    var v := node.values.View();
    forall s ensures UHas(n, s) <==> path + v <= s && UHas(node.next, s[|path + v|..]) {
      CutPrefix(path, v, s);
      if path + v <= s {
        assert s[|path + v|..] == s[|path|..][|v|..];
      }
    }
  }

  lemma UThroughBranch<S(!new)>(n: UNode<S>, path: seq<S>, node: UNode<S>, t: S, c: UNode<S>)
    requires node.UBranch? && !node.empty && OnlyEntry(node.children, t, c) && UUnder(n, path, node)
    ensures UUnder(n, path + [t], c)
    ensures OnePath(node) ==> OnePath(c)
  {
    forall s ensures UHas(n, s) <==> path + [t] <= s && UHas(c, s[|path + [t]|..]) {
      CutPrefix(path, [t], s);
      if path <= s && s[|path|..] != [] {
        assert s[|path|..][0] == t ==> AltsAt(node.children, t) == [c];
        assert s[|path|..][1..] == s[|path| + 1..];
      }
    }
    if OnePath(node) {
      assert AltsAt(node.children, t) == [c];
      OnlyWay(node, t);
    }
  }

  lemma UAtEnd<S(!new)>(n: UNode<S>, path: seq<S>, node: UNode<S>)
    requires node.UBranch? && node.empty && node.children == map[] && UUnder(n, path, node)
    ensures forall s :: UHas(n, s) <==> s == path
  {
    forall s ensures UHas(n, s) <==> s == path {
      if path <= s {
        assert s[|path|..] == [] <==> s == path;
        assert forall t :: AltsAt(node.children, t) == [];
      }
    }
  }

  lemma UNoWay<S(!new)>(node: UNode<S>)
    requires node.UBranch? && !(node.empty && node.children == map[])
    requires || node.empty || SeveralEntries(node.children)
             || forall t {:trigger AltsAt(node.children, t)} :: AltsAt(node.children, t) == []
    ensures !OnePath(node)
  {
    if t :| OnlyChild(node.children, t) {
      assert |AltsAt(node.children, t)| == 1;
    }
  }

  // ----- one weighted path

  /** The weights of `n` are those of `node` under the run `path`. */
  ghost predicate WUnder<S(!new), W(!new)>(n: WNode<S, W>, path: seq<S>, node: WNode<S, W>) {
    forall s :: PathWeights(n, s) == if path <= s then PathWeights(node, s[|path|..]) else []
  }

  /** All `n` holds is the stack `path` with weight `w`. */
  ghost predicate IsSingle<S(!new), W(!new)>(n: WNode<S, W>, path: seq<S>, w: W) {
    forall s :: PathWeights(n, s) == if s == path then [w] else []
  }

  /** On a well-formed node with one path the route never fails, and what it finds is all there is. */
  method SingleWeightedPath<S(!new), W(!new)>(n: WNode<S, W>) returns (path: seq<S>, weight: Option<W>)
    requires WWf(n)
    ensures weight.Some? ==> IsSingle(n, path, weight.value)
    ensures n.paths == 1 ==> weight.Some?
  {
    hide WNormal, WDetermined, PathWeights, WCount, UHas, OnePath;
    path := [];
    var node := n;
    WOneCount(n);
    while true
      invariant WUnder(n, path, node) && WWf(node)
      invariant n.paths == 1 ==> WCount(node) == 1
      decreases node
    {
      match node
      case WShared(_, w, stacks, _, _) =>
        var rest, found := SingleUnweightedPath(stacks);
        WSharedPath(n, path, node, rest, found);
        if !found {
          return path, None;
        }
        return path + rest, Some(w);
      case WSegment(_, values, next, _, _) =>
        WThroughSegment(n, path, node);
        path := path + values.View();
        node := next;
      case WBranch(_, empty, children, _, _) =>
        if |empty| == 1 && children == map[] {
          WAtEnd(n, path, node);
          return path, Some(empty[0]);
        }
        var first, more := FirstEntries(children);
        if first.None? || more || empty != [] {
          WNoWay(node);
          return path, None;
        }
        assert first.value.1 in AltsAt(children, first.value.0);
        WThroughBranch(n, path, node, first.value.0, first.value.1);
        path := path + [first.value.0];
        node := first.value.1;
    }
  }

  lemma WOneCount<S(!new), W(!new)>(n: WNode<S, W>)
    requires WWf(n)
    ensures n.paths == 1 <==> WCount(n) == 1
  {
  }

  lemma WSharedPath<S(!new), W(!new)>(n: WNode<S, W>, path: seq<S>, node: WNode<S, W>, rest: seq<S>, found: bool)
    requires WUnder(n, path, node) && WWf(node) && node.WShared?
    requires found ==> forall s :: UHas(node.stacks, s) <==> s == rest
    requires OnePath(node.stacks) ==> found
    ensures found ==> IsSingle(n, path + rest, node.weight)
    ensures WCount(node) == 1 ==> found
  {
    if WCount(node) == 1 {
      SinglePathIsOne(node.stacks);
    }
    hide UHas;
    if found {
      forall s ensures PathWeights(n, s) == if s == path + rest then [node.weight] else [] {
        if path <= s {
          assert s == path + s[|path|..];
        }
      }
    }
  }

  lemma WThroughSegment<S(!new), W(!new)>(n: WNode<S, W>, path: seq<S>, node: WNode<S, W>)
    requires node.WSegment? && WUnder(n, path, node) && WWf(node)
    ensures WUnder(n, path + node.values.View(), node.next)
    ensures WWf(node.next) && WCount(node.next) == WCount(node)
  {
    var v := node.values.View();
    forall s ensures PathWeights(n, s) == if path + v <= s then PathWeights(node.next, s[|path + v|..]) else [] {
      CutPrefix(path, v, s);
      if path + v <= s {
        assert s[|path + v|..] == s[|path|..][|v|..];
      }
    }
  }

  lemma WThroughBranch<S(!new), W(!new)>(n: WNode<S, W>, path: seq<S>, node: WNode<S, W>, t: S, c: WNode<S, W>)
    requires node.WBranch? && node.empty == [] && OnlyEntry(node.children, t, c) && WUnder(n, path, node) && WWf(node)
    ensures WUnder(n, path + [t], c)
    ensures WWf(c) && WCount(c) == WCount(node)
  {
    assert AltsAt(node.children, t) == [c];
    assert c in AltsAt(node.children, t);
    forall k | k in node.children ensures k == t {
      assert AltsAt(node.children, k) != [];
    }
    SumOne(WCounts(node), t);
    assert WCountAll([c]) == WCount(c) + WCountAll([c][1..]);
    OneWayOn(n, path, node, t, c);
  }

  lemma OneWayOn<S(!new), W(!new)>(n: WNode<S, W>, path: seq<S>, node: WNode<S, W>, t: S, c: WNode<S, W>)
    requires node.WBranch? && node.empty == [] && node.children.Keys == {t} && node.children[t].nodes == [c]
    requires WUnder(n, path, node)
    ensures WUnder(n, path + [t], c)
  {
    forall rest ensures PathWeights(node, rest) == if [t] <= rest then PathWeights(c, rest[1..]) else [] {
      if rest != [] && rest[0] == t {
        assert PathWeightsAll([c], rest[1..]) == PathWeights(c, rest[1..]) + PathWeightsAll([c][1..], rest[1..]);
      }
    }
    hide PathWeights;
    forall s ensures PathWeights(n, s) == if path + [t] <= s then PathWeights(c, s[|path + [t]|..]) else [] {
      CutPrefix(path, [t], s);
      if path + [t] <= s {
        assert s[|path|..][1..] == s[|path + [t]|..];
      }
    }
  }

  lemma WAtEnd<S(!new), W(!new)>(n: WNode<S, W>, path: seq<S>, node: WNode<S, W>)
    requires node.WBranch? && |node.empty| == 1 && node.children == map[] && WUnder(n, path, node)
    ensures IsSingle(n, path, node.empty[0])
  {
    forall s ensures PathWeights(n, s) == if s == path then [node.empty[0]] else [] {
      if path <= s {
        assert s[|path|..] == [] <==> s == path;
      }
    }
  }

  lemma WNoWay<S(!new), W(!new)>(node: WNode<S, W>)
    requires WWf(node) && node.WBranch? && !(|node.empty| == 1 && node.children == map[])
    requires || node.empty != [] || SeveralEntries(node.children)
             || forall t {:trigger AltsAt(node.children, t)} :: AltsAt(node.children, t) == []
    ensures WCount(node) != 1
  {
    var counts := WCounts(node);
    if t :| t in node.children {
      PositiveAlternative(node, t);
      SumRemove(counts, t);
      if node.empty == [] {
        assert AltsAt(node.children, t) != [];
        var k, j :| k != j && AltsAt(node.children, k) != [] && AltsAt(node.children, j) != [];
        PositiveAlternative(node, k);
        PositiveAlternative(node, j);
        SumRemove(counts, k);
        SumRemove(counts - {k}, j);
      }
    } else {
      SumNone(counts);
    }
  }

  lemma PositiveAlternative<S(!new), W(!new)>(n: WNode<S, W>, t: S)
    requires WWf(n) && n.WBranch? && t in n.children
    ensures WCounts(n)[t] >= 1
  {
    var c := n.children[t].nodes[0];
    assert c in AltsAt(n.children, t);
    assert c.paths > 0 && WNormal(c);
    NormalCached(c);
    hide WNormal, WDetermined;
    WCountAllPositive(n.children[t].nodes, c);
    assert WCounts(n)[t] == WCountAll(n.children[t].nodes);
  }

  // ----- top-first listings

  function Turned<S, W>(pairs: seq<(seq<S>, W)>): (r: seq<(seq<S>, W)>)
    ensures |r| == |pairs| && forall i :: 0 <= i < |pairs| ==> r[i] == (Rev(pairs[i].0), pairs[i].1)
  {
    seq(|pairs|, i requires 0 <= i < |pairs| => (Rev(pairs[i].0), pairs[i].1))
  }

  lemma TurnedTwice<S, W>(pairs: seq<(seq<S>, W)>)
    ensures Turned(Turned(pairs)) == pairs
  {
    forall i | 0 <= i < |pairs| ensures Turned(Turned(pairs))[i] == pairs[i] {
      RevRev(pairs[i].0);
    }
  }

  /** The top-first pairs list every represented stack once, with its joined weight. */
  ghost predicate ListsTopFirst<S(!new), W(!new)>(L: Lattice<W>, n: WNode<S, W>, pairs: seq<(seq<S>, W)>) {
    Lists(L, n, Turned(pairs))
  }

  lemma SingleListed<S(!new), W(!new)>(L: Lattice<W>, n: WNode<S, W>, path: seq<S>, w: W)
    requires IsSingle(n, path, w)
    ensures ListsTopFirst(L, n, [(path, w)])
  {
    var pairs := Turned([(path, w)]);
    hide PathWeights;
    assert JoinAll(L, [w]) == Some(w) by {
      assert [w][1..] == [] && JoinAll(L, [w][1..]) == None;
    }
    assert forall s :: Den(L, n, s) == if s == path then Some(w) else None;
    RevRev(path);
    hide Den, WHas;
    forall k | Represented(n, k) ensures HasKey(pairs, k) {
      DenSome(L, n, Rev(k));
      RevRev(k);
      assert pairs[0].0 == k;
    }
  }

  lemma NoneFits<S(!new), W(!new)>(L: Lattice<W>, n: WNode<S, W>, path: seq<S>, w: W)
    requires IsSingle(n, path, w)
    ensures TooMany(n, 0)
  {
    SingleListed(L, n, path, w);
    ListsNotTooMany(L, n, Turned([(path, w)]), 0);
  }

  /** The callback of a visit, seen from outside: the calls made so far. */
  class Visitor<S, W> {
    var calls: seq<(seq<S>, W)>

    constructor ()
      ensures calls == []
    {
      calls := [];
    }

    method Visit(stack: seq<S>, weight: W)
      modifies this
      ensures calls == old(calls) + [(stack, weight)]
    {
      calls := calls + [(stack, weight)];
    }
  }

  /** Visit every stack once, or, when there are more than `limit`, none at all. */
  method ForEachStackTopFirst<S(!new), W(!new)>(L: Lattice<W>, n: WNode<S, W>, limit: nat, visitor: Visitor<S, W>)
    returns (r: Result<()>)
    requires Laws(L) && WWf(n)
    modifies visitor
    ensures r.StackLimitExceeded? ==> TooMany(n, limit) && visitor.calls == old(visitor.calls)
    ensures r.Ok? ==> old(visitor.calls) <= visitor.calls
    ensures r.Ok? ==> |visitor.calls| - |old(visitor.calls)| <= limit
    ensures r.Ok? ==> ListsTopFirst(L, n, visitor.calls[|old(visitor.calls)|..])
  {
    hide WNormal, WDetermined, Lists, TooMany, IsSingle;
    ghost var before := visitor.calls;
    if n.paths == 1 {
      var stack, weight := SingleWeightedPath(n);
      if weight.Some? {
        SingleListed(L, n, stack, weight.value);
        if limit == 0 {
          NoneFits(L, n, stack, weight.value);
          return StackLimitExceeded;
        }
        visitor.Visit(stack, weight.value);
        assert visitor.calls[|before|..] == [(stack, weight.value)];
        return Ok(());
      }
    }
    var stacks := MaterializeStacks(L, n, limit);
    if stacks.StackLimitExceeded? {
      return StackLimitExceeded;
    }
    for i := 0 to |stacks.value|
      invariant visitor.calls == before + Turned(stacks.value)[..i]
    {
      visitor.Visit(Rev(stacks.value[i].0), stacks.value[i].1);
    }
    TurnedTwice(stacks.value);
    assert visitor.calls[|before|..] == Turned(stacks.value);
    r := Ok(());
  }

  /** Reverse every listed stack in place. */
  method ReverseEach<S, W>(pairs: seq<(seq<S>, W)>) returns (r: seq<(seq<S>, W)>)
    ensures r == Turned(pairs)
  {
    r := pairs;
    for i := 0 to |pairs|
      invariant |r| == |pairs| && r[i..] == pairs[i..]
      invariant r[..i] == Turned(pairs)[..i]
    {
      assert r[i] == r[i..][0] == pairs[i];
      r := r[i := (Rev(r[i].0), r[i].1)];
    }
  }

  method CollectStacksTopFirst<S(!new), W(!new)>(L: Lattice<W>, n: WNode<S, W>, limit: nat)
    returns (r: Result<seq<(seq<S>, W)>>)
    requires Laws(L) && WWf(n)
    ensures r.Ok? ==> |r.value| <= limit && ListsTopFirst(L, n, r.value)
    ensures r.StackLimitExceeded? ==> TooMany(n, limit)
  {
    hide WNormal, WDetermined, Lists, TooMany, IsSingle;
    if n.paths == 1 {
      var stack, weight := SingleWeightedPath(n);
      if weight.Some? {
        SingleListed(L, n, stack, weight.value);
        if limit == 0 {
          NoneFits(L, n, stack, weight.value);
          return StackLimitExceeded;
        }
        return Ok([(stack, weight.value)]);
      }
    }
    var stacks := MaterializeStacks(L, n, limit);
    if stacks.StackLimitExceeded? {
      return StackLimitExceeded;
    }
    TurnedTwice(stacks.value);
    var turned := ReverseEach(stacks.value);
    r := Ok(turned);
  }

  /** Both routes enumerate: bottom first, each stack once with its joined weight, and a
      failure exactly beyond the limit. */
  method ToStacks<S(!new), W(!new)>(L: Lattice<W>, n: WNode<S, W>, limit: nat)
    returns (r: Result<seq<(seq<S>, W)>>)
    requires Laws(L) && WWf(n)
    ensures Enumerates(L, n, limit, r)
  {
    hide WNormal, WDetermined, Lists, TooMany;
    if n.paths == 1 {
      var stacks := CollectStacksTopFirst(L, n, limit);
      if stacks.StackLimitExceeded? {
        return StackLimitExceeded;
      }
      var turned := ReverseEach(stacks.value);
      r := Ok(turned);
    } else {
      r := MaterializeStacks(L, n, limit);
    }
  }
}
