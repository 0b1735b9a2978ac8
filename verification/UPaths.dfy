/** Nodes that encode a single path, compared symbol by symbol whatever their segmentation. */
module UPaths {
  import opened Weights
  import opened Segments
  import opened Counting
  import opened Pointers
  import opened Tables
  import opened UNodes

  /** There is exactly one way down from `n`. */
  ghost predicate OnePath<S(!new)>(n: UNode<S>)
    decreases n
  {
    match n
    case UBranch(empty, children, _, _) =>
      if empty then children == map[]
      else exists t :: OnlyChild(children, t) && OnePath(children[t].nodes[0])
    case USegment(_, next, _, _) => OnePath(next)
  }

  ghost predicate OnlyChild<S(!new)>(children: UChildren<S>, t: S) {
    children.Keys == {t} && |children[t].nodes| == 1
  }

  /** The stack that path spells, top first. */
  ghost function UPath<S(!new)>(n: UNode<S>): seq<S>
    requires OnePath(n)
    decreases n
  {
    match n
    case UBranch(empty, children, _, _) =>
      if empty then []
      else
        var t :| OnlyChild(children, t) && OnePath(children[t].nodes[0]);
        [t] + UPath(children[t].nodes[0])
    case USegment(values, next, _, _) => values.View() + UPath(next)
  }

  lemma {:induction false} OnePathLanguage<S(!new)>(n: UNode<S>, s: seq<S>)
    requires OnePath(n)
    ensures UHas(n, s) <==> s == UPath(n)
    decreases n
  {
    match n
    case UBranch(empty, children, _, _) =>
      if !empty {
        var t :| OnlyChild(children, t) && OnePath(children[t].nodes[0]) && UPath(n) == [t] + UPath(children[t].nodes[0]);
        var c := children[t].nodes[0];
        if s != [] {
          OnePathLanguage(c, s[1..]);
          assert AltsAt(children, t) == [c];
          assert s[0] == t ==> s == [t] + s[1..];
        }
      }
    case USegment(values, next, _, _) =>
      if values.View() <= s {
        OnePathLanguage(next, s[|values.View()|..]);
        assert s == values.View() + s[|values.View()|..];
      }
  }

  /** The cached counter says one path exactly when there is one. */
  lemma {:induction false} SinglePathIsOne<S(!new)>(n: UNode<S>)
    requires UWf(n) && n.paths == 1
    ensures OnePath(n)
    decreases n
  {
    match n
    case USegment(_, next, _, _) =>
      SinglePathIsOne(next);
    case UBranch(empty, children, _, _) =>
      SingleBranchIsEnd(n);
  }

  lemma SingleBranchIsEnd<S(!new)>(n: UNode<S>)
    requires UWf(n) && n.UBranch? && n.paths == 1
    ensures n.empty && n.children == map[]
  {
    if t :| t in n.children {
      TwoWays(n, t);
    } else {
      assert UCounts(n) == map[];
    }
  }

  /** In normal form a branch with any symbol has a second way on. */
  lemma TwoWays<S(!new)>(n: UNode<S>, t: S)
    requires UWf(n) && n.UBranch? && t in n.children
    ensures UCount(n) >= 2
  {
    var counts := UCounts(n);
    PositiveChild(n, t);
    SumRemove(counts, t);
    if !n.empty {
      assert |n.children.Keys - {t}| > 0;
      var u :| u in n.children.Keys - {t};
      PositiveChild(n, u);
      SumRemove(counts - {t}, u);
    }
  }

  lemma PositiveChild<S(!new)>(n: UNode<S>, t: S)
    requires UWf(n) && n.UBranch? && t in n.children
    ensures UCounts(n)[t] >= 1
  {
    var c := n.children[t].nodes[0];
    assert c in AltsAt(n.children, t);
    UCountAllPositive(n.children[t].nodes, c);
  }

  lemma PathFacts<S(!new)>(n: UNode<S>)
    requires UWf(n) && n.paths == 1
    ensures OnePath(n) && UHas(n, UPath(n)) && |UPath(n)| == UDepth(n)
    ensures forall s :: UHas(n, s) <==> s == UPath(n)
  {
    SinglePathIsOne(n);
    var s := ULongest(n);
    OnePathLanguage(n, s);
    hide UWf, UHas, UPath;
    forall s ensures UHas(n, s) <==> s == UPath(n) {
      OnePathLanguage(n, s);
    }
  }

  /** Taking part of its one stack off a single-path node leaves just the rest of that stack,
      so never nothing. */
  lemma PathPopped<S(!new)>(n: UNode<S>, r: UNode<S>, count: nat)
    requires UWf(n) && n.paths == 1 && OnePath(n) && count <= |UPath(n)|
    requires UWf(r) && UIsPop(r, n, count)
    ensures r.paths > 0 && forall s :: UHas(r, s) <==> s == UPath(n)[count..]
  {
    PathFacts(n);
    UEmptyIff(r);
    hide UWf, UHas, UPath, OnePath;
    forall s ensures UHas(r, s) <==> s == UPath(n)[count..] {
      OnlyPopped(n, UPath(n), count, s);
    }
    hide UIsPop;
    assert UHas(r, UPath(n)[count..]);
  }

  lemma OnlyPopped<S(!new)>(n: UNode<S>, path: seq<S>, count: nat, s: seq<S>)
    requires count <= |path| && forall t :: UHas(n, t) <==> t == path
    ensures UPopHas(n, count, s) <==> s == path[count..]
  {
    hide UHas;
    if UPopHas(n, count, s) {
      var p :| |p| == count && UHas(n, p + s);
      assert s == (p + s)[count..];
    }
    if s == path[count..] {
      assert path == path[..count] + s;
    }
  }

  /** Taking their longest common run off two single paths leaves both sides non-empty: each
      still holds the rest of its stack, and the rests have no common top. */
  lemma PrefixLeavesBoth<S(!new)>(left: UNode<S>, right: UNode<S>, leftRest: UNode<S>, rightRest: UNode<S>, count: nat)
    requires UWf(left) && UWf(right) && left.paths == 1 && right.paths == 1 && OnePath(left) && OnePath(right)
    requires count == CommonLen(UPath(left), UPath(right))
    requires UWf(leftRest) && UWf(rightRest) && UIsPop(leftRest, left, count) && UIsPop(rightRest, right, count)
    ensures leftRest.paths > 0 && rightRest.paths > 0
    ensures forall s :: UHas(leftRest, s) <==> s == UPath(left)[count..]
    ensures forall s :: UHas(rightRest, s) <==> s == UPath(right)[count..]
    ensures forall s, t :: UHas(leftRest, s) && UHas(rightRest, t) ==> s == [] || t == [] || s[0] != t[0]
  {
    hide UWf, UHas, UPath, OnePath, UIsPop;
    PathPopped(left, leftRest, count);
    PathPopped(right, rightRest, count);
  }

  /** A position on the one path of a node. */
  class USinglePathCursor<S(==, !new)> {
    var node: UNode<S>
    var segmentIndex: nat
    var finished: bool

    ghost predicate Valid()
      reads this
    {
      && OnePath(node)
      && segmentIndex <= if node.USegment? then |node.values.View()| else 0
    }

    /** What is still to be read. */
    ghost function Rest(): seq<S>
      reads this
      requires Valid()
    {
      if finished then []
      else if node.USegment? then node.values.View()[segmentIndex..] + UPath(node.next)
      else UPath(node)
    }

    constructor (n: UNode<S>)
      requires OnePath(n)
      ensures Valid() && Rest() == UPath(n)
    {
      node := n;
      segmentIndex := 0;
      finished := false;
    }

    method Next() returns (r: Option<S>)
      requires Valid()
      modifies this
      ensures Valid()
      ensures r == if old(Rest()) == [] then None else Some(old(Rest())[0])
      ensures Rest() == if old(Rest()) == [] then [] else old(Rest())[1..]
    {
      hide *;
      if finished {
        NothingLeft();
        return None;
      }
      ghost var rest := Rest();
      while true
        invariant Valid() && !finished && Rest() == rest
        decreases node
      {
        if node.USegment? {
          r := ReadSegment();
          if r.Some? {
            return;
          }
        } else {
          if node.empty {
            Finish();
            return None;
          }
          r := TakeAlternative();
          return;
        }
      }
    }

    lemma NothingLeft()
      requires Valid() && finished
      ensures Rest() == []
    {
    }

    method Finish()
      requires Valid() && !finished && node.UBranch? && node.empty
      modifies this
      ensures Valid() && old(Rest()) == [] == Rest()
    {
      finished := true;
    }

    /** The next symbol of the current segment, or a step past its end. */
    method ReadSegment() returns (r: Option<S>)
      requires Valid() && !finished && node.USegment?
      modifies this
      ensures Valid() && !finished
      ensures r.None? ==> Rest() == old(Rest()) && (old(node) decreases to node)
      ensures r.Some? ==> old(Rest()) != [] && r == Some(old(Rest())[0]) && Rest() == old(Rest())[1..]
    {
      hide UPath;
      r := node.values.Get(segmentIndex);
      if r.Some? {
        segmentIndex := segmentIndex + 1;
        return;
      }
      LeaveSegment();
    }

    method LeaveSegment()
      requires Valid() && !finished && node.USegment? && segmentIndex == |node.values.View()|
      modifies this
      ensures Valid() && !finished && Rest() == old(Rest())
      ensures old(node) decreases to node
    {
      node := node.next;
      segmentIndex := 0;
      assert Rest() == UPath(node);
    }

    method TakeAlternative() returns (r: Option<S>)
      requires Valid() && !finished && node.UBranch? && !node.empty
      modifies this
      ensures Valid() && old(Rest()) != [] && r == Some(old(Rest())[0]) && Rest() == old(Rest())[1..]
    {
      var top :| top in node.children.Keys;
      OnlyWay(node, top);
      r := Some(top);
      node := node.children[top].nodes[0];
      segmentIndex := 0;
      assert Rest() == UPath(node);
    }
  }

  lemma OnlyWay<S(!new)>(n: UNode<S>, t: S)
    requires n.UBranch? && !n.empty && OnePath(n) && t in n.children
    ensures |n.children[t].nodes| == 1 && OnePath(n.children[t].nodes[0])
    ensures UPath(n) == [t] + UPath(n.children[t].nodes[0])
  {
    var k :| OnlyChild(n.children, k) && OnePath(n.children[k].nodes[0])
             && UPath(n) == [k] + UPath(n.children[k].nodes[0]);
    assert t == k;
  }

  /** Equality of single-path stacks, independent of how they are cut into segments. */
  method USameSinglePath<S(!new)>(left: UNode<S>, right: UNode<S>) returns (same: bool)
    requires UWf(left) && UWf(right)
    ensures same ==> left == right || (left.paths == 1 && right.paths == 1)
    ensures left.paths == 1 && right.paths == 1 ==>
              OnePath(left) && OnePath(right) && (same <==> UPath(left) == UPath(right))
  {
    hide UWf, UPath, UHas, UDepth;
    if left.paths == 1 && right.paths == 1 {
      PathFacts(left);
      PathFacts(right);
    }
    var ptr := PtrEq(left, right);
    if ptr {
      return true;
    }
    if left.paths != 1 || right.paths != 1 || left.maxDepth != right.maxDepth {
      DepthsDiffer(left, right);
      return false;
    }
    same := ComparePaths(left, right);
  }

  lemma DepthsDiffer<S(!new)>(left: UNode<S>, right: UNode<S>)
    requires UWf(left) && UWf(right)
    ensures left.maxDepth != right.maxDepth ==> UDepth(left) != UDepth(right)
  {
  }

  method ComparePaths<S(!new)>(left: UNode<S>, right: UNode<S>) returns (same: bool)
    requires OnePath(left) && OnePath(right)
    ensures same <==> UPath(left) == UPath(right)
  {
    hide OnePath, UPath;
    var l := new USinglePathCursor(left);
    var r := new USinglePathCursor(right);
    while true
      invariant l.Valid() && r.Valid() && l != r && fresh(l) && fresh(r)
      invariant UPath(left) == UPath(right) <==> l.Rest() == r.Rest()
      decreases |l.Rest()|
    {
      ghost var lRest, rRest := l.Rest(), r.Rest();
      var a := l.Next();
      var b := r.Next();
      if a.Some? && b.Some? && a == b {
        assert lRest == [a.value] + l.Rest() && rRest == [b.value] + r.Rest();
      } else if a.None? && b.None? {
        return true;
      } else {
        return false;
      }
    }
  }

  /** The longest run of symbols two single-path nodes share from the top. */
  method UCommonSinglePathPrefix<S(!new)>(left: UNode<S>, right: UNode<S>) returns (prefix: seq<S>)
    requires UWf(left) && UWf(right)
    ensures left.paths == 1 && right.paths == 1 ==>
              OnePath(left) && OnePath(right)
              && prefix == UPath(left)[..CommonLen(UPath(left), UPath(right))]
    ensures left.paths != 1 || right.paths != 1 ==> prefix == []
  {
    hide UWf, UPath, UHas, OnePath;
    if left.paths != 1 || right.paths != 1 {
      return [];
    }
    PathFacts(left);
    PathFacts(right);
    prefix := CommonPath(left, right);
  }

  method CommonPath<S(!new)>(left: UNode<S>, right: UNode<S>) returns (prefix: seq<S>)
    requires OnePath(left) && OnePath(right)
    ensures prefix == UPath(left)[..CommonLen(UPath(left), UPath(right))]
  {
    hide OnePath, UPath, InCommon;
    var l := new USinglePathCursor(left);
    var r := new USinglePathCursor(right);
    prefix := [];
    CommonStart(UPath(left));
    CommonStart(UPath(right));
    ghost var p, q := UPath(left), UPath(right);
    while true
      invariant l.Valid() && r.Valid() && l != r && fresh(l) && fresh(r)
      invariant InCommon(p, prefix, l.Rest()) && InCommon(q, prefix, r.Rest())
      decreases |l.Rest()|
    {
      ghost var lRest, rRest := l.Rest(), r.Rest();
      var a := l.Next();
      var b := r.Next();
      if a.None? || b.None? || a != b {
        CommonLenIs(p, q, prefix, lRest, rRest);
        return;
      }
      OneMoreCommon(p, prefix, lRest);
      OneMoreCommon(q, prefix, rRest);
      prefix := prefix + [a.value];
    }
  }

  ghost predicate InCommon<S>(whole: seq<S>, prefix: seq<S>, rest: seq<S>) {
    whole == prefix + rest
  }

  lemma CommonStart<S>(whole: seq<S>)
    ensures InCommon(whole, [], whole)
  {
  }

  lemma OneMoreCommon<S>(whole: seq<S>, prefix: seq<S>, rest: seq<S>)
    requires InCommon(whole, prefix, rest) && rest != []
    ensures InCommon(whole, prefix + [rest[0]], rest[1..])
  {
    assert rest == [rest[0]] + rest[1..];
  }

  /** The longest common prefix is unique. */
  lemma CommonLenIs<S>(a: seq<S>, b: seq<S>, prefix: seq<S>, aRest: seq<S>, bRest: seq<S>)
    requires InCommon(a, prefix, aRest) && InCommon(b, prefix, bRest)
    requires aRest == [] || bRest == [] || aRest[0] != bRest[0]
    ensures prefix == a[..CommonLen(a, b)]
  {
    assert a[..|prefix|] == prefix == b[..|prefix|];
  }
}
