/** Stored weight regions, and walks that visit each reachable weighted node once,
    however often it is shared. */
module Regions {
  import opened Tables
  import opened UNodes
  import opened WNodes
  import opened Live
  import opened Meaning

  /** The weights stored at a node itself. */
  function OwnWeights<S(==), W>(n: WNode<S, W>): seq<W> {
    match n
    case WBranch(_, empty, _, _, _) => empty
    case WSegment(_, _, _, _, _) => []
    case WShared(_, weight, _, _, _) => [weight]
  }

  /** All weights stored in a set of nodes, each node counted once. */
  ghost function Total<S(!new), W(!new)>(nodes: set<WNode<S, W>>): multiset<W> {
    if nodes == {} then multiset{}
    else
      var n :| n in nodes;
      multiset(OwnWeights(n)) + Total(nodes - {n})
  }

  /** The total does not depend on the order of visits. */
  lemma {:induction false} TotalRemove<S(!new), W(!new)>(nodes: set<WNode<S, W>>, n: WNode<S, W>)
    requires n in nodes
    ensures Total(nodes) == multiset(OwnWeights(n)) + Total(nodes - {n})
    decreases |nodes|
  {
    var m :| m in nodes && Total(nodes) == multiset(OwnWeights(m)) + Total(nodes - {m});
    if m != n {
      TotalRemove(nodes - {m}, n);
      TotalRemove(nodes - {n}, m);
      assert nodes - {m} - {n} == nodes - {n} - {m};
    }
  }

  lemma TotalAdd<S(!new), W(!new)>(nodes: set<WNode<S, W>>, n: WNode<S, W>)
    requires n !in nodes
    ensures Total(nodes + {n}) == multiset(OwnWeights(n)) + Total(nodes)
  {
    TotalRemove(nodes + {n}, n);
    assert nodes + {n} - {n} == nodes;
  }

  lemma {:induction false} TotalHas<S(!new), W(!new)>(nodes: set<WNode<S, W>>, w: W)
    ensures w in Total(nodes) <==> exists n :: n in nodes && w in OwnWeights(n)
    decreases |nodes|
  {
    if nodes != {} {
      var m :| m in nodes && Total(nodes) == multiset(OwnWeights(m)) + Total(nodes - {m});
      TotalHas(nodes - {m}, w);
    }
  }

  /** The places among some nodes that hold `w`: a shared node has one, number 0, and a branch
      one for each weight of its empty stack. */
  ghost function Slots<S(!new), W(!new)>(nodes: set<WNode<S, W>>, w: W): set<(WNode<S, W>, nat)> {
    (set n | n in nodes && n.WShared? && n.weight == w :: (n, 0))
    + (set n, j | n in nodes && n.WBranch? && 0 <= j < |n.empty| && n.empty[j] == w :: (n, j))
  }

  /** The total holds every weight as often as there are places that hold it. */
  lemma {:induction false} TotalSlots<S(!new), W(!new)>(nodes: set<WNode<S, W>>, w: W)
    ensures Total(nodes)[w] == |Slots(nodes, w)|
    decreases |nodes|
  {
    if nodes != {} {
      var n :| n in nodes && Total(nodes) == multiset(OwnWeights(n)) + Total(nodes - {n});
      TotalSlots(nodes - {n}, w);
      OwnSlots(n, w);
      SlotsSplit(nodes, n, w);
      hide *;
    }
  }

  ghost predicate HeldAt<S(!new), W(!new)>(n: WNode<S, W>, j: nat, w: W) {
    (n.WShared? && j == 0 && n.weight == w) || (n.WBranch? && j < |n.empty| && n.empty[j] == w)
  }

  lemma SlotIff<S(!new), W(!new)>(nodes: set<WNode<S, W>>, w: W, n: WNode<S, W>, j: nat)
    ensures (n, j) in Slots(nodes, w) <==> n in nodes && HeldAt(n, j, w)
  {
  }

  lemma SlotsSplit<S(!new), W(!new)>(nodes: set<WNode<S, W>>, n: WNode<S, W>, w: W)
    requires n in nodes
    ensures Slots(nodes, w) == Slots(nodes - {n}, w) + Slots({n}, w)
    ensures Slots(nodes - {n}, w) !! Slots({n}, w)
  {
    hide Slots, HeldAt;
    forall m, j: nat ensures (m, j) in Slots(nodes, w) <==> (m, j) in Slots(nodes - {n}, w) || (m, j) in Slots({n}, w)
      ensures !((m, j) in Slots(nodes - {n}, w) && (m, j) in Slots({n}, w))
    {
      SlotIff(nodes, w, m, j);
      SlotIff(nodes - {n}, w, m, j);
      SlotIff({n}, w, m, j);
    }
    forall p ensures p in Slots(nodes, w) <==> p in Slots(nodes - {n}, w) || p in Slots({n}, w)
      ensures !(p in Slots(nodes - {n}, w) && p in Slots({n}, w))
    {
      assert p == (p.0, p.1);
    }
  }

  ghost function Places<S(!new), W(!new)>(n: WNode<S, W>, w: W): set<(WNode<S, W>, nat)> {
    if n.WBranch? then set j | 0 <= j < |n.empty| && n.empty[j] == w :: (n, j)
    else if n.WShared? && n.weight == w then {(n, 0)}
    else {}
  }

  lemma OwnSlots<S(!new), W(!new)>(n: WNode<S, W>, w: W)
    ensures multiset(OwnWeights(n))[w] == |Slots({n}, w)|
  {
    if n.WBranch? {
      EntrySlots(n, w, |n.empty|);
      assert n.empty[..|n.empty|] == n.empty;
    }
    assert multiset(OwnWeights(n))[w] == |Places(n, w)|;
    hide *;
    PlacesAreSlots(n, w);
  }

  lemma PlacesAreSlots<S(!new), W(!new)>(n: WNode<S, W>, w: W)
    ensures Slots({n}, w) == Places(n, w)
  {
    forall p ensures p in Slots({n}, w) <==> p in Places(n, w) {
      assert p == (p.0, p.1);
      SlotIff({n}, w, p.0, p.1);
    }
  }

  lemma {:induction false} EntrySlots<S(!new), W(!new)>(n: WNode<S, W>, w: W, k: nat)
    requires n.WBranch? && k <= |n.empty|
    ensures multiset(n.empty[..k])[w] == |set j | 0 <= j < k && n.empty[j] == w :: (n, j)|
  {
    if k > 0 {
      EntrySlots(n, w, k - 1);
      assert n.empty[..k] == n.empty[..k - 1] + [n.empty[k - 1]];
      assert (set j | 0 <= j < k && n.empty[j] == w :: (n, j))
          == (set j | 0 <= j < k - 1 && n.empty[j] == w :: (n, j)) + if n.empty[k - 1] == w then {(n, k - 1)} else {};
    }
  }

  /** `ws` lists what is stored in some nodes, each place once. */
  ghost predicate EachPlaceOnce<S(!new), W(!new)>(ws: multiset<W>, nodes: set<WNode<S, W>>) {
    forall w {:trigger ws[w]} :: ws[w] == |Slots(nodes, w)|
  }

  lemma TotalOnce<S(!new), W(!new)>(nodes: set<WNode<S, W>>)
    ensures EachPlaceOnce(Total(nodes), nodes)
  {
    forall w ensures Total(nodes)[w] == |Slots(nodes, w)| {
      TotalSlots(nodes, w);
    }
  }

  // ----- depth-first walks

  ghost function Addrs<S(!new), W(!new)>(nodes: set<WNode<S, W>>): set<nat> {
    set n | n in nodes :: n.addr
  }

  /** Every node of `after` not yet in `before` has all its children in `after`. */
  ghost predicate Explored<S(!new), W(!new)>(before: set<WNode<S, W>>, after: set<WNode<S, W>>) {
    before <= after
    && forall m, c {:trigger IsKid(c, m)} :: m in after && m !in before && IsKid(c, m) ==> c in after
  }

  /** A walk from `n` has seen `n`, explored what it saw, and strayed nowhere. */
  ghost predicate Walked<S(!new), W(!new)>(n: WNode<S, W>, before: set<WNode<S, W>>, after: set<WNode<S, W>>) {
    Explored(before, after) && n in after && after <= before + Reach(n)
  }

  /** From nothing seen, a walk sees exactly what is reachable. */
  lemma WalkedAll<S(!new), W(!new)>(n: WNode<S, W>, after: set<WNode<S, W>>)
    requires Walked(n, {}, after)
    ensures after == Reach(n)
  {
    assert Closed(after);
    ReachWithin(n, after);
  }

  lemma SeenAddr<S(!new), W(!new)>(h: set<WNode<S, W>>, visited: set<WNode<S, W>>, n: WNode<S, W>)
    requires Heap(h) && visited <= h && n in h
    ensures n.addr in Addrs(visited) <==> n in visited
    ensures Addrs(visited + {n}) == Addrs(visited) + {n.addr}
  {
    if n.addr in Addrs(visited) {
      var m :| m in visited && m.addr == n.addr;
      assert m == n;
    }
  }

  /** The alternatives of a branch already walked through. */
  ghost predicate WalkedKids<S(!new), W(!new)>(n: WNode<S, W>, flat: seq<WNode<S, W>>, i: nat,
                                               before: set<WNode<S, W>>, after: set<WNode<S, W>>)
    requires i <= |flat|
  {
    && Explored(before + {n}, after)
    && n in after && after <= before + Reach(n)
    && forall j :: 0 <= j < i ==> flat[j] in after
  }

  lemma WalkStep<S(!new), W(!new)>(n: WNode<S, W>, flat: seq<WNode<S, W>>, i: nat,
                                   before: set<WNode<S, W>>, mid: set<WNode<S, W>>, after: set<WNode<S, W>>)
    requires n.WBranch? && i < |flat| && WalkedKids(n, flat, i, before, mid) && Walked(flat[i], mid, after)
    requires forall v :: v in flat <==> exists t :: v in AltsAt(n.children, t)
    ensures WalkedKids(n, flat, i + 1, before, after)
  {
    assert flat[i] in flat;
    var t :| flat[i] in AltsAt(n.children, t);
    KidReach(n, flat[i]);
  }

  lemma KidReach<S(!new), W(!new)>(n: WNode<S, W>, c: WNode<S, W>)
    requires IsKid(c, n)
    ensures c in Reach(n) && Reach(c) <= Reach(n)
  {
    ReachSelf(n);
    ReachClosed(n);
    ReachWithin(c, Reach(n));
  }

  lemma WalkBranch<S(!new), W(!new)>(n: WNode<S, W>, flat: seq<WNode<S, W>>, before: set<WNode<S, W>>, after: set<WNode<S, W>>)
    requires n.WBranch? && n !in before && WalkedKids(n, flat, |flat|, before, after)
    requires forall v :: v in flat <==> exists t :: v in AltsAt(n.children, t)
    ensures Walked(n, before, after)
  {
    forall m, c | m in after && m !in before && IsKid(c, m) ensures c in after {
      if m == n {
        assert c in flat;
      } else {
        assert m !in before + {n};
      }
    }
  }

  lemma WalkSegment<S(!new), W(!new)>(n: WNode<S, W>, before: set<WNode<S, W>>, after: set<WNode<S, W>>)
    requires n.WSegment? && Walked(n.next, before + {n}, after)
    ensures Walked(n, before, after)
  {
    KidReach(n, n.next);
    forall m, c | m in after && m !in before && IsKid(c, m) ensures c in after {
      if m != n {
        assert m !in before + {n};
      }
    }
  }

  lemma WalkShared<S(!new), W(!new)>(n: WNode<S, W>, before: set<WNode<S, W>>)
    requires n.WShared?
    ensures Walked(n, before, before + {n})
  {
  }

  // ----- regions against meaning

  /** A path weight is stored at some reachable node. */
  lemma {:induction false} PathWeightStored<S(!new), W(!new)>(n: WNode<S, W>, s: seq<S>, w: W) returns (m: WNode<S, W>)
    requires w in PathWeights(n, s)
    ensures m in Reach(n) && w in OwnWeights(m)
    decreases n, 1
  {
    match n
    case WBranch(_, empty, children, _, _) =>
      if s == [] {
        m := n;
      } else {
        var c: WNode<S, W>;
        c, m := PathWeightAmong(children[s[0]].nodes, s[1..], w);
        assert c in AltsAt(children, s[0]);
        KidReach(n, c);
      }
    case WSegment(_, values, next, _, _) =>
      m := PathWeightStored(next, s[|values.View()|..], w);
    case WShared(_, _, _, _, _) =>
      m := n;
  }

  lemma {:induction false} PathWeightAmong<S(!new), W(!new)>(q: seq<WNode<S, W>>, s: seq<S>, w: W)
    returns (c: WNode<S, W>, m: WNode<S, W>)
    requires w in PathWeightsAll(q, s)
    ensures c in q && m in Reach(c) && w in OwnWeights(m)
    decreases q, 0
  {
    if w in PathWeights(q[0], s) {
      c := q[0];
      m := PathWeightStored(c, s, w);
    } else {
      c, m := PathWeightAmong(q[1..], s, w);
    }
  }

  /** Conversely every weight stored at a reachable node is the weight of some stack. */
  lemma {:induction false} StoredOnPath<S(!new), W(!new)>(n: WNode<S, W>, m: WNode<S, W>, w: W) returns (s: seq<S>)
    requires WWf(n) && m in Reach(n) && w in OwnWeights(m)
    ensures w in PathWeights(n, s)
    decreases n
  {
    match n
    case WBranch(_, _, children, _, _) =>
      if m == n {
        s := [];
      } else {
        s := StoredUnderBranch(n, m, w);
      }
    case WSegment(_, values, next, _, _) =>
      var rest := StoredOnPath(next, m, w);
      s := values.View() + rest;
      assert s[|values.View()|..] == rest;
    case WShared(_, _, stacks, _, _) =>
      s := ULongest(stacks);
  }

  lemma {:induction false} StoredUnderBranch<S(!new), W(!new)>(n: WNode<S, W>, m: WNode<S, W>, w: W) returns (s: seq<S>)
    requires WWf(n) && n.WBranch? && m in Reach(n) && m != n && w in OwnWeights(m)
    ensures w in PathWeights(n, s)
    decreases n, 0
  {
    var c := ReachVia(n, m);
    var t :| c in AltsAt(n.children, t);
    OnlyAlternative(n, t, c);
    hide WNormal, WDetermined, PathWeights;
    var rest := StoredOnPath(c, m, w);
    s := [t] + rest;
    assert s[1..] == rest;
  }

  /** Determinism: what lies under a symbol of a branch is its one alternative. */
  lemma OnlyAlternative<S(!new), W(!new)>(n: WNode<S, W>, t: S, c: WNode<S, W>)
    requires WWf(n) && n.WBranch? && c in AltsAt(n.children, t)
    ensures WWf(c) && n.children[t].nodes == [c]
    ensures n decreases to c
    ensures forall s :: s != [] && s[0] == t ==> PathWeights(n, s) == PathWeights(c, s[1..])
  {
    assert n.children[t].nodes == [c];
    forall s | s != [] && s[0] == t ensures PathWeights(n, s) == PathWeights(c, s[1..]) {
      SingletonWeights(c, s[1..]);
    }
  }

  lemma SingletonWeights<S(!new), W(!new)>(c: WNode<S, W>, s: seq<S>)
    ensures PathWeightsAll([c], s) == PathWeights(c, s)
  {
    hide PathWeights;
    assert [c][1..] == [];
    assert PathWeightsAll([c][1..], s) == [];
  }
}
