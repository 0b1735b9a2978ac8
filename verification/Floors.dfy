/** What batched construction returns: one node per input, built over the floors the inputs share. */
module Floors {
  import opened Weights
  import opened Segments
  import opened UNodes
  import opened UOps
  import opened Arenas
  import opened Trie

  // ----- specification

  /** The inputs `a` and `b` first differ just above `p`. */
  ghost predicate Diverge<S(!new)>(p: seq<S>, a: seq<S>, b: seq<S>) {
    p < a && p < b && a[|p|] != b[|p|]
  }

  /** Bottom-first prefixes at which the construction stops compressing: the empty stack,
      the inputs themselves, and the points where two inputs part. */
  ghost predicate Significant<S(!new)>(stacks: seq<seq<S>>, p: seq<S>) {
    || p == []
    || p in stacks
    || exists a, b :: a in stacks && b in stacks && Diverge(p, a, b)
  }

  /** Length of the longest significant prefix of `p` no longer than `k`. */
  ghost function Stop<S(!new)>(stacks: seq<seq<S>>, p: seq<S>, k: nat): (j: nat)
    requires k <= |p|
    ensures j <= k && Significant(stacks, p[..j])
    ensures forall i :: j < i <= k ==> !Significant(stacks, p[..i])
  {
    if Significant(stacks, p[..k]) then k else Stop(stacks, p, k - 1)
  }

  /** The node for `p`: the run down to the next significant prefix, over that prefix's node. */
  ghost function Floor<S(!new)>(stacks: seq<seq<S>>, p: seq<S>): UNode<S>
    decreases |p|
  {
    if p == [] then UEnd()
    else
      var k := Stop(stacks, p, |p| - 1);
      USegmentOf(FromTopFirst(Rev(p[k..])), Floor(stacks, p[..k]))
  }

  /** The node for `p` holds just that stack, along a single path. */
  lemma {:induction false} FloorLanguage<S(!new)>(stacks: seq<seq<S>>, p: seq<S>)
    ensures UWf(Floor(stacks, p)) && Floor(stacks, p).paths == 1
    ensures forall s :: UHas(Floor(stacks, p), s) <==> s == Rev(p)
    decreases |p|
  {
    if p == [] {
      UEndWf<S>();
    } else {
      var k := Stop(stacks, p, |p| - 1);
      FloorLanguage(stacks, p[..k]);
      RunOver(Floor(stacks, p[..k]), p, k);
    }
  }

  lemma RunOver<S(!new)>(below: UNode<S>, p: seq<S>, k: nat)
    requires k < |p| && UWf(below) && below.paths == 1
    requires forall s :: UHas(below, s) <==> s == Rev(p[..k])
    ensures var r := USegmentOf(FromTopFirst(Rev(p[k..])), below);
            UWf(r) && r.paths == 1 && forall s :: UHas(r, s) <==> s == Rev(p)
  {
    var run := FromTopFirst(Rev(p[k..]));
    USegmentOfWf(run, below);
    USegmentOfHas(run, below);
    var r := USegmentOf(run, below);
    hide UWf, UHas, USegmentOf;
    forall s ensures UHas(r, s) <==> s == Rev(p) {
      RunSpells(p, k, s);
    }
  }

  lemma RunSpells<S(!new)>(p: seq<S>, k: nat, s: seq<S>)
    requires k < |p|
    ensures s == Rev(p) <==> Rev(p[k..]) <= s && s[|p| - k..] == Rev(p[..k])
  {
    hide Rev;
    assert p[..k] + p[k..] == p;
    RevConcat(p[..k], p[k..]);
    assert |Rev(p[k..])| == |p| - k;
    CutAt(Rev(p[k..]), Rev(p[..k]), s);
  }

  lemma CutAt<S>(a: seq<S>, b: seq<S>, s: seq<S>)
    ensures s == a + b <==> a <= s && s[|a|..] == b
  {
  }

  /** Every significant prefix of an input is a floor its node is built over. */
  lemma {:induction false} FloorBelow<S(!new)>(stacks: seq<seq<S>>, p: seq<S>, j: nat)
    requires j <= |p| && Significant(stacks, p[..j])
    ensures BuiltOver(Floor(stacks, p), Floor(stacks, p[..j]))
    decreases |p|
  {
    if j == |p| {
      assert p[..j] == p;
    } else {
      var k := Stop(stacks, p, |p| - 1);
      assert j <= k;
      assert p[..k][..j] == p[..j];
      FloorBelow(stacks, p[..k], j);
      FloorLanguage(stacks, p[..k]);
    }
  }

  /** Different prefixes have different nodes. */
  lemma FloorInjective<S(!new)>(stacks: seq<seq<S>>, p: seq<S>, q: seq<S>)
    requires Floor(stacks, p) == Floor(stacks, q)
    ensures p == q
  {
    FloorLanguage(stacks, p);
    FloorLanguage(stacks, q);
    hide UHas, Floor, UWf, Rev;
    assert UHas(Floor(stacks, p), Rev(p));
    RevRev(p);
    RevRev(q);
  }

  /** All significant prefixes: the empty stack, and those of the inputs. */
  ghost function SignificantSet<S(!new)>(stacks: seq<seq<S>>): set<seq<S>> {
    {[]} + set k, i | 0 <= k < |stacks| && 0 <= i <= |stacks[k]| && Significant(stacks, stacks[k][..i]) :: stacks[k][..i]
  }

  lemma SignificantSetExact<S(!new)>(stacks: seq<seq<S>>, p: seq<S>)
    ensures p in SignificantSet(stacks) <==> Significant(stacks, p)
    ensures Significant(stacks, p) && p != [] ==> OnTheWay(stacks, p)
  {
    if Significant(stacks, p) && p != [] {
      var a :| a in stacks && p <= a;
      var k :| 0 <= k < |stacks| && stacks[k] == a;
      assert stacks[k][..|p|] == p;
    }
  }

  // ----- what is shared

  /** The allocations made for the inputs: input `k` ends at allocation `ids[k]`. There is one
      allocation per significant prefix and no other, each holds the node of its prefix, no two
      hold the same, and two inputs end at one allocation exactly when they are equal. */
  ghost predicate Shared<S(!new)>(stacks: seq<seq<S>>, cells: seq<Cell<S>>, ids: seq<nat>) {
    && Linked(cells) && |ids| == |stacks|
    && (forall k {:trigger ids[k]} :: 0 <= k < |ids| ==>
          ids[k] < |cells| && Node(cells, ids[k]) == Floor(stacks, stacks[k]))
    && (forall j, k {:trigger ids[j], ids[k]} :: 0 <= j < |ids| && 0 <= k < |ids| ==>
          (ids[j] == ids[k] <==> stacks[j] == stacks[k]))
    && (forall c {:trigger HoldsFloor(stacks, cells, c)} :: 0 <= c < |cells| ==> HoldsFloor(stacks, cells, c))
    && (forall c, d {:trigger Node(cells, c), Node(cells, d)} :: 0 <= c < |cells| && 0 <= d < |cells| ==>
          Node(cells, c) == Node(cells, d) ==> c == d)
    && |cells| == |SignificantSet(stacks)|
  }

  ghost predicate HoldsFloor<S(!new)>(stacks: seq<seq<S>>, cells: seq<Cell<S>>, c: nat)
    requires Linked(cells) && c < |cells|
  {
    exists p :: Significant(stacks, p) && Node(cells, c) == Floor(stacks, p)
  }

  /** Two inputs that part lead down to one and the same allocation, that of the point where
      they part. */
  lemma SharedFloor<S(!new)>(stacks: seq<seq<S>>, cells: seq<Cell<S>>, ids: seq<nat>, j: nat, k: nat, p: seq<S>)
    returns (id: nat)
    requires Shared(stacks, cells, ids) && j < |stacks| && k < |stacks| && Diverge(p, stacks[j], stacks[k])
    ensures id < |cells| && Node(cells, id) == Floor(stacks, p)
    ensures Down(cells, ids[j], id) && Down(cells, ids[k], id)
  {
    var a, b := stacks[j], stacks[k];
    assert a[..|p|] == p && b[..|p|] == p;
    assert a in stacks && b in stacks;
    FloorBelow(stacks, a, |p|);
    FloorBelow(stacks, b, |p|);
    hide Floor, Significant, BuiltOver, Down, SignificantSet;
    id := DownTo(cells, ids[j], Floor(stacks, p));
    var other := DownTo(cells, ids[k], Floor(stacks, p));
  }

  // ----- the flags

  ghost predicate FlagsOk<S(!new)>(stacks: seq<seq<S>>, paths: seq<seq<S>>, significant: seq<bool>, n: nat) {
    && |significant| == n <= |paths|
    && forall i {:trigger significant[i]} :: 0 <= i < n ==> (significant[i] <==> Significant(stacks, paths[i]))
  }

  /** A node is significant if it is the root, ends an input, or does not have exactly one child. */
  method SignificantFlags<S(!new)>(stacks: seq<seq<S>>, nodes: seq<TrieNode<S>>, ghost paths: seq<seq<S>>,
                                       ghost terminals: seq<nat>) returns (significant: seq<bool>)
    requires TrieOk(nodes, paths) && Needed(stacks, paths) && Marked(stacks, |stacks|, nodes, paths, terminals)
    ensures FlagsOk(stacks, paths, significant, |nodes|)
  {
    hide Needed, Marked, Significant, NodeOk;
    significant := [];
    for i := 0 to |nodes|
      invariant FlagsOk(stacks, paths, significant, i)
    {
      ChildrenOk(nodes, paths, i);
      FlagIsSignificant(stacks, nodes, paths, terminals, i);
      var flag := i == 0 || nodes[i].terminal || nodes[i].children.Len() != 1;
      significant := significant + [flag];
    }
  }

  lemma ChildrenOk<S(!new)>(nodes: seq<TrieNode<S>>, paths: seq<seq<S>>, i: nat)
    requires TrieOk(nodes, paths) && i < |nodes|
    ensures nodes[i].children.Valid()
  {
    assert NodeOk(nodes, paths, i);
  }

  lemma FlagIsSignificant<S(!new)>(stacks: seq<seq<S>>, nodes: seq<TrieNode<S>>, paths: seq<seq<S>>, terminals: seq<nat>, i: nat)
    requires TrieOk(nodes, paths) && Needed(stacks, paths) && Marked(stacks, |stacks|, nodes, paths, terminals)
    requires i < |nodes|
    ensures i == 0 || nodes[i].terminal || |nodes[i].children.Contents()| != 1 <==> Significant(stacks, paths[i])
  {
    SameSize(nodes, paths);
    assert Significant(stacks, []);
    hide Needed, TrieOk, NodeOk, OnTheWay, Significant, Marked;
    if i == 0 {
      RootPath(nodes, paths);
    } else if !nodes[i].terminal {
      var contents := nodes[i].children.Contents();
      if |contents| >= 2 {
        var t :| t in contents;
        assert |contents.Keys - {t}| > 0;
        var v :| v in contents.Keys - {t};
        TwoChildren(stacks, nodes, paths, i, t, v);
      } else if |contents| == 0 {
        LeafIsTerminal(stacks, nodes, paths, terminals, i);
      } else if Significant(stacks, paths[i]) {
        SignificantBranches(stacks, nodes, paths, terminals, i);
      }
    }
  }

  /** The input behind a child of a node. */
  lemma ChildInput<S(!new)>(stacks: seq<seq<S>>, nodes: seq<TrieNode<S>>, paths: seq<seq<S>>, i: nat, t: S) returns (a: seq<S>)
    requires TrieOk(nodes, paths) && Needed(stacks, paths) && i < |nodes|
    requires t in nodes[i].children.Contents()
    ensures a in stacks && paths[i] < a && a[|paths[i]|] == t
  {
    ChildFacts(nodes, paths, i, t);
    var c := nodes[i].children.Contents()[t];
    assert OnTheWay(stacks, paths[c]);
    var k :| 0 <= k < |stacks| && paths[c] <= stacks[k];
    a := stacks[k];
    assert a[..|paths[c]|] == paths[i] + [t];
  }

  /** Conversely, an input that goes on above a node goes on through one of its children. */
  lemma InputChild<S(!new)>(stacks: seq<seq<S>>, nodes: seq<TrieNode<S>>, paths: seq<seq<S>>, terminals: seq<nat>, i: nat, a: seq<S>)
    requires TrieOk(nodes, paths) && Marked(stacks, |stacks|, nodes, paths, terminals) && i < |nodes|
    requires a in stacks && paths[i] < a
    ensures a[|paths[i]|] in nodes[i].children.Contents()
  {
    var m :| 0 <= m < |stacks| && stacks[m] == a;
    assert terminals[m] < |nodes| && paths[terminals[m]] == a;
    var k := |paths[i]|;
    var c := PrefixNode(nodes, paths, terminals[m], k + 1);
    assert NodeOk(nodes, paths, c);
    var q := nodes[c].parent.value;
    assert a[..k + 1] == paths[q] + [nodes[c].symbol.value];
    assert a[..k + 1][..k] == a[..k] == paths[i];
    assert paths[q] == paths[i];
    OneNode(nodes, paths, q, i);
    assert a[k] == a[..k + 1][k] == nodes[c].symbol.value;
  }

  lemma TwoChildren<S(!new)>(stacks: seq<seq<S>>, nodes: seq<TrieNode<S>>, paths: seq<seq<S>>, i: nat, t: S, v: S)
    requires TrieOk(nodes, paths) && Needed(stacks, paths) && i < |nodes| && t != v
    requires t in nodes[i].children.Contents() && v in nodes[i].children.Contents()
    ensures Significant(stacks, paths[i])
  {
    var a := ChildInput(stacks, nodes, paths, i, t);
    var b := ChildInput(stacks, nodes, paths, i, v);
    assert Diverge(paths[i], a, b);
  }

  /** A node without children ends an input. */
  lemma LeafIsTerminal<S(!new)>(stacks: seq<seq<S>>, nodes: seq<TrieNode<S>>, paths: seq<seq<S>>, terminals: seq<nat>, i: nat)
    requires TrieOk(nodes, paths) && Needed(stacks, paths) && Marked(stacks, |stacks|, nodes, paths, terminals)
    requires 0 < i < |nodes| && |nodes[i].children.Contents()| == 0
    ensures Significant(stacks, paths[i])
  {
    assert NodeOk(nodes, paths, i) && paths[i] != [];
    assert OnTheWay(stacks, paths[i]);
    var k :| 0 <= k < |stacks| && paths[i] <= stacks[k];
    if paths[i] != stacks[k] {
      InputChild(stacks, nodes, paths, terminals, i, stacks[k]);
      assert false;
    }
  }

  /** A significant node that ends no input has two children. */
  lemma SignificantBranches<S(!new)>(stacks: seq<seq<S>>, nodes: seq<TrieNode<S>>, paths: seq<seq<S>>, terminals: seq<nat>, i: nat)
    requires TrieOk(nodes, paths) && Marked(stacks, |stacks|, nodes, paths, terminals)
    requires 0 < i < |nodes| && !nodes[i].terminal && Significant(stacks, paths[i])
    ensures |nodes[i].children.Contents()| != 1
  {
    assert NodeOk(nodes, paths, i) && paths[i] != [];
    if paths[i] in stacks {
      var m :| 0 <= m < |stacks| && stacks[m] == paths[i];
      assert terminals[m] < |nodes| && paths[terminals[m]] == paths[i];
      OneNode(nodes, paths, terminals[m], i);
    }
    var a, b :| a in stacks && b in stacks && Diverge(paths[i], a, b);
    InputChild(stacks, nodes, paths, terminals, i, a);
    InputChild(stacks, nodes, paths, terminals, i, b);
    var contents := nodes[i].children.Contents();
    assert {a[|paths[i]|], b[|paths[i]|]} <= contents.Keys;
    if |contents.Keys| == 1 {
      OneElement(contents.Keys);
    }
  }

  // ----- the nodes

  /** The trie nodes below `n` that are significant have their allocations, one each: `owner`
      says which trie node an allocation was made for, and `refs` leads back. */
  ghost predicate Placed<S(!new)>(stacks: seq<seq<S>>, paths: seq<seq<S>>, significant: seq<bool>, refs: seq<Option<nat>>,
                                  cells: seq<Cell<S>>, owner: seq<nat>, n: nat) {
    && Linked(cells) && |refs| == |significant| == |paths| && |owner| == |cells| && n <= |refs|
    && (forall i {:trigger refs[i]} :: 0 <= i < n && significant[i] ==>
          refs[i].Some? && refs[i].value < |cells| && owner[refs[i].value] == i)
    && (forall c {:trigger owner[c]} :: 0 <= c < |cells| ==> owner[c] < n && significant[owner[c]] && refs[owner[c]] == Some(c))
    && (forall c {:trigger Node(cells, c)} :: 0 <= c < |cells| ==> owner[c] < n && Node(cells, c) == Floor(stacks, paths[owner[c]]))
  }

  /** Climb from a significant node to the next significant one below and put the run on its node. */
  method Climb<S(!new)>(ghost stacks: seq<seq<S>>, nodes: seq<TrieNode<S>>, ghost paths: seq<seq<S>>, significant: seq<bool>,
                        refs: array<Option<nat>>, arena: Arena<S>, ghost owner: seq<nat>, index: nat)
    requires TrieOk(nodes, paths) && FlagsOk(stacks, paths, significant, |nodes|) && refs.Length == |nodes|
    requires 0 < index < |nodes| && significant[index]
    requires Placed(stacks, paths, significant, refs[..], arena.cells, owner, index)
    modifies refs, arena
    ensures Placed(stacks, paths, significant, refs[..], arena.cells, owner + [index], index + 1)
  {
    hide NodeOk, Significant, Stop, Floor, Placed;
    var values: seq<S> := [];
    var current := index;
    ghost var whole := paths[index];
    RunStart(nodes, paths, index);
    while true
      invariant 0 < current <= index && refs[..] == old(refs[..]) && arena.cells == old(arena.cells)
      invariant paths[current] <= whole && paths[current] != []
      invariant values == Rev(whole[|paths[current]|..])
      invariant forall i :: |paths[current]| <= i < |whole| ==> !Significant(stacks, whole[..i])
      decreases current
    {
      RunStep(stacks, nodes, paths, significant, whole, current, values);
      values := values + [nodes[current].symbol.value];
      var parent := nodes[current].parent.value;
      if significant[parent] {
        FloorPlaced(stacks, paths, significant, refs[..], arena.cells, owner, index, parent);
        assert refs[..][parent] == refs[parent];
        var floor := refs[parent].value;
        FloorHere(stacks, whole, |paths[parent]|);
        assert whole[..|paths[parent]|] == paths[parent];
        var id := arena.AllocSegment(FromTopFirst(values), floor);
        NextPlaced(stacks, paths, significant, refs[..], old(arena.cells), arena.cells, owner, index, id);
        refs[index] := Some(id);
        return;
      }
      current := parent;
    }
  }

  lemma FloorPlaced<S(!new)>(stacks: seq<seq<S>>, paths: seq<seq<S>>, significant: seq<bool>, refs: seq<Option<nat>>,
                             cells: seq<Cell<S>>, owner: seq<nat>, n: nat, i: nat)
    requires Placed(stacks, paths, significant, refs, cells, owner, n) && i < n && significant[i]
    ensures Linked(cells) && refs[i].Some? && refs[i].value < |cells|
    ensures Node(cells, refs[i].value) == Floor(stacks, paths[i])
  {
    hide Floor;
    assert owner[refs[i].value] == i;
  }

  lemma NextPlaced<S(!new)>(stacks: seq<seq<S>>, paths: seq<seq<S>>, significant: seq<bool>, refs: seq<Option<nat>>,
                            cells: seq<Cell<S>>, more: seq<Cell<S>>, owner: seq<nat>, index: nat, id: nat)
    requires Placed(stacks, paths, significant, refs, cells, owner, index) && index < |refs| && significant[index]
    requires Linked(more) && cells <= more && |more| == |cells| + 1 && id == |cells|
    requires Node(more, id) == Floor(stacks, paths[index])
    ensures Placed(stacks, paths, significant, refs[index := Some(id)], more, owner + [index], index + 1)
  {
    hide Floor, Node;
    forall c | 0 <= c < |cells| ensures Node(more, c) == Node(cells, c) {
      NodeKept(cells, more, c);
    }
  }

  lemma RunStart<S(!new)>(nodes: seq<TrieNode<S>>, paths: seq<seq<S>>, index: nat)
    requires TrieOk(nodes, paths) && 0 < index < |nodes|
    ensures paths[index] != [] && Rev(paths[index][|paths[index]|..]) == []
  {
    assert NodeOk(nodes, paths, index);
  }

  lemma RunStep<S(!new)>(stacks: seq<seq<S>>, nodes: seq<TrieNode<S>>, paths: seq<seq<S>>, significant: seq<bool>,
                         whole: seq<S>, current: nat, values: seq<S>)
    requires TrieOk(nodes, paths) && FlagsOk(stacks, paths, significant, |nodes|) && 0 < current < |nodes|
    requires paths[current] <= whole && values == Rev(whole[|paths[current]|..])
    requires forall i :: |paths[current]| <= i < |whole| ==> !Significant(stacks, whole[..i])
    ensures nodes[current].parent.Some? && nodes[current].symbol.Some? && nodes[current].parent.value < current
    ensures var parent := nodes[current].parent.value;
            && paths[parent] < whole && values + [nodes[current].symbol.value] == Rev(whole[|paths[parent]|..])
            && (forall i :: |paths[parent]| < i < |whole| ==> !Significant(stacks, whole[..i]))
            && (significant[parent] <==> Significant(stacks, whole[..|paths[parent]|]))
            && (!significant[parent] ==> 0 < parent && paths[parent] != [])
  {
    assert NodeOk(nodes, paths, current);
    var parent := nodes[current].parent.value;
    var k := |paths[parent]|;
    assert whole[..k + 1] == paths[parent] + [nodes[current].symbol.value];
    assert whole[..k + 1][..k] == paths[parent];
    assert whole[..k] == paths[parent];
    assert whole[k..] == [nodes[current].symbol.value] + whole[k + 1..];
    RevConcat([nodes[current].symbol.value], whole[k + 1..]);
    assert Rev([nodes[current].symbol.value]) == [nodes[current].symbol.value];
    assert NodeOk(nodes, paths, parent);
    assert Significant(stacks, []);
  }

  lemma FloorHere<S(!new)>(stacks: seq<seq<S>>, whole: seq<S>, k: nat)
    requires k < |whole| && Significant(stacks, whole[..k])
    requires forall i :: k < i < |whole| ==> !Significant(stacks, whole[..i])
    ensures Floor(stacks, whole) == USegmentOf(FromTopFirst(Rev(whole[k..])), Floor(stacks, whole[..k]))
  {
    hide Significant;
    var j := Stop(stacks, whole, |whole| - 1);
    assert j == k;
  }

  /** Every input becomes its node of the shared construction, with everything shared that can be. */
  method SharedStackRefs<S(!new)>(stacks: seq<seq<S>>) returns (cells: seq<Cell<S>>, ids: seq<nat>)
    ensures Shared(stacks, cells, ids)
  {
    hide TrieOk, Needed, Marked, FlagsOk, Significant, Floor, Placed, Shared;
    var nodes, paths, terminals := BuildTrie(stacks);
    SameSize(nodes, paths);
    var significant := SignificantFlags(stacks, nodes, paths, terminals);
    var refs := new Option<nat>[|nodes|](_ => None);
    var arena := new Arena<S>();
    FlagCount(stacks, nodes, paths, significant);
    var end := arena.AllocEnd();
    refs[0] := Some(end);
    ghost var owner: seq<nat> := [0];
    FirstPlaced(stacks, nodes, paths, significant, refs[..], arena.cells);
    for index := 1 to |nodes|
      invariant refs.Length == |nodes| && Placed(stacks, paths, significant, refs[..], arena.cells, owner, index)
    {
      if significant[index] {
        Climb(stacks, nodes, paths, significant, refs, arena, owner, index);
        owner := owner + [index];
      } else {
        SkipPlaced(stacks, paths, significant, refs[..], arena.cells, owner, index);
      }
    }
    cells, ids := arena.cells, [];
    for k := 0 to |stacks|
      invariant |ids| == k && Placed(stacks, paths, significant, refs[..], cells, owner, |nodes|)
      invariant IdsOf(terminals, refs[..], ids)
    {
      TerminalPlaced(stacks, nodes, paths, terminals, significant, refs[..], cells, owner, k);
      ids := ids + [refs[terminals[k]].value];
    }
    AllShared(stacks, nodes, paths, terminals, significant, refs[..], cells, owner, ids);
  }

  ghost predicate IdsOf(terminals: seq<nat>, refs: seq<Option<nat>>, ids: seq<nat>) {
    && |ids| <= |terminals|
    && forall k {:trigger ids[k]} :: 0 <= k < |ids| ==> terminals[k] < |refs| && refs[terminals[k]] == Some(ids[k])
  }

  lemma FlagCount<S(!new)>(stacks: seq<seq<S>>, nodes: seq<TrieNode<S>>, paths: seq<seq<S>>, significant: seq<bool>)
    requires TrieOk(nodes, paths) && FlagsOk(stacks, paths, significant, |nodes|)
    ensures |significant| == |nodes| > 0
  {
  }

  lemma FirstPlaced<S(!new)>(stacks: seq<seq<S>>, nodes: seq<TrieNode<S>>, paths: seq<seq<S>>, significant: seq<bool>,
                             refs: seq<Option<nat>>, cells: seq<Cell<S>>)
    requires TrieOk(nodes, paths) && FlagsOk(stacks, paths, significant, |nodes|)
    requires |refs| == |significant| == |paths| && refs[0] == Some(0) && cells == [End]
    ensures Placed(stacks, paths, significant, refs, cells, [0], 1)
  {
    RootPath(nodes, paths);
    assert significant[0];
  }

  lemma SkipPlaced<S(!new)>(stacks: seq<seq<S>>, paths: seq<seq<S>>, significant: seq<bool>, refs: seq<Option<nat>>,
                            cells: seq<Cell<S>>, owner: seq<nat>, index: nat)
    requires Placed(stacks, paths, significant, refs, cells, owner, index) && index < |refs| && !significant[index]
    ensures Placed(stacks, paths, significant, refs, cells, owner, index + 1)
  {
    hide Node, Floor;
  }

  lemma TerminalPlaced<S(!new)>(stacks: seq<seq<S>>, nodes: seq<TrieNode<S>>, paths: seq<seq<S>>, terminals: seq<nat>,
                                significant: seq<bool>, refs: seq<Option<nat>>, cells: seq<Cell<S>>, owner: seq<nat>, k: nat)
    requires |paths| == |nodes| && Marked(stacks, |stacks|, nodes, paths, terminals) && k < |stacks|
    requires FlagsOk(stacks, paths, significant, |nodes|)
    requires Placed(stacks, paths, significant, refs, cells, owner, |nodes|)
    ensures |terminals| == |stacks| && terminals[k] < |refs| == |nodes| && refs[terminals[k]].Some?
    ensures paths[terminals[k]] == stacks[k] && significant[terminals[k]]
    ensures var id := refs[terminals[k]].value; id < |cells| && owner[id] == terminals[k] && Node(cells, id) == Floor(stacks, stacks[k])
  {
    assert stacks[k] in stacks;
    assert significant[terminals[k]] <==> Significant(stacks, paths[terminals[k]]);
    hide Significant, Floor;
    FloorPlaced(stacks, paths, significant, refs, cells, owner, |nodes|, terminals[k]);
  }

  /** The finished table shares all there is to share. */
  lemma AllShared<S(!new)>(stacks: seq<seq<S>>, nodes: seq<TrieNode<S>>, paths: seq<seq<S>>, terminals: seq<nat>,
                           significant: seq<bool>, refs: seq<Option<nat>>, cells: seq<Cell<S>>, owner: seq<nat>, ids: seq<nat>)
    requires TrieOk(nodes, paths) && Marked(stacks, |stacks|, nodes, paths, terminals)
    requires FlagsOk(stacks, paths, significant, |nodes|)
    requires Placed(stacks, paths, significant, refs, cells, owner, |nodes|)
    requires |ids| == |stacks| && IdsOf(terminals, refs, ids)
    ensures Shared(stacks, cells, ids)
  {
    hide TrieOk, Marked, FlagsOk, Significant, Floor, Placed, Node, SignificantSet, HoldsFloor;
    SameSize(nodes, paths);
    OwnersDistinct(stacks, nodes, paths, significant, refs, cells, owner);
    forall k | 0 <= k < |ids|
      ensures ids[k] < |cells| && Node(cells, ids[k]) == Floor(stacks, stacks[k])
    {
      TerminalPlaced(stacks, nodes, paths, terminals, significant, refs, cells, owner, k);
    }
    forall j, k | 0 <= j < |ids| && 0 <= k < |ids| ensures ids[j] == ids[k] <==> stacks[j] == stacks[k] {
      TerminalPlaced(stacks, nodes, paths, terminals, significant, refs, cells, owner, j);
      TerminalPlaced(stacks, nodes, paths, terminals, significant, refs, cells, owner, k);
      if stacks[j] == stacks[k] {
        OneNode(nodes, paths, terminals[j], terminals[k]);
      }
    }
    OnePerPrefix(stacks, nodes, paths, terminals, significant, refs, cells, owner);
  }

  /** Each allocation holds the node of a significant prefix, and no two hold the same. */
  lemma OwnersDistinct<S(!new)>(stacks: seq<seq<S>>, nodes: seq<TrieNode<S>>, paths: seq<seq<S>>, significant: seq<bool>,
                                refs: seq<Option<nat>>, cells: seq<Cell<S>>, owner: seq<nat>)
    requires TrieOk(nodes, paths) && FlagsOk(stacks, paths, significant, |nodes|)
    requires Placed(stacks, paths, significant, refs, cells, owner, |nodes|)
    ensures Linked(cells)
    ensures forall c {:trigger HoldsFloor(stacks, cells, c)} :: 0 <= c < |cells| ==> HoldsFloor(stacks, cells, c)
    ensures forall c, d {:trigger Node(cells, c), Node(cells, d)} :: 0 <= c < |cells| && 0 <= d < |cells| ==>
              Node(cells, c) == Node(cells, d) ==> c == d
  {
    hide TrieOk, Significant, Floor, Node;
    forall c | 0 <= c < |cells| ensures HoldsFloor(stacks, cells, c) {
      assert Node(cells, c) == Floor(stacks, paths[owner[c]]) && significant[owner[c]];
    }
    forall c, d | 0 <= c < |cells| && 0 <= d < |cells| && Node(cells, c) == Node(cells, d) ensures c == d {
      assert Node(cells, c) == Floor(stacks, paths[owner[c]]) && Node(cells, d) == Floor(stacks, paths[owner[d]]);
      FloorInjective(stacks, paths[owner[c]], paths[owner[d]]);
      OneNode(nodes, paths, owner[c], owner[d]);
      assert refs[owner[c]] == Some(c) && refs[owner[d]] == Some(d);
    }
  }

  /** The allocations are as many as the significant prefixes. */
  lemma OnePerPrefix<S(!new)>(stacks: seq<seq<S>>, nodes: seq<TrieNode<S>>, paths: seq<seq<S>>, terminals: seq<nat>,
                              significant: seq<bool>, refs: seq<Option<nat>>, cells: seq<Cell<S>>, owner: seq<nat>)
    requires TrieOk(nodes, paths) && Marked(stacks, |stacks|, nodes, paths, terminals)
    requires FlagsOk(stacks, paths, significant, |nodes|)
    requires Placed(stacks, paths, significant, refs, cells, owner, |nodes|)
    ensures |cells| == |SignificantSet(stacks)|
  {
    hide TrieOk, Marked, Significant, Floor, Node, SignificantSet;
    var spelled := seq(|cells|, c requires 0 <= c < |cells| => paths[owner[c]]);
    forall c, d | 0 <= c < d < |spelled| ensures spelled[c] != spelled[d] {
      assert refs[owner[c]] == Some(c) && refs[owner[d]] == Some(d);
      if spelled[c] == spelled[d] {
        OneNode(nodes, paths, owner[c], owner[d]);
      }
    }
    forall p ensures p in spelled <==> p in SignificantSet(stacks) {
      SignificantSetExact(stacks, p);
      if p in spelled {
        var c :| 0 <= c < |cells| && spelled[c] == p;
        assert significant[owner[c]] <==> Significant(stacks, paths[owner[c]]);
      }
      if Significant(stacks, p) {
        var i := PrefixPlace(stacks, nodes, paths, terminals, p);
        assert significant[i] <==> Significant(stacks, paths[i]);
        assert spelled[refs[i].value] == p;
      }
    }
    DistinctCount(spelled, SignificantSet(stacks));
  }

  /** A significant prefix is the path of a trie node. */
  lemma PrefixPlace<S(!new)>(stacks: seq<seq<S>>, nodes: seq<TrieNode<S>>, paths: seq<seq<S>>, terminals: seq<nat>, p: seq<S>)
    returns (i: nat)
    requires TrieOk(nodes, paths) && Marked(stacks, |stacks|, nodes, paths, terminals) && Significant(stacks, p)
    ensures i < |nodes| && paths[i] == p
  {
    SignificantSetExact(stacks, p);
    hide Significant;
    if p == [] {
      RootPath(nodes, paths);
      i := 0;
    } else {
      var k :| 0 <= k < |stacks| && p <= stacks[k];
      assert terminals[k] < |nodes| && paths[terminals[k]] == stacks[k];
      i := PrefixNode(nodes, paths, terminals[k], |p|);
    }
  }

  lemma {:induction false} DistinctCount<T>(q: seq<T>, all: set<T>)
    requires forall x :: x in q <==> x in all
    requires forall i, j :: 0 <= i < j < |q| ==> q[i] != q[j]
    ensures |q| == |all|
  {
    if q == [] {
      assert all == {};
    } else {
      var last := q[|q| - 1];
      assert q == q[..|q| - 1] + [last];
      DistinctCount(q[..|q| - 1], all - {last});
    }
  }
}
