/** The trie of the inputs of a batched construction. */
module Trie {
  import opened Weights

  // ----- child tables

  /** A short list of children, or a hash table once there are more than eight. */
  datatype TrieChildren<S(==)> = Small(entries: seq<(S, nat)>) | Large(table: map<S, nat>) {

    ghost predicate Valid() {
      Small? ==> |entries| <= 8 && forall i, j :: 0 <= i < j < |entries| ==> entries[i].0 != entries[j].0
    }

    function Contents(): map<S, nat> {
      match this
      case Small(entries) => Table(entries)
      case Large(table) => table
    }

    function Get(symbol: S): (r: Option<nat>)
      requires Valid()
      ensures r == if symbol in Contents() then Some(Contents()[symbol]) else None
    {
      match this
      case Small(entries) => Find(entries, symbol)
      case Large(table) => if symbol in table then Some(table[symbol]) else None
    }

    function Insert(symbol: S, index: nat): (r: TrieChildren<S>)
      requires Valid() && symbol !in Contents()
      ensures r.Valid() && r.Contents() == Contents()[symbol := index]
    {
      match this
      case Small(entries) =>
        TableLast(entries, symbol, index);
        TableKeys(entries);
        if |entries| < 8 then Small(entries + [(symbol, index)])
        else Large(Table(entries)[symbol := index])
      case Large(table) => Large(table[symbol := index])
    }

    function Len(): (n: nat)
      requires Valid()
      ensures n == |Contents()|
    {
      match this
      case Small(entries) => TableSize(entries); |entries|
      case Large(table) => |table|
    }
  }

  function Table<S(==)>(entries: seq<(S, nat)>): map<S, nat> {
    if entries == [] then map[] else Table(entries[..|entries| - 1])[entries[|entries| - 1].0 := entries[|entries| - 1].1]
  }

  function Find<S(==)>(entries: seq<(S, nat)>, symbol: S): (r: Option<nat>)
    requires forall i, j :: 0 <= i < j < |entries| ==> entries[i].0 != entries[j].0
    ensures r == if symbol in Table(entries) then Some(Table(entries)[symbol]) else None
  {
    TableKeys(entries);
    if entries == [] then None
    else if entries[0].0 == symbol then TableAt(entries, 0); Some(entries[0].1)
    else TableRest(entries, symbol); Find(entries[1..], symbol)
  }

  lemma TableLast<S>(entries: seq<(S, nat)>, symbol: S, index: nat)
    ensures Table(entries + [(symbol, index)]) == Table(entries)[symbol := index]
  {
    var more := entries + [(symbol, index)];
    assert more[..|more| - 1] == entries;
  }

  lemma {:induction false} TableKeys<S>(entries: seq<(S, nat)>)
    ensures forall k :: k in Table(entries) <==> exists i :: 0 <= i < |entries| && entries[i].0 == k
  {
    if entries != [] {
      var most := entries[..|entries| - 1];
      TableKeys(most);
      forall k ensures k in Table(entries) <==> exists i :: 0 <= i < |entries| && entries[i].0 == k {
        if k in Table(most) {
          var i :| 0 <= i < |most| && most[i].0 == k;
          assert entries[i].0 == k;
        }
        if i :| 0 <= i < |entries| && entries[i].0 == k {
          assert i < |most| ==> most[i].0 == k;
        }
      }
    }
  }

  lemma {:induction false} TableAt<S>(entries: seq<(S, nat)>, i: nat)
    requires i < |entries| && forall j, k :: 0 <= j < k < |entries| ==> entries[j].0 != entries[k].0
    ensures entries[i].0 in Table(entries) && Table(entries)[entries[i].0] == entries[i].1
  {
    if i < |entries| - 1 {
      TableAt(entries[..|entries| - 1], i);
    }
  }

  lemma TableRest<S>(entries: seq<(S, nat)>, symbol: S)
    requires entries != [] && entries[0].0 != symbol
    requires forall j, k :: 0 <= j < k < |entries| ==> entries[j].0 != entries[k].0
    ensures symbol in Table(entries) <==> symbol in Table(entries[1..])
    ensures symbol in Table(entries) ==> Table(entries)[symbol] == Table(entries[1..])[symbol]
  {
    var rest := entries[1..];
    TableKeys(entries);
    TableKeys(rest);
    if symbol in Table(entries) {
      var i :| 0 <= i < |entries| && entries[i].0 == symbol;
      TableAt(entries, i);
      assert rest[i - 1] == entries[i];
      TableAt(rest, i - 1);
    }
    if symbol in Table(rest) {
      var i :| 0 <= i < |rest| && rest[i].0 == symbol;
      assert entries[i + 1] == rest[i];
    }
  }

  lemma {:induction false} TableSize<S>(entries: seq<(S, nat)>)
    requires forall i, j :: 0 <= i < j < |entries| ==> entries[i].0 != entries[j].0
    ensures |Table(entries)| == |entries|
  {
    if entries != [] {
      var most := entries[..|entries| - 1];
      TableSize(most);
      TableKeys(most);
    }
  }

  // ----- the trie

  datatype TrieNode<S(==)> = TrieNode(parent: Option<nat>, symbol: Option<S>, children: TrieChildren<S>, terminal: bool)

  /** Node `i` spells `paths[i]`, bottom first; parents come first; child tables and parent
      links say the same. */
  ghost predicate NodeOk<S(!new)>(nodes: seq<TrieNode<S>>, paths: seq<seq<S>>, i: nat)
    requires |paths| == |nodes| && i < |nodes|
  {
    && nodes[i].children.Valid()
    && (i == 0 ==> paths[i] == [])
    && (i > 0 ==> HasParent(nodes, paths, i))
    && (forall t {:trigger IsChild(nodes, i, t)} :: t in nodes[i].children.Contents() ==> IsChild(nodes, i, t))
  }

  ghost predicate HasParent<S(!new)>(nodes: seq<TrieNode<S>>, paths: seq<seq<S>>, i: nat)
    requires |paths| == |nodes| && i < |nodes|
  {
    && nodes[i].parent.Some? && nodes[i].symbol.Some? && nodes[i].parent.value < i
    && paths[i] == paths[nodes[i].parent.value] + [nodes[i].symbol.value]
    && nodes[i].symbol.value in nodes[nodes[i].parent.value].children.Contents()
    && nodes[nodes[i].parent.value].children.Contents()[nodes[i].symbol.value] == i
  }

  ghost predicate IsChild<S(!new)>(nodes: seq<TrieNode<S>>, i: nat, t: S)
    requires i < |nodes|
  {
    && t in nodes[i].children.Contents()
    && var c := nodes[i].children.Contents()[t];
    0 < c < |nodes| && nodes[c].parent == Some(i) && nodes[c].symbol == Some(t)
  }

  ghost predicate TrieOk<S(!new)>(nodes: seq<TrieNode<S>>, paths: seq<seq<S>>) {
    && |paths| == |nodes| > 0
    && forall i {:trigger NodeOk(nodes, paths, i)} :: 0 <= i < |nodes| ==> NodeOk(nodes, paths, i)
  }

  /** Every node is on the way of some input. */
  ghost predicate Needed<S(!new)>(stacks: seq<seq<S>>, paths: seq<seq<S>>) {
    forall i {:trigger paths[i]} :: 0 <= i < |paths| ==> paths[i] == [] || OnTheWay(stacks, paths[i])
  }

  ghost predicate OnTheWay<S(!new)>(stacks: seq<seq<S>>, p: seq<S>) {
    exists k :: 0 <= k < |stacks| && p <= stacks[k]
  }

  /** The flags mark just the ends of the first `n` inputs, which `terminals` lists in order. */
  ghost predicate Marked<S(!new)>(stacks: seq<seq<S>>, n: nat, nodes: seq<TrieNode<S>>, paths: seq<seq<S>>, terminals: seq<nat>)
    requires |paths| == |nodes| && n <= |stacks|
  {
    && |terminals| == n
    && (forall k {:trigger terminals[k]} :: 0 <= k < n ==>
          terminals[k] < |nodes| && nodes[terminals[k]].terminal && paths[terminals[k]] == stacks[k])
    && (forall i {:trigger nodes[i]} :: 0 <= i < |nodes| && nodes[i].terminal ==> paths[i] in stacks[..n])
  }

  /** A path reaches one node. */
  lemma {:induction false} OneNode<S(!new)>(nodes: seq<TrieNode<S>>, paths: seq<seq<S>>, i: nat, j: nat)
    requires TrieOk(nodes, paths) && i < |nodes| && j < |nodes| && paths[i] == paths[j]
    ensures i == j
    decreases i + j
  {
    assert NodeOk(nodes, paths, i) && NodeOk(nodes, paths, j);
    if i > 0 && j > 0 {
      var p, q := nodes[i].parent.value, nodes[j].parent.value;
      assert paths[i][..|paths[i]| - 1] == paths[p] && paths[j][..|paths[j]| - 1] == paths[q];
      assert nodes[i].symbol.value == paths[i][|paths[i]| - 1] == nodes[j].symbol.value;
      OneNode(nodes, paths, p, q);
    }
  }

  /** Every prefix of a path is the path of an earlier node. */
  lemma {:induction false} PrefixNode<S(!new)>(nodes: seq<TrieNode<S>>, paths: seq<seq<S>>, i: nat, k: nat) returns (j: nat)
    requires TrieOk(nodes, paths) && i < |nodes| && k <= |paths[i]|
    ensures j <= i && paths[j] == paths[i][..k]
  {
    assert NodeOk(nodes, paths, i);
    if k == |paths[i]| {
      j := i;
      assert paths[i][..k] == paths[i];
    } else {
      var p := nodes[i].parent.value;
      j := PrefixNode(nodes, paths, p, k);
      assert paths[p][..k] == paths[i][..k];
    }
  }

  // ----- inserting

  function Root<S(==)>(): TrieNode<S> {
    TrieNode(None, None, Small([]), false)
  }

  lemma RootOk<S(!new)>(stacks: seq<seq<S>>)
    ensures TrieOk([Root<S>()], [[]]) && Needed(stacks, [[]]) && Marked(stacks, 0, [Root<S>()], [[]], [])
  {
    assert NodeOk([Root<S>()], [[]], 0);
  }

  function AddChild<S(==)>(nodes: seq<TrieNode<S>>, current: nat, symbol: S): seq<TrieNode<S>>
    requires current < |nodes| && nodes[current].children.Valid() && symbol !in nodes[current].children.Contents()
  {
    var more := nodes + [TrieNode(Some(current), Some(symbol), Small([]), false)];
    more[current := more[current].(children := more[current].children.Insert(symbol, |nodes|))]
  }

  lemma AddChildOk<S(!new)>(nodes: seq<TrieNode<S>>, paths: seq<seq<S>>, current: nat, symbol: S)
    requires TrieOk(nodes, paths) && current < |nodes| && NodeOk(nodes, paths, current)
    requires symbol !in nodes[current].children.Contents()
    ensures TrieOk(AddChild(nodes, current, symbol), paths + [paths[current] + [symbol]])
  {
    var after := AddChild(nodes, current, symbol);
    var more := paths + [paths[current] + [symbol]];
    forall i | 0 <= i < |after| ensures NodeOk(after, more, i) {
      if i < |nodes| {
        assert NodeOk(nodes, paths, i);
        forall t | t in after[i].children.Contents() ensures IsChild(after, i, t) {
          if t in nodes[i].children.Contents() {
            assert IsChild(nodes, i, t);
          }
        }
      }
    }
  }

  /** Follow one input from the root, adding what is missing, and return where it ends. */
  method InsertStack<S(!new)>(nodes0: seq<TrieNode<S>>, ghost paths0: seq<seq<S>>, stack: seq<S>, ghost stacks: seq<seq<S>>,
                                  ghost n: nat, ghost terminals: seq<nat>)
    returns (nodes: seq<TrieNode<S>>, ghost paths: seq<seq<S>>, current: nat)
    requires TrieOk(nodes0, paths0) && Needed(stacks, paths0) && OnTheWay(stacks, stack)
    requires n <= |stacks| && Marked(stacks, n, nodes0, paths0, terminals)
    ensures TrieOk(nodes, paths) && Needed(stacks, paths) && Marked(stacks, n, nodes, paths, terminals)
    ensures current < |nodes| && paths[current] == stack
  {
    hide NodeOk, OnTheWay;
    nodes, paths := nodes0, paths0;
    current := 0;
    RootPath(nodes, paths);
    for k := 0 to |stack|
      invariant TrieOk(nodes, paths) && Needed(stacks, paths) && Marked(stacks, n, nodes, paths, terminals)
      invariant current < |nodes| && paths[current] == stack[..k]
    {
      var symbol := stack[k];
      ChildFacts(nodes, paths, current, symbol);
      assert stack[..k + 1] == stack[..k] + [symbol];
      var existing := nodes[current].children.Get(symbol);
      if existing.Some? {
        current := existing.value;
      } else {
        var next := |nodes|;
        AddChildOk(nodes, paths, current, symbol);
        AddChildFrame(stacks, n, nodes, paths, terminals, current, symbol, stack, k);
        nodes := AddChild(nodes, current, symbol);
        paths := paths + [paths[current] + [symbol]];
        current := next;
      }
    }
    assert stack[..|stack|] == stack;
  }

  lemma RootPath<S(!new)>(nodes: seq<TrieNode<S>>, paths: seq<seq<S>>)
    requires TrieOk(nodes, paths)
    ensures paths[0] == []
  {
    assert NodeOk(nodes, paths, 0);
  }

  lemma ChildFacts<S(!new)>(nodes: seq<TrieNode<S>>, paths: seq<seq<S>>, i: nat, t: S)
    requires TrieOk(nodes, paths) && i < |nodes|
    ensures NodeOk(nodes, paths, i) && nodes[i].children.Valid()
    ensures t in nodes[i].children.Contents() ==>
              var c := nodes[i].children.Contents()[t]; c < |nodes| && paths[c] == paths[i] + [t]
  {
    assert NodeOk(nodes, paths, i);
    if t in nodes[i].children.Contents() {
      assert IsChild(nodes, i, t);
      assert NodeOk(nodes, paths, nodes[i].children.Contents()[t]);
    }
  }

  lemma AddChildFrame<S(!new)>(stacks: seq<seq<S>>, n: nat, nodes: seq<TrieNode<S>>, paths: seq<seq<S>>, terminals: seq<nat>,
                               current: nat, symbol: S, stack: seq<S>, k: nat)
    requires |paths| == |nodes| && n <= |stacks| && current < |nodes| && k < |stack|
    requires nodes[current].children.Valid() && symbol !in nodes[current].children.Contents()
    requires Needed(stacks, paths) && Marked(stacks, n, nodes, paths, terminals) && OnTheWay(stacks, stack)
    requires paths[current] + [symbol] == stack[..k + 1]
    ensures Needed(stacks, paths + [paths[current] + [symbol]])
    ensures Marked(stacks, n, AddChild(nodes, current, symbol), paths + [paths[current] + [symbol]], terminals)
  {
    var more := paths + [paths[current] + [symbol]];
    var after := AddChild(nodes, current, symbol);
    var m :| 0 <= m < |stacks| && stack <= stacks[m];
    assert stack[..k + 1] <= stacks[m];
    forall i | 0 <= i < |more| ensures more[i] == [] || OnTheWay(stacks, more[i]) {
      assert i < |paths| ==> more[i] == paths[i];
    }
    forall i | 0 <= i < |after| && after[i].terminal ensures more[i] in stacks[..n] {
      assert i < |nodes| && nodes[i].terminal;
    }
  }

  /** The trie of all inputs, with the node each of them ends at. */
  method BuildTrie<S(!new)>(stacks: seq<seq<S>>)
    returns (nodes: seq<TrieNode<S>>, ghost paths: seq<seq<S>>, terminals: seq<nat>)
    ensures |terminals| == |stacks| && forall k :: 0 <= k < |terminals| ==> terminals[k] < |nodes| && nodes[terminals[k]].terminal
    ensures TrieOk(nodes, paths) && Needed(stacks, paths) && Marked(stacks, |stacks|, nodes, paths, terminals)
  {
    hide TrieOk, Needed;
    nodes, paths, terminals := [Root()], [[]], [];
    RootOk(stacks);
    for k := 0 to |stacks|
      invariant TrieOk(nodes, paths) && |paths| == |nodes| && Needed(stacks, paths)
      invariant Marked(stacks, k, nodes, paths, terminals)
    {
      var current;
      nodes, paths, current := InsertStack(nodes, paths, stacks[k], stacks, k, terminals);
      assert |paths| == |nodes| by {
        SameSize(nodes, paths);
      }
      MarkOk(stacks, k, nodes, paths, terminals, current);
      nodes := nodes[current := nodes[current].(terminal := true)];
      terminals := terminals + [current];
    }
  }

  lemma SameSize<S(!new)>(nodes: seq<TrieNode<S>>, paths: seq<seq<S>>)
    requires TrieOk(nodes, paths)
    ensures |paths| == |nodes|
  {
  }

  lemma MarkOk<S(!new)>(stacks: seq<seq<S>>, k: nat, nodes: seq<TrieNode<S>>, paths: seq<seq<S>>, terminals: seq<nat>, current: nat)
    requires TrieOk(nodes, paths) && k < |stacks| && current < |nodes| && paths[current] == stacks[k]
    requires Marked(stacks, k, nodes, paths, terminals)
    ensures TrieOk(nodes[current := nodes[current].(terminal := true)], paths)
    ensures Marked(stacks, k + 1, nodes[current := nodes[current].(terminal := true)], paths, terminals + [current])
  {
    var after := nodes[current := nodes[current].(terminal := true)];
    forall i | 0 <= i < |after| ensures NodeOk(after, paths, i) {
      assert NodeOk(nodes, paths, i);
      forall t | t in after[i].children.Contents() ensures IsChild(after, i, t) {
        assert IsChild(nodes, i, t);
      }
    }
    assert stacks[..k + 1] == stacks[..k] + [stacks[k]];
    forall i | 0 <= i < |after| && after[i].terminal ensures paths[i] in stacks[..k + 1] {
      if i == current {
        assert stacks[..k + 1][k] == stacks[k];
      } else {
        assert nodes[i].terminal;
        var m :| 0 <= m < k && stacks[..k][m] == paths[i];
        assert stacks[..k + 1][m] == paths[i];
      }
    }
  }
}
