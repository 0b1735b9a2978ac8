/** Where unweighted nodes are allocated: an allocation is known by its index and never changes. */
module Arenas {
  import opened Segments
  import opened UNodes

  /** One allocation: a node without stacks, the empty stack, or a run over another allocation. */
  datatype Cell<S(==)> = Nothing | End | Run(values: Segment<S>, next: nat)

  /** Runs lead to earlier allocations. */
  predicate Linked<S(!new)>(cells: seq<Cell<S>>) {
    forall i {:trigger cells[i]} :: 0 <= i < |cells| && cells[i].Run? ==> cells[i].next < i
  }

  /** The node an allocation holds. */
  function Node<S(!new)>(cells: seq<Cell<S>>, id: nat): UNode<S>
    requires Linked(cells) && id < |cells|
  {
    match cells[id]
    case Nothing => UEmpty()
    case End => UEnd()
    case Run(values, next) => USegmentOf(values, Node(cells, next))
  }

  /** The nodes behind some references. */
  function Nodes<S(!new)>(cells: seq<Cell<S>>, ids: seq<nat>): (r: seq<UNode<S>>)
    requires Linked(cells) && forall k :: 0 <= k < |ids| ==> ids[k] < |cells|
    ensures |r| == |ids| && forall k :: 0 <= k < |r| ==> r[k] == Node(cells, ids[k])
  {
    seq(|ids|, k requires 0 <= k < |ids| => Node(cells, ids[k]))
  }

  /** Further allocations change nothing about the earlier ones. */
  lemma {:induction false} NodeKept<S(!new)>(cells: seq<Cell<S>>, more: seq<Cell<S>>, id: nat)
    requires Linked(cells) && Linked(more) && cells <= more && id < |cells|
    ensures Node(more, id) == Node(cells, id)
    decreases id
  {
    if cells[id].Run? {
      NodeKept(cells, more, cells[id].next);
    }
  }

  /** `id` is `top`, or is reached from it through the links of its runs. */
  ghost predicate Down<S(!new)>(cells: seq<Cell<S>>, top: nat, id: nat)
    requires Linked(cells) && top < |cells|
  {
    top == id || (cells[top].Run? && Down(cells, cells[top].next, id))
  }

  /** `top` is `floor`, or is reached from it by putting segments on top. */
  ghost predicate BuiltOver<S(!new)>(top: UNode<S>, floor: UNode<S>)
    decreases top
  {
    top == floor || (top.USegment? && BuiltOver(top.next, floor))
  }

  /** A floor of the node of an allocation is the node of an allocation further down. */
  lemma {:induction false} DownTo<S(!new)>(cells: seq<Cell<S>>, top: nat, floor: UNode<S>) returns (id: nat)
    requires Linked(cells) && top < |cells| && BuiltOver(Node(cells, top), floor)
    ensures id < |cells| && Down(cells, top, id) && Node(cells, id) == floor
    decreases top
  {
    id := top;
    if Node(cells, top) != floor {
      id := DownTo(cells, cells[top].next, floor);
    }
  }

  class Arena<S(==, !new)> {
    var cells: seq<Cell<S>>

    constructor ()
      ensures cells == []
    {
      cells := [];
    }

    /** Allocate the node of the empty stack. */
    method AllocEnd() returns (id: nat)
      modifies this
      ensures cells == old(cells) + [End] && id == |old(cells)|
    {
      id := |cells|;
      cells := cells + [End];
    }

    /** Put a run on an allocation: no run allocates nothing, and nothing stays under no run. */
    method AllocSegment(values: Segment<S>, next: nat) returns (id: nat)
      requires Linked(cells) && next < |cells|
      modifies this
      ensures Linked(cells) && old(cells) <= cells && id < |cells|
      ensures Node(cells, id) == USegmentOf(values, Node(old(cells), next))
      ensures values.View() == [] ==> cells == old(cells) && id == next
      ensures values.View() != [] ==> |cells| == |old(cells)| + 1 && id == |old(cells)|
    {
      if values.IsEmpty() {
        return next;
      }
      id := |cells|;
      ghost var before := cells;
      if UIsEmpty(Node(cells, next)) {
        cells := cells + [Nothing];
      } else {
        cells := cells + [Run(values, next)];
        NodeKept(before, cells, next);
      }
    }
  }
}
