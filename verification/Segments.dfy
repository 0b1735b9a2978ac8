/** A window over a shared, immutable vector of symbols, top first. */
module Segments {
  import opened Weights

  datatype Window<+S> = Window(data: seq<S>, start: nat, end: nat) {
    ghost predicate Fits() {
      start <= end <= |data|
    }

    /** The symbols the window shows. */
    function View(): seq<S>
      requires Fits()
    {
      data[start..end]
    }

    function Len(): (n: nat)
      requires Fits()
      ensures n == |View()|
    {
      end - start
    }

    function IsEmpty(): (b: bool)
      requires Fits()
      ensures b <==> View() == []
    {
      start == end
    }

    /** Out-of-window depths read nothing even when the shared vector goes on. */
    function Get(depth: nat): (r: Option<S>)
      requires Fits()
      ensures r == if depth < |View()| then Some(View()[depth]) else None
    {
      if start + depth < |data| && depth < Len() then Some(data[start + depth]) else None
    }

    function First(): (r: Option<S>)
      requires Fits()
      ensures r == if View() == [] then None else Some(View()[0])
    {
      Get(0)
    }

    /** Dropping everything is refused, so a dropped window is never empty. */
    function DropFront(count: nat): (r: Option<Window<S>>)
      requires Fits()
      ensures r.None? <==> count >= |View()|
      ensures r.Some? ==> r.value.Fits() && r.value.View() == View()[count..] && r.value.data == data
    {
      if count >= Len() then None else Some(Window(data, start + count, end))
    }
  }

  type Segment<+S> = w: Window<S> | w.Fits() witness Window([], 0, 0)

  function FromTopFirst<S>(values: seq<S>): (r: Segment<S>)
    ensures r.View() == values
  {
    Window(values, 0, |values|)
  }

  function One<S>(value: S): (r: Segment<S>)
    ensures r.View() == [value]
  {
    FromTopFirst([value])
  }

  /** Length of the longest common prefix. */
  function CommonLen<S(==)>(a: seq<S>, b: seq<S>): (n: nat)
    ensures n <= |a| && n <= |b|
    ensures a[..n] == b[..n]
    ensures n < |a| && n < |b| ==> a[n] != b[n]
  {
    if a == [] || b == [] || a[0] != b[0] then 0 else 1 + CommonLen(a[1..], b[1..])
  }

  /** Bottom-first and top-first spellings of a stack are each other's reverse. */
  function Rev<S>(s: seq<S>): (r: seq<S>)
    ensures |r| == |s| && forall i :: 0 <= i < |s| ==> r[i] == s[|s| - 1 - i]
  {
    if s == [] then [] else Rev(s[1..]) + [s[0]]
  }

  lemma RevRev<S>(s: seq<S>)
    ensures Rev(Rev(s)) == s
  {
  }

  lemma RevConcat<S>(a: seq<S>, b: seq<S>)
    ensures Rev(a + b) == Rev(b) + Rev(a)
  {
  }
}
