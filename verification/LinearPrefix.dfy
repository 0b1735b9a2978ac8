/** A mutable view of the linear top of a graph over an unchanged, hidden floor: reading it,
    editing it, and turning it back into a graph. */
module LinearPrefixes {
  import opened Weights
  import opened Segments
  import opened Counting
  import opened Tables
  import opened UNodes
  import opened UOps
  import opened UPaths
  import opened WNodes
  import opened Live
  import opened WBuild
  import opened Meaning
  import opened Construct
  import opened Model

  // ----- segment chains

  /** The symbols readable from `n` before the first branch. */
  ghost function Chain<S(!new)>(n: UNode<S>): seq<S> {
    match n
    case USegment(values, next, _, _) => values.View() + Chain(next)
    case UBranch(_, _, _, _) => []
  }

  /** That first branch. */
  ghost function ChainFloor<S(!new)>(n: UNode<S>): UNode<S> {
    match n
    case USegment(_, next, _, _) => ChainFloor(next)
    case UBranch(_, _, _, _) => n
  }

  /** `s` is a stack of `floor` under the run `visible`. */
  ghost predicate Over<S(!new)>(visible: seq<S>, floor: UNode<S>, s: seq<S>) {
    visible <= s && UHas(floor, s[|visible|..])
  }

  lemma {:induction false} ChainHas<S(!new)>(n: UNode<S>, s: seq<S>)
    ensures UHas(n, s) <==> Over(Chain(n), ChainFloor(n), s)
    decreases n
  {
    match n
    case USegment(values, next, _, _) =>
      var v := values.View();
      PrefixSplit(v, Chain(next), s);
      if v <= s {
        ChainHas(next, s[|v|..]);
      }
    case UBranch(_, _, _, _) =>
      assert s[0..] == s;
  }

  lemma {:induction false} FloorWf<S(!new)>(n: UNode<S>)
    requires UWf(n) && n.paths > 0
    ensures UWf(ChainFloor(n)) && ChainFloor(n).UBranch? && ChainFloor(n).paths > 0
    decreases n
  {
    match n
    case USegment(_, next, _, _) => FloorWf(next);
    case UBranch(_, _, _, _) =>
  }

  /** Every stack of `n` begins with `run`. */
  ghost predicate CommonRun<S(!new)>(n: UNode<S>, run: seq<S>) {
    forall s :: UHas(n, s) ==> run <= s
  }

  /** The chain is the longest run that all stacks have in common. */
  lemma ChainIsLongest<S(!new)>(n: UNode<S>, run: seq<S>)
    requires UWf(n) && n.paths > 0
    ensures CommonRun(n, run) <==> run <= Chain(n)
  {
    var v, floor := Chain(n), ChainFloor(n);
    FloorWf(n);
    var w := ULongest(floor);
    hide UWf, UHas;
    assert v <= v + w && (v + w)[|v|..] == w;
    ChainHas(n, v + w);
    if CommonRun(n, run) && !(run <= v) {
      assert run <= v + w;
      var t := run[|v|];
      forall s | UHas(floor, s) ensures s != [] && s[0] == t {
        assert (v + s)[|v|..] == s;
        ChainHas(n, v + s);
        assert run <= v + s && (v + s)[|v|] == t;
      }
      NoCommonTop(floor, t);
    }
    if run <= v {
      forall s | UHas(n, s) ensures run <= s {
        ChainHas(n, s);
      }
    }
  }

  lemma NoCommonTop<S(!new)>(floor: UNode<S>, t: S)
    requires UWf(floor) && floor.UBranch? && floor.paths > 0
    ensures exists s :: UHas(floor, s) && (s == [] || s[0] != t)
  {
    USingleExclusiveTopExact(floor, t);
  }

  method SegmentChainLen<S(!new)>(n: UNode<S>) returns (len: nat)
    ensures len == Min(|Chain(n)|, MAX)
  {
    len := 0;
    var node := n;
    while node.USegment?
      invariant len <= MAX && Min(len + |Chain(node)|, MAX) == Min(|Chain(n)|, MAX)
      decreases node
    {
      len := SatAdd(len, node.values.Len());
      node := node.next;
    }
  }

  method SegmentChainFloor<S(!new)>(n: UNode<S>) returns (floor: UNode<S>)
    ensures floor == ChainFloor(n)
  {
    floor := n;
    while floor.USegment?
      invariant ChainFloor(floor) == ChainFloor(n)
      decreases floor
    {
      floor := floor.next;
    }
  }

  /** `n` holds the stack `t` and no other. */
  ghost predicate HoldsOnly<S(!new)>(n: UNode<S>, t: seq<S>) {
    forall s :: UHas(n, s) <==> s == t
  }

  /** A branch is exactly the empty stack when it has one path and that path ends at once. */
  lemma FloorIsEmptyExact<S(!new)>(floor: UNode<S>)
    requires UWf(floor) && floor.UBranch?
    ensures floor.paths == 1 && UHasEmpty(floor) <==> HoldsOnly(floor, [])
  {
    if floor.paths == 1 {
      SingleBranchIsEnd(floor);
      assert forall t :: AltsAt(floor.children, t) == [];
      assert HoldsOnly(floor, []);
    } else if HoldsOnly(floor, []) {
      assert UHas(floor, []);
      if t :| t in floor.children {
        var s := WordUnder(floor, t);
        assert false;
      }
      assert UCounts(floor) == map[];
    }
  }

  lemma WordUnder<S(!new)>(n: UNode<S>, t: S) returns (s: seq<S>)
    requires UWf(n) && n.UBranch? && t in n.children
    ensures UHas(n, s) && s != []
  {
    var c := n.children[t].nodes[0];
    assert c in AltsAt(n.children, t);
    var rest := ULongest(c);
    s := [t] + rest;
    assert s[1..] == rest;
  }

  // ----- dropping from the front

  /** `rest` is `whole` without its first `k` symbols. */
  ghost predicate Dropped<S>(whole: seq<S>, k: int, rest: seq<S>) {
    0 <= k <= |whole| && rest == whole[k..]
  }

  lemma DroppedNone<S>(whole: seq<S>)
    ensures Dropped(whole, 0, whole)
  {
  }

  lemma DroppedMore<S>(whole: seq<S>, i: nat, current: seq<S>, chain: seq<S>, k: nat)
    requires Dropped(whole, i, current + chain) && k <= |current|
    ensures Dropped(whole, i + k, current[k..] + chain)
    ensures k == |current| ==> Dropped(whole, i + k, chain)
  {
    assert whole[i + k..] == (current + chain)[k..];
  }

  /** Dropping as much as asked for, or else everything. */
  lemma DroppedResult<S>(whole: seq<S>, count: nat, left: nat, rest: seq<S>)
    requires left <= count && Dropped(whole, count - left, rest) && (left > 0 ==> rest == [])
    ensures left == count - Min(count, |whole|) && rest == whole[Min(count, |whole|)..]
  {
  }

  lemma DroppedTwice<S>(whole: seq<S>, i: nat, mid: seq<S>, k: nat, rest: seq<S>)
    requires Dropped(whole, i, mid) && Dropped(mid, k, rest)
    ensures Dropped(whole, i + k, rest)
  {
  }

  lemma DroppedPending<S>(whole: seq<S>, k: nat, pending: seq<S>, rest: seq<S>)
    requires pending != [] && Dropped(whole, k, Rev(pending) + rest)
    ensures Dropped(whole, k + 1, Rev(pending[..|pending| - 1]) + rest)
  {
    Shorter(Rev(pending), Rev(pending[..|pending| - 1]), rest);
  }

  lemma Shorter<S>(long: seq<S>, short: seq<S>, rest: seq<S>)
    requires |long| == |short| + 1 && forall i :: 0 <= i < |short| ==> short[i] == long[i + 1]
    ensures short + rest == (long + rest)[1..]
  {
  }

  // ----- the view

  class LinearPrefix<S(==, !new), W(==, !new)> {
    var values: Option<Segment<S>>
    var next: UNode<S>
    const weight: W
    var pending: seq<S>

    /** The floor is reached exactly when no segment is current. */
    ghost predicate Valid()
      reads this
    {
      && UWf(next) && next.paths > 0
      && (values.None? ==> next.UBranch?)
      && (values.Some? ==> values.value.View() != [])
    }

    ghost function Current(): seq<S>
      reads this
    {
      if values.Some? then values.value.View() else []
    }

    /** What can be read, top first. */
    ghost function Visible(): seq<S>
      reads this
    {
      Rev(pending) + Below()
    }

    /** What cannot. */
    ghost function Floor(): UNode<S>
      reads this
    {
      ChainFloor(next)
    }

    constructor (values: Segment<S>, next: UNode<S>, weight: W)
      requires UWf(next) && next.paths > 0 && values.View() != []
      ensures Valid() && Visible() == values.View() + Chain(next) && Floor() == ChainFloor(next)
      ensures this.weight == weight
    {
      this.values := Some(values);
      this.next := next;
      this.weight := weight;
      pending := [];
      new;
      assert Rev<S>([]) == [];
    }

    /** The number of readable symbols, as far as the machine can count. */
    method Len() returns (n: nat)
      ensures n == if |Visible()| < 0x1_0000_0000_0000_0000 then |Visible()| else 0xFFFF_FFFF_FFFF_FFFF
    {
      var current := if values.Some? then values.value.Len() else 0;
      var chain := SegmentChainLen(next);
      n := SatAdd(SatAdd(|pending|, current), chain);
    }

    method Get(depth: nat) returns (r: Option<S>)
      ensures r == if depth < |Visible()| then Some(Visible()[depth]) else None
    {
      if depth < |pending| {
        return Some(pending[|pending| - 1 - depth]);
      }
      var rest := depth - |pending|;
      if values.Some? {
        if rest < values.value.Len() {
          return values.value.Get(rest);
        }
        rest := rest - values.value.Len();
      }
      r := ChainGet(next, rest);
    }

    method FloorIsEmpty() returns (b: bool)
      requires Valid()
      ensures b <==> OverOnly(Visible(), Floor())
    {
      hide UWf, UHas;
      var floor := SegmentChainFloor(next);
      FloorWf(next);
      FloorIsEmptyExact(floor);
      OnlyVisible(Visible(), floor);
      b := floor.paths == 1 && UHasEmpty(floor);
    }

    method Push(value: S)
      requires Valid()
      modifies this`pending
      ensures Valid() && Visible() == [value] + old(Visible())
    {
      pending := pending + [value];
    }

    /** Drop up to `count` readable symbols; the rest of the count has reached the floor. */
    method Popn(count: nat) returns (left: nat)
      requires Valid()
      modifies this`pending, this`values, this`next
      ensures Valid() && Floor() == old(Floor())
      ensures left == count - Min(count, |old(Visible())|)
      ensures Visible() == old(Visible())[Min(count, |old(Visible())|)..]
    {
      hide UWf, Chain, ChainFloor, Rev, Dropped;
      ghost var whole := Visible();
      left := PopPending(count);
      if left > 0 {
        NothingPending(pending, Below());
        ghost var mid, rest := Below(), left;
        left := PopCurrent(left);
        DroppedTwice(whole, count - rest, mid, rest - left, Below());
        NothingPending(pending, Below());
      }
      DroppedResult(whole, count, left, Visible());
    }

    method PopPending(count: nat) returns (left: nat)
      requires Valid()
      modifies this`pending
      ensures Valid()
      ensures left == count - Min(count, |old(pending)|)
      ensures Dropped(old(Visible()), count - left, Visible())
      ensures left > 0 ==> pending == []
    {
      hide Dropped, Rev;
      left := count;
      ghost var whole := Visible();
      DroppedNone(whole);
      while left > 0 && pending != []
        invariant left <= count && |pending| == |old(pending)| - (count - left)
        invariant Dropped(whole, count - left, Visible())
        decreases |pending|
      {
        DroppedPending(whole, count - left, pending, Below());
        pending := pending[..|pending| - 1];
        left := left - 1;
      }
    }

    /** What can be read once nothing is pending. */
    ghost function Below(): seq<S>
      reads this
    {
      Current() + Chain(next)
    }

    /** Drop segment after segment until the count is used up or a branch is next. */
    method PopCurrent(count: nat) returns (left: nat)
      requires Valid() && pending == []
      modifies this`values, this`next
      ensures Valid() && Floor() == old(Floor())
      ensures left <= count && Dropped(old(Below()), count - left, Below())
      ensures left > 0 ==> Below() == []
    {
      hide UWf, Chain, ChainFloor, Dropped;
      left := count;
      ghost var whole := Below();
      DroppedNone(whole);
      while left > 0 && values.Some?
        invariant Valid() && Floor() == old(Floor())
        invariant left <= count
        invariant Dropped(whole, count - left, Below())
        decreases next, values.Some?
      {
        var current := values.value;
        if left < current.Len() {
          DroppedMore(whole, count - left, current.View(), Chain(next), left);
          values := current.DropFront(left);
          left := 0;
          return;
        }
        DroppedMore(whole, count - left, current.View(), Chain(next), current.Len());
        left := left - current.Len();
        Advance();
      }
      BranchChain(next);
    }

    /** The next segment becomes current; where there is none, nothing is. */
    method Advance()
      requires Valid() && values.Some?
      modifies this`values, this`next
      ensures Valid() && Floor() == old(Floor()) && Below() == old(Chain(next))
      ensures (old(next) decreases to next) || (next == old(next) && values.None?)
    {
      match next
      case USegment(v, n, _, _) =>
        values := Some(v);
        next := n;
      case UBranch(_, _, _, _) =>
        values := None;
    }

    /** Turn the view back into a graph. */
    method IntoGss(ghost L: Lattice<W>, held: set<WNode<S, W>>) returns (r: WNode<S, W>)
      requires Valid() && Heap(held)
      ensures WWf(r) && FitsIn(held, r)
      ensures forall s :: Den(L, r, s) == if Over(Visible(), Floor(), s) then Some(weight) else None
    {
      hide UWf, UHas, WNormal, WDetermined, Den;
      var stacks := if values.Some? then USegmentOf(values.value, next) else next;
      CurrentStacks(values, next);
      if pending != [] {
        PendingStacks(pending, stacks, Current() + Chain(next), ChainFloor(next));
        stacks := USegmentOf(FromTopFirst(Rev(pending)), stacks);
      } else {
      }
      r := WSharedOf(L, weight, stacks, held);
      SharedMeans(L, r, weight, stacks);
    }
  }

  /** Open the view where there is one weight and a segment on top. */
  method FromGss<S(!new), W(!new)>(n: WNode<S, W>) returns (r: LinearPrefix?<S, W>)
    requires WWf(n)
    ensures r == null <==> !(n.WShared? && n.stacks.USegment?)
    ensures r != null ==> fresh(r) && r.Valid() && r.weight == n.weight
    ensures r != null ==> r.Visible() == Chain(n.stacks) && r.Floor() == ChainFloor(n.stacks)
    ensures r != null ==> forall s :: Over(r.Visible(), r.Floor(), s) <==> WHas(n, s)
    ensures r != null ==> forall run :: CommonRun(n.stacks, run) <==> run <= r.Visible()
  {
    r := null;
    if n.WShared? && n.stacks.USegment? {
      r := new LinearPrefix(n.stacks.values, n.stacks.next, n.weight);
      hide UWf, WNormal, WDetermined;
      forall s ensures Over(r.Visible(), r.Floor(), s) <==> WHas(n, s) {
        ChainHas(n.stacks, s);
      }
      forall run ensures CommonRun(n.stacks, run) <==> run <= r.Visible() {
        ChainIsLongest(n.stacks, run);
      }
    }
  }

  method ChainGet<S(!new)>(n: UNode<S>, depth: nat) returns (r: Option<S>)
    ensures r == if depth < |Chain(n)| then Some(Chain(n)[depth]) else None
  {
    var node, rest := n, depth;
    while node.USegment?
      invariant 0 <= rest
      invariant rest < |Chain(node)| <==> depth < |Chain(n)|
      invariant rest < |Chain(node)| ==> Chain(node)[rest] == Chain(n)[depth]
      decreases node
    {
      if rest < node.values.Len() {
        return node.values.Get(rest);
      }
      rest := rest - node.values.Len();
      node := node.next;
    }
    r := None;
  }

  lemma BranchChain<S(!new)>(n: UNode<S>)
    ensures n.UBranch? ==> Chain(n) == []
  {
  }

  /** All that is visible is the one whole stack. */
  ghost predicate OverOnly<S(!new)>(visible: seq<S>, floor: UNode<S>) {
    forall s :: Over(visible, floor, s) <==> s == visible
  }

  lemma NothingPending<S>(pending: seq<S>, rest: seq<S>)
    requires pending == []
    ensures Rev(pending) + rest == rest
  {
  }

  lemma OnlyVisible<S(!new)>(visible: seq<S>, floor: UNode<S>)
    ensures OverOnly(visible, floor) <==> HoldsOnly(floor, [])
  {
    hide UHas;
    if OverOnly(visible, floor) {
      forall s ensures UHas(floor, s) <==> s == [] {
        assert (visible + s)[|visible|..] == s;
        assert Over(visible, floor, visible + s) <==> visible + s == visible;
        assert visible + s == visible ==> |s| == 0;
        assert s == [] ==> visible + s == visible;
      }
    }
    if HoldsOnly(floor, []) {
      forall s ensures Over(visible, floor, s) <==> s == visible {
        if visible <= s {
          assert s == visible + s[|visible|..];
        }
      }
    }
  }

  lemma CurrentStacks<S(!new)>(values: Option<Segment<S>>, next: UNode<S>)
    requires UWf(next) && next.paths > 0
    ensures var stacks := if values.Some? then USegmentOf(values.value, next) else next;
            var current := if values.Some? then values.value.View() else [];
            UWf(stacks) && stacks.paths > 0
            && forall s :: UHas(stacks, s) <==> Over(current + Chain(next), ChainFloor(next), s)
  {
    var stacks := if values.Some? then USegmentOf(values.value, next) else next;
    var current := if values.Some? then values.value.View() else [];
    if values.Some? {
      USegmentOfWf(values.value, next);
      USegmentOfHas(values.value, next);
    }
    UEmptyIff(next);
    UEmptyIff(stacks);
    hide UWf, UHas, Chain, ChainFloor, USegmentOf;
    forall s ensures UHas(stacks, s) <==> Over(current + Chain(next), ChainFloor(next), s) {
      PrefixSplit(current, Chain(next), s);
      assert values.None? ==> s[0..] == s;
      if current <= s {
        ChainHas(next, s[|current|..]);
      }
    }
  }

  lemma PendingStacks<S(!new)>(pending: seq<S>, stacks: UNode<S>, rest: seq<S>, floor: UNode<S>)
    requires UWf(stacks) && stacks.paths > 0
    requires forall s :: UHas(stacks, s) <==> Over(rest, floor, s)
    ensures var r := USegmentOf(FromTopFirst(Rev(pending)), stacks);
            UWf(r) && forall s :: UHas(r, s) <==> Over(Rev(pending) + rest, floor, s)
  {
    var run := FromTopFirst(Rev(pending));
    var r := USegmentOf(run, stacks);
    USegmentOfWf(run, stacks);
    USegmentOfHas(run, stacks);
    hide UWf, UHas, Rev, USegmentOf, Over;
    forall s ensures UHas(r, s) <==> Over(Rev(pending) + rest, floor, s) {
      OverSplit(Rev(pending), rest, floor, s);
    }
  }

  lemma OverSplit<S(!new)>(top: seq<S>, rest: seq<S>, floor: UNode<S>, s: seq<S>)
    ensures Over(top + rest, floor, s) <==> top <= s && Over(rest, floor, s[|top|..])
  {
    hide UHas;
    PrefixSplit(top, rest, s);
  }

  // ----- runs of edits

  datatype Edit<+S> = Push(value: S) | Popn(count: nat)

  /** What is visible after a run of edits. */
  function Edited<S>(visible: seq<S>, edits: seq<Edit<S>>): seq<S> {
    if edits == [] then visible
    else
      var before := Edited(visible, edits[..|edits| - 1]);
      match edits[|edits| - 1]
      case Push(x) => [x] + before
      case Popn(k) => before[Min(k, |before|)..]
  }

  /** The same edits on an explicit map, `readable` symbols of whose stacks can be reached: a
      push goes on every stack, a pop takes symbols off every stack while there are readable
      ones, joining what coincides. With the map comes the new number of readable symbols. */
  ghost function MapEdited<S(!new), W(!new)>(L: Lattice<W>, m: Explicit<S, W>, readable: nat, edits: seq<Edit<S>>)
    : (Explicit<S, W>, nat)
  {
    if edits == [] then (m, readable)
    else
      var (before, len) := MapEdited(L, m, readable, edits[..|edits| - 1]);
      match edits[|edits| - 1]
      case Push(x) => (Pushed(before, x), len + 1)
      case Popn(k) => (Popped(L, before, Min(k, len)), len - Min(k, len))
  }

  /** What one more edit does: a push adds its symbol on top of every stack, a pop takes off what
      it may and joins whatever it brings down to one stack. */
  lemma OneMoreEdit<S(!new), W(!new)>(L: Lattice<W>, m: Explicit<S, W>, readable: nat, edits: seq<Edit<S>>, edit: Edit<S>,
                                      k: seq<S>, u: Option<W>)
    requires Laws(L)
    ensures MapEdited(L, m, readable, []) == (m, readable)
    ensures var (before, len) := MapEdited(L, m, readable, edits);
            var (after, left) := MapEdited(L, m, readable, edits + [edit]);
            match edit
            case Push(x) =>
              && left == len + 1
              && Look(after, k) == if k != [] && k[|k| - 1] == x then Look(before, k[..|k| - 1]) else None
            case Popn(count) =>
              var taken := if count < len then count else len;
              && left == len - taken
              && (OptUnder(L, Look(after, k), u)
                  <==> forall j :: j in before && |j| == |k| + taken && k <= j ==> Under(L, before[j], u))
  {
    assert (edits + [edit])[..|edits|] == edits;
    var (before, len) := MapEdited(L, m, readable, edits);
    match edit
    case Push(x) =>
      PushedAt(before, x, k);
    case Popn(count) =>
      PoppedLook(L, before, Min(count, len), k);
      JoinKeysBounds(L, before, Above(before, k, Min(count, len)));
  }

  /** `m` gives `weight` to the stacks of `floor` under the run `visible` and nothing to any other. */
  ghost predicate MapsOver<S(!new), W(!new)>(m: Explicit<S, W>, visible: seq<S>, floor: UNode<S>, weight: W) {
    forall s {:trigger Rev(s)} :: Look(m, Rev(s)) == if Over(visible, floor, s) then Some(weight) else None
  }

  /** Editing the visible run is editing the map. */
  lemma {:induction false} EditsAgree<S(!new), W(!new)>(L: Lattice<W>, m: Explicit<S, W>, visible: seq<S>, floor: UNode<S>,
                                                        weight: W, edits: seq<Edit<S>>)
    requires Laws(L) && MapsOver(m, visible, floor, weight)
    ensures var (after, len) := MapEdited(L, m, |visible|, edits);
            len == |Edited(visible, edits)| && MapsOver(after, Edited(visible, edits), floor, weight)
  {
    if edits != [] {
      var most := edits[..|edits| - 1];
      EditsAgree(L, m, visible, floor, weight, most);
      var (before, len) := MapEdited(L, m, |visible|, most);
      match edits[|edits| - 1]
      case Push(x) =>
        PushAgrees(before, Edited(visible, most), floor, weight, x);
      case Popn(k) =>
        PopAgrees(L, before, Edited(visible, most), floor, weight, Min(k, len));
    }
  }

  lemma PushAgrees<S(!new), W(!new)>(m: Explicit<S, W>, visible: seq<S>, floor: UNode<S>, weight: W, x: S)
    requires MapsOver(m, visible, floor, weight)
    ensures MapsOver(Pushed(m, x), [x] + visible, floor, weight)
  {
    hide Pushed, Over, Rev, Look;
    forall s ensures Look(Pushed(m, x), Rev(s)) == if Over([x] + visible, floor, s) then Some(weight) else None {
      PushedLook(m, x, s);
      OverSplit([x], visible, floor, s);
      if [x] <= s {
        assert Look(m, Rev(s[1..])) == if Over(visible, floor, s[1..]) then Some(weight) else None;
      }
    }
  }

  lemma PopAgrees<S(!new), W(!new)>(L: Lattice<W>, m: Explicit<S, W>, visible: seq<S>, floor: UNode<S>, weight: W, k: nat)
    requires Laws(L) && MapsOver(m, visible, floor, weight) && k <= |visible|
    ensures MapsOver(Popped(L, m, k), visible[k..], floor, weight)
  {
    hide Popped, Rev, Over, Look;
    forall s ensures Look(Popped(L, m, k), Rev(s)) == if Over(visible[k..], floor, s) then Some(weight) else None {
      PoppedLook(L, m, k, Rev(s));
      OneWeight(L, m, Above(m, Rev(s), k), visible, floor, weight);
      OverAbove(m, visible, floor, weight, k, s);
    }
  }

  /** Joining equal weights changes nothing. */
  lemma OneWeight<S(!new), W(!new)>(L: Lattice<W>, m: Explicit<S, W>, keys: set<seq<S>>, visible: seq<S>, floor: UNode<S>, weight: W)
    requires Laws(L) && MapsOver(m, visible, floor, weight) && keys <= m.Keys
    ensures JoinKeys(L, m, keys) == if keys == {} then None else Some(weight)
  {
    hide Over, Rev, JoinKeys;
    JoinKeysBounds(L, m, keys);
    if keys == {} {
      SameBounds(L, JoinKeys(L, m, keys), None);
    } else {
      forall k | k in keys ensures m[k] == weight {
        RevRev(k);
        assert Look(m, Rev(Rev(k))) == Some(m[k]);
      }
      var k :| k in keys;
      SameBounds(L, JoinKeys(L, m, keys), Some(weight));
    }
  }

  /** Something is popped onto a stack exactly when the stack is over the shorter run. */
  lemma OverAbove<S(!new), W(!new)>(m: Explicit<S, W>, visible: seq<S>, floor: UNode<S>, weight: W, k: nat, s: seq<S>)
    requires MapsOver(m, visible, floor, weight) && k <= |visible|
    ensures Above(m, Rev(s), k) != {} <==> Over(visible[k..], floor, s)
  {
    hide Over, Rev;
    if Above(m, Rev(s), k) != {} {
      var j :| j in Above(m, Rev(s), k);
      var p := SplitAbove(m, s, k, j);
      assert Look(m, Rev(p + s)).Some?;
      PopOver(visible, k, p, floor, s);
    }
    if Over(visible[k..], floor, s) {
      PopOver(visible, k, visible[..k], floor, s);
      assert Look(m, Rev(visible[..k] + s)).Some?;
      StaysAbove(m, s, visible[..k]);
    }
  }

  lemma PopOver<S(!new)>(before: seq<S>, m: nat, p: seq<S>, floor: UNode<S>, s: seq<S>)
    requires m <= |before| && |p| == m
    ensures Over(before, floor, p + s) <==> p == before[..m] && Over(before[m..], floor, s)
  {
    hide UHas;
    assert before == before[..m] + before[m..];
    PrefixSplit(before[..m], before[m..], p + s);
    assert (p + s)[m..] == s;
    assert before[..m] <= p + s <==> p == before[..m] by {
      assert (p + s)[..m] == p;
    }
  }

  /** Open a view, edit it, close it: the result means the equally edited map of the original
      graph, whatever that map is. */
  method EditRun<S(!new), W(!new)>(ghost L: Lattice<W>, n: WNode<S, W>, edits: seq<Edit<S>>, held: set<WNode<S, W>>)
    returns (r: Option<WNode<S, W>>)
    requires Laws(L) && WWf(n) && Heap(held)
    ensures r.None? <==> !(n.WShared? && n.stacks.USegment?)
    ensures r.Some? ==> WWf(r.value) && FitsIn(held, r.value)
    ensures r.Some? ==> forall m {:trigger Represents(L, n, m)} ::
              Represents(L, n, m) ==> Represents(L, r.value, MapEdited(L, m, |Chain(n.stacks)|, edits).0)
  {
    hide WNormal, WDetermined, UWf, WHas, Den, MapEdited, Over, Chain, ChainFloor, Represents;
    var view := FromGss(n);
    if view == null {
      return None;
    }
    ghost var visible, floor := view.Visible(), view.Floor();
    for i := 0 to |edits|
      invariant view.Valid() && view.Floor() == floor && view.weight == n.weight
      invariant view.Visible() == Edited(visible, edits[..i])
    {
      assert edits[..i + 1][..i] == edits[..i];
      match edits[i]
      case Push(x) =>
        view.Push(x);
      case Popn(k) =>
        var left := view.Popn(k);
    }
    assert edits[..|edits|] == edits;
    var closed := view.IntoGss(L, held);
    r := Some(closed);
    forall m | Represents(L, n, m) ensures Represents(L, closed, MapEdited(L, m, |visible|, edits).0) {
      RunAgrees(L, n, m, visible, floor, edits, closed);
    }
  }

  lemma RunAgrees<S(!new), W(!new)>(L: Lattice<W>, n: WNode<S, W>, m: Explicit<S, W>, visible: seq<S>, floor: UNode<S>,
                                    edits: seq<Edit<S>>, closed: WNode<S, W>)
    requires Laws(L) && WWf(n) && n.WShared? && Represents(L, n, m)
    requires forall s :: Over(visible, floor, s) <==> WHas(n, s)
    requires forall s :: Den(L, closed, s) == if Over(Edited(visible, edits), floor, s) then Some(n.weight) else None
    ensures Represents(L, closed, MapEdited(L, m, |visible|, edits).0)
  {
    SharedMeans(L, n, n.weight, n.stacks);
    assert forall s :: WHas(n, s) <==> UHas(n.stacks, s);
    hide WNormal, WDetermined, UHas, WHas, Den, Over, MapEdited, Look, Rev, Edited;
    forall s ensures Look(m, Rev(s)) == if Over(visible, floor, s) then Some(n.weight) else None {
      assert Den(L, n, s) == Look(m, Rev(s));
    }
    EditsAgree(L, m, visible, floor, n.weight, edits);
  }
}
