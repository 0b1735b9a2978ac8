/** The merge memo: a table keyed by unordered address pairs, sound while their nodes are kept alive. */
module Memo {
  import opened Weights
  import opened UNodes
  import opened WNodes
  import opened Live
  import opened WBuild

  // An address is only a number: an entry means something only while the two nodes it was
  // made for are still alive.
  type Key = (nat, nat)
  type MemoMap<S, W> = map<Key, WNode<S, W>>

  /** The two addresses, smaller first. */
  function KeyOf<S(==), W>(a: WNode<S, W>, b: WNode<S, W>): Key {
    if a.addr <= b.addr then (a.addr, b.addr) else (b.addr, a.addr)
  }

  function MemoReach<S(!new), W(!new)>(memo: MemoMap<S, W>): set<WNode<S, W>> {
    set k, m | k in memo && m in Reach(memo[k]) :: m
  }

  /** Everything a running merge keeps alive: what its caller holds, the kept temporaries, and
      the results in the memo. Nothing else is protected from being freed and overwritten. */
  function Pins<S(!new), W(!new)>(base: set<WNode<S, W>>, memo: MemoMap<S, W>, keep: seq<WNode<S, W>>)
    : set<WNode<S, W>>
  {
    base + ReachAll(keep) + MemoReach(memo)
  }

  /** Both addresses of the key are occupied by pinned nodes, and the value is their join. */
  ghost predicate EntryOk<S(!new), W(!new)>(L: Lattice<W>, k: Key, v: WNode<S, W>, pins: set<WNode<S, W>>) {
    && WWf(v) && v in pins
    && (exists a :: a in pins && a.addr == k.0)
    && (exists b :: b in pins && b.addr == k.1)
    && (forall a, b {:trigger IsJoin(L, v, a, b)} ::
          a in pins && b in pins && a.addr == k.0 && b.addr == k.1 ==> IsJoin(L, v, a, b))
  }

  ghost predicate State<S(!new), W(!new)>(L: Lattice<W>, base: set<WNode<S, W>>, memo: MemoMap<S, W>, keep: seq<WNode<S, W>>) {
    && Closed(base)
    && Heap(Pins(base, memo, keep))
    && forall k {:trigger memo[k]} {:trigger k in memo} :: k in memo ==> EntryOk(L, k, memo[k], Pins(base, memo, keep))
  }

  /** Whoever lives at the addresses of `k` is no deeper than `d`. */
  ghost predicate ShallowKey<S(!new), W(!new)>(k: Key, pins: set<WNode<S, W>>, d: int) {
    forall a {:trigger a in pins} :: a in pins && (a.addr == k.0 || a.addr == k.1) ==> WDepth(a) <= d
  }

  /** Nothing is unpinned, no entry is overwritten, and new entries are about shallow pairs. */
  ghost predicate Grows<S(!new), W(!new)>(base: set<WNode<S, W>>, memo0: MemoMap<S, W>, keep0: seq<WNode<S, W>>,
                                          memo: MemoMap<S, W>, keep: seq<WNode<S, W>>, d: int) {
    && Pins(base, memo0, keep0) <= Pins(base, memo, keep)
    && (forall k {:trigger k in memo0} :: k in memo0 ==> k in memo && memo[k] == memo0[k])
    && (forall k {:trigger k in memo} :: k in memo && k !in memo0 ==> ShallowKey(k, Pins(base, memo, keep), d))
  }

  // ----- pins

  lemma PinsStart<S(!new), W(!new)>(L: Lattice<W>, base: set<WNode<S, W>>)
    requires Heap(base)
    ensures Pins(base, map[], []) == base && State(L, base, map[], [])
  {
    assert Pins(base, map[], []) == base;
  }

  lemma PinsKeep<S(!new), W(!new)>(base: set<WNode<S, W>>, memo: MemoMap<S, W>, keep: seq<WNode<S, W>>, x: WNode<S, W>)
    ensures Pins(base, memo, keep + [x]) == Pins(base, memo, keep) + Reach(x)
  {
    forall m ensures m in ReachAll(keep + [x]) <==> m in ReachAll(keep) || m in Reach(x) {
      if m in ReachAll(keep) {
        var v :| v in keep && m in Reach(v);
        assert v in keep + [x];
      }
      if m in Reach(x) {
        assert x in keep + [x];
      }
    }
  }

  lemma PinsEntry<S(!new), W(!new)>(base: set<WNode<S, W>>, memo: MemoMap<S, W>, keep: seq<WNode<S, W>>, k: Key, x: WNode<S, W>)
    requires k !in memo
    ensures Pins(base, memo[k := x], keep) == Pins(base, memo, keep) + Reach(x)
  {
    var after := memo[k := x];
    forall m ensures m in MemoReach(after) <==> m in MemoReach(memo) || m in Reach(x) {
      if m in MemoReach(memo) {
        var j :| j in memo && m in Reach(memo[j]);
        assert j in after && after[j] == memo[j];
      }
      if m in Reach(x) {
        assert k in after && after[k] == x;
      }
    }
  }

  // ----- entries survive growth

  lemma EntryGrows<S(!new), W(!new)>(L: Lattice<W>, k: Key, v: WNode<S, W>, pins: set<WNode<S, W>>, more: set<WNode<S, W>>)
    requires EntryOk(L, k, v, pins) && pins <= more && Coherent(more)
    ensures EntryOk(L, k, v, more)
  {
    var a0 :| a0 in pins && a0.addr == k.0;
    var b0 :| b0 in pins && b0.addr == k.1;
    forall a, b | a in more && b in more && a.addr == k.0 && b.addr == k.1 ensures IsJoin(L, v, a, b) {
      assert a == a0 && b == b0;
    }
  }

  lemma StateKeep<S(!new), W(!new)>(L: Lattice<W>, base: set<WNode<S, W>>, memo: MemoMap<S, W>, keep: seq<WNode<S, W>>, x: WNode<S, W>)
    requires State(L, base, memo, keep) && FitsIn(Pins(base, memo, keep), x)
    ensures State(L, base, memo, keep + [x]) && Grows(base, memo, keep, memo, keep + [x], -1)
    ensures Pins(base, memo, keep + [x]) == Pins(base, memo, keep) + Reach(x)
    ensures x in Pins(base, memo, keep + [x])
  {
    PinsKeep(base, memo, keep, x);
    ReachSelf(x);
    forall k | k in memo ensures EntryOk(L, k, memo[k], Pins(base, memo, keep + [x])) {
      EntryGrows(L, k, memo[k], Pins(base, memo, keep), Pins(base, memo, keep + [x]));
    }
  }

  /** A hit returns the join of the two nodes asked about, in either order. */
  lemma MemoHit<S(!new), W(!new)>(L: Lattice<W>, base: set<WNode<S, W>>, memo: MemoMap<S, W>, keep: seq<WNode<S, W>>,
                                  left: WNode<S, W>, right: WNode<S, W>)
    requires State(L, base, memo, keep)
    requires left in Pins(base, memo, keep) && right in Pins(base, memo, keep)
    requires KeyOf(left, right) in memo
    ensures IsJoin(L, memo[KeyOf(left, right)], left, right)
    ensures WWf(memo[KeyOf(left, right)]) && memo[KeyOf(left, right)] in Pins(base, memo, keep)
  {
    var v := memo[KeyOf(left, right)];
    assert EntryOk(L, KeyOf(left, right), v, Pins(base, memo, keep));
    assert IsJoin(L, v, left, right) || IsJoin(L, v, right, left);
  }

  /** Entries made while merging strictly shallower nodes are never about this pair. */
  lemma NotOverwritten<S(!new), W(!new)>(base: set<WNode<S, W>>, memo0: MemoMap<S, W>, keep0: seq<WNode<S, W>>,
                                         memo: MemoMap<S, W>, keep: seq<WNode<S, W>>,
                                         left: WNode<S, W>, right: WNode<S, W>, d: int)
    requires Grows(base, memo0, keep0, memo, keep, d - 1)
    requires left in Pins(base, memo, keep) && right in Pins(base, memo, keep)
    requires WDepth(left) >= d || WDepth(right) >= d
    requires KeyOf(left, right) !in memo0
    ensures KeyOf(left, right) !in memo
  {
  }

  lemma NewEntryOk<S(!new), W(!new)>(L: Lattice<W>, left: WNode<S, W>, right: WNode<S, W>, x: WNode<S, W>, pins: set<WNode<S, W>>)
    requires Coherent(pins) && left in pins && right in pins && x in pins
    requires WWf(x) && IsJoin(L, x, left, right)
    ensures EntryOk(L, KeyOf(left, right), x, pins)
  {
    var key := KeyOf(left, right);
    assert IsJoin(L, x, right, left);
    hide IsJoin, WNormal, WDetermined;
    forall a, b | a in pins && b in pins && a.addr == key.0 && b.addr == key.1 ensures IsJoin(L, x, a, b) {
      assert (a == left && b == right) || (a == right && b == left);
    }
  }

  lemma StateInsert<S(!new), W(!new)>(L: Lattice<W>, base: set<WNode<S, W>>, memo: MemoMap<S, W>, keep: seq<WNode<S, W>>,
                                      left: WNode<S, W>, right: WNode<S, W>, x: WNode<S, W>, d: int)
    requires State(L, base, memo, keep) && FitsIn(Pins(base, memo, keep), x)
    requires left in Pins(base, memo, keep) && right in Pins(base, memo, keep)
    requires WWf(x) && IsJoin(L, x, left, right) && KeyOf(left, right) !in memo
    requires WDepth(left) <= d && WDepth(right) <= d
    ensures State(L, base, memo[KeyOf(left, right) := x], keep)
    ensures Grows(base, memo, keep, memo[KeyOf(left, right) := x], keep, d)
    ensures x in Pins(base, memo[KeyOf(left, right) := x], keep)
  {
    hide Pins, EntryOk, WNormal, WDetermined, IsJoin, WDepth, Reach, FitsIn, Below, Closed, Coherent, ShallowKey;
    var key := KeyOf(left, right);
    var pins, more := Pins(base, memo, keep), Pins(base, memo[key := x], keep);
    PinsEntry(base, memo, keep, key, x);
    FitsEntry(pins, x);
    NewEntryOk(L, left, right, x, more);
    EntriesGrow(L, memo, key, x, pins, more);
    OnlyThese(left, right, more, d);
  }

  lemma FitsEntry<S(!new), W(!new)>(pins: set<WNode<S, W>>, x: WNode<S, W>)
    requires FitsIn(pins, x)
    ensures Heap(pins + Reach(x)) && x in pins + Reach(x)
  {
    ReachSelf(x);
  }

  lemma OnlyThese<S(!new), W(!new)>(left: WNode<S, W>, right: WNode<S, W>, pins: set<WNode<S, W>>, d: int)
    requires Coherent(pins) && left in pins && right in pins && WDepth(left) <= d && WDepth(right) <= d
    ensures ShallowKey(KeyOf(left, right), pins, d)
  {
    hide WDepth;
    var key := KeyOf(left, right);
    forall a | a in pins && (a.addr == key.0 || a.addr == key.1) ensures WDepth(a) <= d {
      assert a == left || a == right;
    }
  }

  lemma EntriesGrow<S(!new), W(!new)>(L: Lattice<W>, memo: MemoMap<S, W>, key: Key, x: WNode<S, W>,
                                      pins: set<WNode<S, W>>, more: set<WNode<S, W>>)
    requires forall k {:trigger memo[k]} {:trigger k in memo} :: k in memo ==> EntryOk(L, k, memo[k], pins)
    requires EntryOk(L, key, x, more) && pins <= more && Coherent(more)
    ensures var after := memo[key := x];
      forall k {:trigger after[k]} {:trigger k in after} :: k in after ==> EntryOk(L, k, after[k], more)
  {
    hide EntryOk;
    forall k | k in memo ensures EntryOk(L, k, memo[k], more) {
      EntryGrows(L, k, memo[k], pins, more);
    }
  }

  lemma GrowsRefl<S(!new), W(!new)>(base: set<WNode<S, W>>, memo: MemoMap<S, W>, keep: seq<WNode<S, W>>, d: int)
    ensures Grows(base, memo, keep, memo, keep, d)
  {
  }

  lemma GrowsTrans<S(!new), W(!new)>(L: Lattice<W>, base: set<WNode<S, W>>, memo0: MemoMap<S, W>, keep0: seq<WNode<S, W>>,
                                     memo1: MemoMap<S, W>, keep1: seq<WNode<S, W>>,
                                     memo2: MemoMap<S, W>, keep2: seq<WNode<S, W>>, d1: int, d2: int, d: int)
    requires State(L, base, memo1, keep1) && State(L, base, memo2, keep2)
    requires Grows(base, memo0, keep0, memo1, keep1, d1) && Grows(base, memo1, keep1, memo2, keep2, d2)
    requires d1 <= d && d2 <= d
    ensures Grows(base, memo0, keep0, memo2, keep2, d)
  {
    var pins1, pins2 := Pins(base, memo1, keep1), Pins(base, memo2, keep2);
    forall k | k in memo2 && k !in memo0 ensures ShallowKey(k, pins2, d) {
      if k in memo1 {
        assert EntryOk(L, k, memo1[k], pins1);
        assert ShallowKey(k, pins1, d1);
        forall a | a in pins2 && (a.addr == k.0 || a.addr == k.1) ensures WDepth(a) <= d {
          var a0 :| a0 in pins1 && a0.addr == a.addr;
          assert a0 in pins2;
        }
      } else {
        assert ShallowKey(k, pins2, d2);
      }
    }
  }

  // ----- why the temporaries must be kept

  function BottomAt<S(==), W>(addr: nat, weight: W): WNode<S, W> {
    WShared(addr, weight, UEnd(), 1, 0)
  }

  lemma BottomAtFacts<S(!new), W(!new)>(L: Lattice<W>, addr: nat, weight: W)
    ensures WWf(BottomAt<S, W>(addr, weight)) && Reach(BottomAt<S, W>(addr, weight)) == {BottomAt(addr, weight)}
    ensures forall s: seq<S>, u :: Below(L, BottomAt(addr, weight), s, u) <==> (s == [] ==> Under(L, weight, u))
  {
    UEndWf<S>();
    assert UCount(UEnd<S>()) == 1 by {
      assert UCached(UEnd<S>());
    }
  }

  /** An entry whose node has been freed is wrong for the next node at its address: the heap
      is coherent, the key is in the memo, and the value is not the join of the two nodes. */
  lemma StaleHit<S(!new), W(!new)>(L: Lattice<W>, w: W, v: W)
    returns (live: set<WNode<S, W>>, memo: MemoMap<S, W>, gone: WNode<S, W>, other: WNode<S, W>, next: WNode<S, W>)
    requires Laws(L) && !Leq(L, v, w)
    ensures WWf(gone) && WWf(other) && WWf(next) && other in live && gone !in live
    ensures KeyOf(gone, other) in memo && memo[KeyOf(gone, other)] in live && IsJoin(L, memo[KeyOf(gone, other)], gone, other)
    ensures Heap(live) && FitsIn(live, next) && KeyOf(next, other) in memo
    ensures !IsJoin(L, memo[KeyOf(next, other)], next, other)
  {
    gone, other, next := BottomAt(0, w), BottomAt(1, w), BottomAt(0, v);
    var r := BottomAt<S, W>(2, w);
    live, memo := {other, r}, map[(0, 1) := r];
    BottomAtFacts<S, W>(L, 0, w);
    BottomAtFacts<S, W>(L, 1, w);
    BottomAtFacts<S, W>(L, 2, w);
    BottomAtFacts<S, W>(L, 0, v);
    LeqRefl(L, w);
    hide WNormal, WDetermined, Below;
    assert Below(L, r, [], Some(w)) && !Below(L, next, [], Some(w));
  }
}
