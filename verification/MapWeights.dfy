/** Transforming or discarding stored weight regions, once per distinct node. */
module MapWeights {
  import opened Weights
  import opened Tables
  import opened Counting
  import opened UNodes
  import opened WNodes
  import opened Live
  import opened WBuild
  import opened WMerge
  import opened Meaning
  import opened Regions

  // ----- what a transformed graph means

  /** `u` bounds the images of all of `ws`. */
  ghost predicate MapUnder<W(!new), V(!new)>(L: Lattice<V>, f: W -> Option<V>, ws: seq<W>, u: Option<V>) {
    forall w {:trigger w in ws} :: w in ws ==> OptUnder(L, f(w), u)
  }

  /** `r` has, at every stack, the join of the images of the path weights of `n`. */
  ghost predicate IsMapped<S(!new), W(!new), V(!new)>(L: Lattice<V>, f: W -> Option<V>, r: WNode<S, V>, n: WNode<S, W>) {
    forall s, u :: Below(L, r, s, u) <==> MapUnder(L, f, PathWeights(n, s), u)
  }

  function MapOpt<W, V>(f: W -> Option<V>, w: Option<W>): Option<V> {
    match w
    case None => None
    case Some(x) => f(x)
  }

  /** On deterministic graphs any pure transform commutes with meaning. */
  lemma MappedMeaning<S(!new), W(!new), V(!new)>(LW: Lattice<W>, LV: Lattice<V>, f: W -> Option<V>,
                                                 r: WNode<S, V>, n: WNode<S, W>, s: seq<S>)
    requires Laws(LV) && WWf(n) && IsMapped(LV, f, r, n)
    ensures Den(LV, r, s) == MapOpt(f, Den(LW, n, s))
  {
    hide WNormal, WDetermined, PathWeights, WHas;
    DenBounds(LV, r, s);
    DenSome(LW, n, s);
    OneRegion(n, s);
    if WHas(n, s) {
      StoredWeight(LW, n, s);
      assert PathWeights(n, s)[0] in PathWeights(n, s);
    }
    hide Den, Below;
    forall u ensures OptUnder(LV, Den(LV, r, s), u) <==> OptUnder(LV, MapOpt(f, Den(LW, n, s)), u) {
      assert Below(LV, r, s, u) <==> MapUnder(LV, f, PathWeights(n, s), u);
    }
    SameBounds(LV, Den(LV, r, s), MapOpt(f, Den(LW, n, s)));
  }

  ghost predicate PreservesAt<W, V>(LW: Lattice<W>, LV: Lattice<V>, f: W -> Option<V>, a: W, b: W) {
    f(LW.join(a, b)) == JoinOpt(LV, f(a), f(b))
  }

  /** `f` carries joins to lifted joins, `None` being no contribution. */
  ghost predicate PreservesJoins<W(!new), V(!new)>(LW: Lattice<W>, LV: Lattice<V>, f: W -> Option<V>) {
    forall a, b :: PreservesAt(LW, LV, f, a, b)
  }

  lemma {:induction false} MapUnderJoin<W(!new), V(!new)>(LW: Lattice<W>, LV: Lattice<V>, f: W -> Option<V>, ws: seq<W>)
    requires Laws(LV) && PreservesJoins(LW, LV, f)
    ensures forall u :: MapUnder(LV, f, ws, u) <==> OptUnder(LV, MapOpt(f, JoinAll(LW, ws)), u)
  {
    if ws != [] {
      var rest := JoinAll(LW, ws[1..]);
      MapUnderJoin(LW, LV, f, ws[1..]);
      OptUnderJoin(LV, f(ws[0]), MapOpt(f, rest));
      assert rest.Some? ==> PreservesAt(LW, LV, f, ws[0], rest.value);
      assert MapOpt(f, JoinAll(LW, ws)) == JoinOpt(LV, f(ws[0]), MapOpt(f, rest));
      hide JoinAll, PreservesJoins;
      forall u ensures MapUnder(LV, f, ws, u) <==> OptUnder(LV, f(ws[0]), u) && MapUnder(LV, f, ws[1..], u) {
        assert ws == [ws[0]] + ws[1..];
        assert ws[0] in ws;
        if MapUnder(LV, f, ws, u) {
          forall w | w in ws[1..] ensures OptUnder(LV, f(w), u) {
            assert w in ws;
          }
        }
      }
    }
  }

  /** A join-preserving transform commutes with meaning whatever the graph, determined or not. */
  lemma PreservingMeaning<S(!new), W(!new), V(!new)>(LW: Lattice<W>, LV: Lattice<V>, f: W -> Option<V>,
                                                     r: WNode<S, V>, n: WNode<S, W>, s: seq<S>)
    requires Laws(LV) && PreservesJoins(LW, LV, f) && IsMapped(LV, f, r, n)
    ensures Den(LV, r, s) == MapOpt(f, Den(LW, n, s))
  {
    hide PathWeights, Below;
    DenBounds(LV, r, s);
    MapUnderJoin(LW, LV, f, PathWeights(n, s));
    forall u ensures OptUnder(LV, Den(LV, r, s), u) <==> OptUnder(LV, MapOpt(f, Den(LW, n, s)), u) {
      assert Below(LV, r, s, u) <==> MapUnder(LV, f, PathWeights(n, s), u);
    }
    SameBounds(LV, Den(LV, r, s), MapOpt(f, Den(LW, n, s)));
  }

  ghost predicate Commutes<S(!new), W(!new), V(!new)>(LW: Lattice<W>, LV: Lattice<V>, f: W -> Option<V>,
                                                      r: WNode<S, V>, n: WNode<S, W>) {
    forall s :: Den(LV, r, s) == MapOpt(f, Den(LW, n, s))
  }

  /** Where a transform fails to carry a join, there is a normal graph with which it does not commute. */
  lemma NotPreserved<S(!new), W(!new), V(!new)>(LW: Lattice<W>, LV: Lattice<V>, f: W -> Option<V>, a: W, b: W)
    returns (n: WNode<S, W>, r: WNode<S, V>)
    requires Laws(LV) && !PreservesAt(LW, LV, f, a, b)
    ensures WNormal(n) && IsMapped(LV, f, r, n) && !Commutes(LW, LV, f, r, n)
  {
    n := WBranch(0, [a, b], map[], 2, 0);
    WDepthLeaf(n);
    var images := (if f(a).Some? then [f(a).value] else []) + (if f(b).Some? then [f(b).value] else []);
    r := WBranch(0, images, map[], 0, 0);
    EmptiesMapped(LV, f, [a, b], images, n, r);
    assert JoinAll(LW, [a, b]) == Some(LW.join(a, b)) by {
      assert [a, b][1..] == [b] && [b][1..] == [] && JoinAll(LW, [b]) == Some(b);
    }
    TwoImages(LV, f, a, b, r, n);
    assert Den(LW, n, []) == Some(LW.join(a, b));
  }

  lemma EmptiesMapped<S(!new), W(!new), V(!new)>(L: Lattice<V>, f: W -> Option<V>, ws: seq<W>, images: seq<V>,
                                                 n: WNode<S, W>, r: WNode<S, V>)
    requires n.WBranch? && n.empty == ws && n.children == map[] && r.WBranch? && r.empty == images && r.children == map[]
    requires forall v :: v in images <==> exists w :: w in ws && f(w) == Some(v)
    ensures IsMapped(L, f, r, n)
  {
    forall s, u ensures Below(L, r, s, u) <==> MapUnder(L, f, PathWeights(n, s), u) {
      if s == [] {
        if Below(L, r, s, u) {
          forall w | w in ws ensures OptUnder(L, f(w), u) {
            assert f(w).Some? ==> f(w).value in images;
          }
        }
      } else {
        assert AltsAt(r.children, s[0]) == [];
      }
    }
  }

  lemma TwoImages<S(!new), W(!new), V(!new)>(L: Lattice<V>, f: W -> Option<V>, a: W, b: W, r: WNode<S, V>, n: WNode<S, W>)
    requires Laws(L) && IsMapped(L, f, r, n) && PathWeights(n, []) == [a, b]
    ensures Den(L, r, []) == JoinOpt(L, f(a), f(b))
  {
    OptUnderJoin(L, f(a), f(b));
    DenBounds(L, r, []);
    hide Den, Below, PathWeights;
    forall u ensures OptUnder(L, Den(L, r, []), u) <==> OptUnder(L, JoinOpt(L, f(a), f(b)), u) {
      assert Below(L, r, [], u) <==> MapUnder(L, f, PathWeights(n, []), u);
      assert a in [a, b] && b in [a, b];
    }
    SameBounds(L, Den(L, r, []), JoinOpt(L, f(a), f(b)));
  }

  /** So the transforms that commute with meaning on all normal graphs are just those that
      preserve joins; on determined graphs, by `MappedMeaning`, they all do. */
  lemma CommutesIff<S(!new), W(!new), V(!new)>(LW: Lattice<W>, LV: Lattice<V>, f: W -> Option<V>)
    requires Laws(LV)
    ensures PreservesJoins(LW, LV, f)
       <==> forall n: WNode<S, W>, r: WNode<S, V> {:trigger IsMapped(LV, f, r, n)} ::
              WNormal(n) && IsMapped(LV, f, r, n) ==> Commutes(LW, LV, f, r, n)
  {
    hide Den, IsMapped, WNormal, PreservesAt;
    if PreservesJoins(LW, LV, f) {
      forall n: WNode<S, W>, r: WNode<S, V> | IsMapped(LV, f, r, n) ensures Commutes(LW, LV, f, r, n) {
        forall s ensures Den(LV, r, s) == MapOpt(f, Den(LW, n, s)) {
          PreservingMeaning(LW, LV, f, r, n, s);
        }
      }
    } else {
      var a, b :| !PreservesAt(LW, LV, f, a, b);
      var n: WNode<S, W>, r: WNode<S, V> := NotPreserved(LW, LV, f, a, b);
    }
  }

  // ----- the memoised transformation

  function MemoLive<S(!new), V(!new)>(memo: map<nat, WNode<S, V>>): set<WNode<S, V>> {
    set a, m | a in memo && m in Reach(memo[a]) :: m
  }

  lemma MemoLiveClosed<S(!new), V(!new)>(memo: map<nat, WNode<S, V>>)
    ensures Closed(MemoLive(memo)) && forall a :: a in memo ==> memo[a] in MemoLive(memo)
  {
    forall a | a in memo ensures memo[a] in MemoLive(memo) {
      ReachSelf(memo[a]);
    }
    forall m, c | m in MemoLive(memo) && IsKid(c, m) ensures c in MemoLive(memo) {
      var a :| a in memo && m in Reach(memo[a]);
      ReachClosed(memo[a]);
      assert c in Reach(memo[a]);
    }
  }

  /** `r` is a transformed `n`: in normal form, with the image of its meaning, and determined if `n` is. */
  ghost predicate IsImage<S(!new), W(!new), V(!new)>(L: Lattice<V>, f: W -> Option<V>, r: WNode<S, V>, n: WNode<S, W>) {
    WNormal(r) && IsMapped(L, f, r, n) && (WDetermined(n) ==> WDetermined(r))
  }

  /** Every visited node has its image in the memo. */
  ghost predicate MemoMapped<S(!new), W(!new), V(!new)>(L: Lattice<V>, f: W -> Option<V>, memo: map<nat, WNode<S, V>>,
                                                        visited: set<WNode<S, W>>) {
    forall m {:trigger m in visited} :: m in visited ==>
      m.addr in memo && IsImage(L, f, memo[m.addr], m)
  }

  ghost predicate MemoKept<S(!new), V(!new)>(memo0: map<nat, WNode<S, V>>, memo: map<nat, WNode<S, V>>) {
    forall a {:trigger a in memo0} :: a in memo0 ==> a in memo && memo[a] == memo0[a]
  }

  lemma MemoLiveMore<S(!new), V(!new)>(memo: map<nat, WNode<S, V>>, a: nat, r: WNode<S, V>)
    requires a !in memo
    ensures MemoLive(memo[a := r]) == MemoLive(memo) + Reach(r)
  {
    var after := memo[a := r];
    forall m ensures m in MemoLive(after) <==> m in MemoLive(memo) || m in Reach(r) {
      if m in MemoLive(memo) {
        var b :| b in memo && m in Reach(memo[b]);
        assert b in after && after[b] == memo[b];
      }
      if m in Reach(r) {
        assert a in after && after[a] == r;
      }
    }
  }

  lemma MemoLiveGrows<S(!new), V(!new)>(memo0: map<nat, WNode<S, V>>, memo: map<nat, WNode<S, V>>)
    requires MemoKept(memo0, memo)
    ensures MemoLive(memo0) <= MemoLive(memo)
  {
  }

  /** A node is never reachable from its own children. */
  lemma {:induction false} ReachRank<S(!new), W(!new)>(n: WNode<S, W>, m: WNode<S, W>)
    requires m in Reach(n)
    ensures m == n || (n decreases to m)
    decreases n
  {
    if m != n {
      match n
      case WBranch(_, _, _, _, _) =>
        var c := ReachVia(n, m);
        ReachRank(c, m);
      case WSegment(_, _, next, _, _) =>
        ReachRank(next, m);
      case WShared(_, _, _, _, _) =>
    }
  }

  lemma KidBelow<S(!new), W(!new)>(n: WNode<S, W>, c: WNode<S, W>)
    requires IsKid(c, n)
    ensures n !in Reach(c)
    ensures n.WSegment? ==> Reach(n) == {n} + Reach(c)
  {
    if n in Reach(c) {
      ReachRank(c, n);
    }
  }

  // ----- images of single nodes

  lemma SharedMapped<S(!new), W(!new), V(!new)>(L: Lattice<V>, f: W -> Option<V>, n: WNode<S, W>, r: WNode<S, V>)
    requires n.WShared?
    requires f(n.weight).Some? ==> IsShared(L, r, f(n.weight).value, n.stacks)
    requires f(n.weight).None? ==> forall s, u :: Below(L, r, s, u)
    ensures IsMapped(L, f, r, n)
  {
    hide Below, UHas;
    forall s, u ensures Below(L, r, s, u) <==> MapUnder(L, f, PathWeights(n, s), u) {
      assert n.weight in [n.weight];
    }
  }

  lemma SegmentMapped<S(!new), W(!new), V(!new)>(L: Lattice<V>, f: W -> Option<V>, n: WNode<S, W>, next: WNode<S, V>,
                                                 r: WNode<S, V>)
    requires n.WSegment? && IsMapped(L, f, next, n.next) && IsPrefixed(L, r, n.values.View(), next)
    ensures IsMapped(L, f, r, n)
  {
    hide Below;
    var v := n.values.View();
    forall s, u ensures Below(L, r, s, u) <==> MapUnder(L, f, PathWeights(n, s), u) {
      if v <= s {
        assert Below(L, next, s[|v|..], u) <==> MapUnder(L, f, PathWeights(n.next, s[|v|..]), u);
      }
    }
  }

  lemma SegmentImage<S(!new), W(!new), V(!new)>(L: Lattice<V>, f: W -> Option<V>, n: WNode<S, W>, next: WNode<S, V>,
                                                r: WNode<S, V>)
    requires n.WSegment? && IsImage(L, f, next, n.next) && IsPrefixed(L, r, n.values.View(), next)
    requires WNormal(r) && (WDetermined(next) ==> WDetermined(r))
    ensures IsImage(L, f, r, n)
  {
    SegmentMapped(L, f, n, next, r);
    assert WDetermined(n) ==> WDetermined(n.next);
  }

  method MapEmpties<W(!new), V(!new)>(ghost L: Lattice<V>, f: W -> Option<V>, ws: seq<W>) returns (r: seq<V>)
    ensures |r| <= |ws|
    ensures forall u :: BoundsAll(L, r, u) <==> MapUnder(L, f, ws, u)
  {
    r := [];
    for i := 0 to |ws|
      invariant |r| <= i
      invariant forall u :: BoundsAll(L, r, u) <==> MapUnder(L, f, ws[..i], u)
    {
      var v := f(ws[i]);
      var more := if v.Some? then r + [v.value] else r;
      MapOneMore(L, f, ws, i, r, v, more);
      r := more;
    }
    assert ws[..|ws|] == ws;
  }

  lemma MapOneMore<W(!new), V(!new)>(L: Lattice<V>, f: W -> Option<V>, ws: seq<W>, i: nat, r: seq<V>, v: Option<V>,
                                            more: seq<V>)
    requires i < |ws| && v == f(ws[i]) && more == if v.Some? then r + [v.value] else r
    requires forall u :: BoundsAll(L, r, u) <==> MapUnder(L, f, ws[..i], u)
    ensures forall u :: BoundsAll(L, more, u) <==> MapUnder(L, f, ws[..i + 1], u)
  {
    assert ws[..i + 1] == ws[..i] + [ws[i]];
    forall u ensures BoundsAll(L, more, u) <==> MapUnder(L, f, ws[..i + 1], u) {
      assert ws[i] in ws[..i + 1];
      assert MapUnder(L, f, ws[..i + 1], u) <==> MapUnder(L, f, ws[..i], u) && OptUnder(L, v, u) by {
        assert forall w :: w in ws[..i + 1] <==> w in ws[..i] || w == ws[i];
      }
      if v.Some? {
        assert v.value in r + [v.value];
        assert forall w :: w in r + [v.value] <==> w in r || w == v.value;
      }
    }
  }

  // ----- images of alternatives

  /** Outside `todo`, each symbol holds the images of its alternatives, except those that are empty. */
  ghost predicate KidsMapped<S(!new), W(!new), V(!new)>(L: Lattice<V>, f: W -> Option<V>, kids: WChildren<S, V>,
                                                        n: WNode<S, W>, todo: set<S>, live: set<WNode<S, V>>)
    requires n.WBranch?
  {
    forall t {:trigger AltsAt(kids, t)} ::
      if t in todo || t !in n.children then AltsAt(kids, t) == []
      else AltsMapped(L, f, AltsAt(kids, t), n.children[t].nodes, live)
  }

  /** `images` are the non-empty images of `alts`. */
  ghost predicate AltsMapped<S(!new), W(!new), V(!new)>(L: Lattice<V>, f: W -> Option<V>, images: seq<WNode<S, V>>,
                                                        alts: seq<WNode<S, W>>, live: set<WNode<S, V>>) {
    && |images| <= |alts|
    && (forall v {:trigger v in images} :: v in images ==> v in live && WNormal(v))
    && ((forall c {:trigger c in alts} :: c in alts ==> WDetermined(c))
        ==> forall v {:trigger v in images} :: v in images ==> WDetermined(v))
    && (forall s, u {:trigger AllBelow(L, images, s, u)} ::
          AllBelow(L, images, s, u) <==> MapUnder(L, f, PathWeightsAll(alts, s), u))
  }

  lemma NoneMapped<S(!new), W(!new), V(!new)>(L: Lattice<V>, f: W -> Option<V>, alts: seq<WNode<S, W>>, live: set<WNode<S, V>>)
    requires alts == []
    ensures AltsMapped<S, W, V>(L, f, [], alts, live)
  {
  }

  lemma AltsKept<S(!new), W(!new), V(!new)>(L: Lattice<V>, f: W -> Option<V>, images: seq<WNode<S, V>>, alts: seq<WNode<S, W>>,
                                            live: set<WNode<S, V>>, more: set<WNode<S, V>>)
    requires AltsMapped(L, f, images, alts, live) && live <= more
    ensures AltsMapped(L, f, images, alts, more)
  {
    hide WNormal, WDetermined, PathWeightsAll, AllBelow, MapUnder;
  }

  /** The image of one more alternative joins the list unless it is empty. */
  lemma MoreMapped<S(!new), W(!new), V(!new)>(L: Lattice<V>, f: W -> Option<V>, images: seq<WNode<S, V>>, alts: seq<WNode<S, W>>,
                                              live: set<WNode<S, V>>, c: WNode<S, W>, image: WNode<S, V>)
    requires AltsMapped(L, f, images, alts, live) && IsImage(L, f, image, c) && image in live
    ensures AltsMapped(L, f, if image.paths == 0 then images else images + [image], alts + [c], live)
  {
    var after := if image.paths == 0 then images else images + [image];
    forall s, u ensures AllBelow(L, after, s, u) <==> MapUnder(L, f, PathWeightsAll(alts + [c], s), u) {
      MoreMappedAt(L, f, images, alts, live, c, image, s, u);
    }
    hide WNormal, WDetermined, IsMapped, AllBelow, PathWeightsAll, MapUnder;
    assert c in alts + [c] && forall x :: x in alts ==> x in alts + [c];
    forall v | v in after ensures v in live && WNormal(v) {
      assert v in images || v == image;
    }
    if forall x :: x in alts + [c] ==> WDetermined(x) {
      forall v | v in after ensures WDetermined(v) {
        assert v in images || v == image;
      }
    }
  }

  lemma MoreMappedAt<S(!new), W(!new), V(!new)>(L: Lattice<V>, f: W -> Option<V>, images: seq<WNode<S, V>>, alts: seq<WNode<S, W>>,
                                                live: set<WNode<S, V>>, c: WNode<S, W>, image: WNode<S, V>, s: seq<S>, u: Option<V>)
    requires AltsMapped(L, f, images, alts, live) && IsImage(L, f, image, c)
    ensures AllBelow(L, if image.paths == 0 then images else images + [image], s, u)
       <==> MapUnder(L, f, PathWeightsAll(alts + [c], s), u)
  {
    if image.paths == 0 {
      EmptyBelow(L, image);
    }
    hide WNormal, WDetermined, Below, AllBelow, PathWeights, PathWeightsAll, MapUnder;
    AllBelowMore(L, images, image, s, u);
    WeightsOfMore(alts, c, s);
    MapUnderBoth(L, f, PathWeightsAll(alts, s), PathWeights(c, s), u);
    assert AllBelow(L, images, s, u) <==> MapUnder(L, f, PathWeightsAll(alts, s), u);
    assert Below(L, image, s, u) <==> MapUnder(L, f, PathWeights(c, s), u);
  }

  lemma {:induction false} WeightsOfMore<S(!new), W(!new)>(alts: seq<WNode<S, W>>, c: WNode<S, W>, s: seq<S>)
    ensures PathWeightsAll(alts + [c], s) == PathWeightsAll(alts, s) + PathWeights(c, s)
  {
    if alts == [] {
      assert alts + [c] == [c] && [c][1..] == [];
    } else {
      WeightsOfMore(alts[1..], c, s);
      assert (alts + [c])[1..] == alts[1..] + [c];
    }
  }

  lemma MapUnderBoth<W(!new), V(!new)>(L: Lattice<V>, f: W -> Option<V>, a: seq<W>, b: seq<W>, u: Option<V>)
    ensures MapUnder(L, f, a + b, u) <==> MapUnder(L, f, a, u) && MapUnder(L, f, b, u)
  {
    forall w ensures w in a + b <==> w in a || w in b {
    }
  }

  lemma NoKidsMapped<S(!new), W(!new), V(!new)>(L: Lattice<V>, f: W -> Option<V>, kids: WChildren<S, V>,
                                                n: WNode<S, W>, live: set<WNode<S, V>>)
    requires n.WBranch? && kids == map[]
    ensures KidsMapped(L, f, kids, n, n.children.Keys, live)
  {
  }

  lemma KidsKept<S(!new), W(!new), V(!new)>(L: Lattice<V>, f: W -> Option<V>, kids: WChildren<S, V>, n: WNode<S, W>, todo: set<S>,
                                            memo0: map<nat, WNode<S, V>>, memo: map<nat, WNode<S, V>>, held: set<WNode<S, V>>)
    requires n.WBranch? && MemoKept(memo0, memo)
    requires KidsMapped(L, f, kids, n, todo, held + MemoLive(memo0))
    ensures KidsMapped(L, f, kids, n, todo, held + MemoLive(memo))
  {
    MemoLiveGrows(memo0, memo);
    hide MemoLive, AltsMapped;
    forall t | t !in todo && t in n.children
      ensures AltsMapped(L, f, AltsAt(kids, t), n.children[t].nodes, held + MemoLive(memo))
    {
      AltsKept(L, f, AltsAt(kids, t), n.children[t].nodes, held + MemoLive(memo0), held + MemoLive(memo));
    }
  }

  lemma KidDone<S(!new), W(!new), V(!new)>(L: Lattice<V>, f: W -> Option<V>, kids: WChildren<S, V>, n: WNode<S, W>, todo: set<S>,
                                           top: S, images: seq<WNode<S, V>>, live: set<WNode<S, V>>)
    requires n.WBranch? && top in todo && top in n.children
    requires KidsMapped(L, f, kids, n, todo, live) && AltsMapped(L, f, images, n.children[top].nodes, live)
    ensures KidsMapped(L, f, if images == [] then kids else PutAlts(kids, top, images), n, todo - {top}, live)
  {
    hide AltsMapped;
    assert AltsAt(kids, top) == [];
  }

  lemma KidsLive<S(!new), W(!new), V(!new)>(L: Lattice<V>, f: W -> Option<V>, n: WNode<S, W>, empty: seq<V>, kids: WChildren<S, V>,
                                            live: set<WNode<S, V>>)
    requires n.WBranch? && KidsMapped(L, f, kids, n, {}, live) && |empty| <= |n.empty|
    ensures KidsHeld(kids, live)
    ensures WDetermined(n) ==> Deterministic(empty, kids)
  {
    hide AllBelow, MapUnder, WNormal;
    if WDetermined(n) {
      forall t | t in n.children ensures forall c :: c in n.children[t].nodes ==> WDetermined(c) {
        assert AltsAt(n.children, t) == n.children[t].nodes;
      }
    }
  }

  lemma BranchMapped<S(!new), W(!new), V(!new)>(L: Lattice<V>, f: W -> Option<V>, n: WNode<S, W>, empty: seq<V>,
                                                kids: WChildren<S, V>, r: WNode<S, V>, live: set<WNode<S, V>>)
    requires n.WBranch? && KidsMapped(L, f, kids, n, {}, live) && KidsHeld(kids, live)
    requires forall u :: BoundsAll(L, empty, u) <==> MapUnder(L, f, n.empty, u)
    requires IsBranchOf(r, empty, kids)
    ensures IsMapped(L, f, r, n)
  {
    forall s, u ensures Below(L, r, s, u) <==> MapUnder(L, f, PathWeights(n, s), u) {
      if s == [] {
        assert BoundsAll(L, empty, u) <==> MapUnder(L, f, n.empty, u);
      } else {
        LiveAlternatives(L, r, empty, kids, live, s, u);
        BranchMappedAt(L, f, n, kids, live, s, u);
      }
    }
  }

  lemma BranchMappedAt<S(!new), W(!new), V(!new)>(L: Lattice<V>, f: W -> Option<V>, n: WNode<S, W>, kids: WChildren<S, V>,
                                                  live: set<WNode<S, V>>, s: seq<S>, u: Option<V>)
    requires n.WBranch? && KidsMapped(L, f, kids, n, {}, live) && s != []
    ensures AllBelow(L, AltsAt(kids, s[0]), s[1..], u) <==> MapUnder(L, f, PathWeights(n, s), u)
  {
    if s[0] in n.children {
      assert PathWeights(n, s) == PathWeightsAll(n.children[s[0]].nodes, s[1..]);
      hide PathWeights, PathWeightsAll, Below;
      assert AltsMapped(L, f, AltsAt(kids, s[0]), n.children[s[0]].nodes, live);
    } else {
      assert AltsAt(kids, s[0]) == [];
    }
  }

  // ----- what has been visited

  /** The alternatives outside `todo` are visited, and only nodes below `n` have been added. */
  ghost predicate KidsVisited<S(!new), W(!new)>(n: WNode<S, W>, todo: set<S>, before: set<WNode<S, W>>, visited: set<WNode<S, W>>)
    requires n.WBranch?
  {
    && before <= visited <= before + Reach(n) && n !in visited
    && forall t, c {:trigger c in AltsAt(n.children, t)} :: c in AltsAt(n.children, t) && t !in todo ==> c in visited
  }

  lemma KidsVisitedStart<S(!new), W(!new)>(n: WNode<S, W>, visited: set<WNode<S, W>>)
    requires n.WBranch? && n !in visited
    ensures KidsVisited(n, n.children.Keys, visited, visited)
  {
  }

  /** Beside them, the first `i` alternatives of one more symbol. */
  ghost predicate AltsVisited<S(!new), W(!new)>(n: WNode<S, W>, todo: set<S>, alts: seq<WNode<S, W>>, i: nat,
                                                before: set<WNode<S, W>>, visited: set<WNode<S, W>>) {
    && n.WBranch? && i <= |alts| && KidsVisited(n, todo, before, visited)
    && forall j {:trigger alts[j]} :: 0 <= j < i ==> alts[j] in visited
  }

  lemma AltVisited<S(!new), W(!new)>(n: WNode<S, W>, todo: set<S>, top: S, alts: seq<WNode<S, W>>, i: nat,
                                     before: set<WNode<S, W>>, visited: set<WNode<S, W>>)
    requires AltsVisited(n, todo, alts, i, before, visited) && i < |alts|
    requires top in n.children && alts == n.children[top].nodes && n !in Reach(alts[i])
    ensures AltsVisited(n, todo, alts, i + 1, before, visited + Reach(alts[i]))
  {
    assert alts[i] in AltsAt(n.children, top);
    KidReach(n, alts[i]);
    ReachSelf(alts[i]);
    hide Reach;
  }

  lemma KidVisited<S(!new), W(!new)>(n: WNode<S, W>, todo: set<S>, top: S, alts: seq<WNode<S, W>>, before: set<WNode<S, W>>,
                                     visited: set<WNode<S, W>>)
    requires AltsVisited(n, todo, alts, |alts|, before, visited) && top in n.children && alts == n.children[top].nodes
    ensures KidsVisited(n, todo - {top}, before, visited)
  {
    hide Reach;
    assert AltsAt(n.children, top) == alts;
  }

  lemma KidsVisitedEnd<S(!new), W(!new)>(n: WNode<S, W>, before: set<WNode<S, W>>, visited: set<WNode<S, W>>)
    requires n.WBranch? && KidsVisited(n, {}, before, visited) && Closed(visited)
    ensures visited + {n} == before + Reach(n) && n !in visited
    ensures forall c :: IsKid(c, n) ==> c in visited
  {
    ReachSelf(n);
    assert Closed(visited + {n});
    ReachWithin(n, visited + {n});
  }

  lemma OneKid<S(!new), W(!new)>(n: WNode<S, W>, top: S, i: nat, h: set<WNode<S, W>>)
    requires n.WBranch? && WNormal(n) && Closed(h) && n in h && top in n.children && i < |n.children[top].nodes|
    ensures var child := n.children[top].nodes[i];
            child in h && WNormal(child) && n !in Reach(child) && (n decreases to child)
  {
    var child := n.children[top].nodes[i];
    assert child in AltsAt(n.children, top);
    assert IsKid(child, n);
    KidBelow(n, child);
  }

  /** Everything visited has been transformed, asking `f` once per region of each node. */
  ghost predicate Mapping<S(!new), W(!new), V(!new)>(L: Lattice<V>, f: W -> Option<V>, h: set<WNode<S, W>>,
                                                     held: set<WNode<S, V>>, visited: set<WNode<S, W>>,
                                                     memo: map<nat, WNode<S, V>>, calls: seq<W>) {
    && Heap(h) && visited <= h && Closed(visited) && memo.Keys == Addrs(visited)
    && MemoMapped(L, f, memo, visited)
    && Closed(held) && Heap(held + MemoLive(memo))
    && multiset(calls) == Total(visited)
  }

  lemma Remembered<S(!new), W(!new), V(!new)>(L: Lattice<V>, f: W -> Option<V>, h: set<WNode<S, W>>,
                                              held: set<WNode<S, V>>, visited: set<WNode<S, W>>,
                                              memo: map<nat, WNode<S, V>>, calls: seq<W>,
                                              n: WNode<S, W>, r: WNode<S, V>, asked: seq<W>)
    requires Mapping(L, f, h, held, visited, memo, calls) && n in h && n !in visited
    requires forall c :: IsKid(c, n) ==> c in visited
    requires IsImage(L, f, r, n) && FitsIn(held + MemoLive(memo), r)
    requires multiset(asked) == multiset(OwnWeights(n))
    ensures Mapping(L, f, h, held, visited + {n}, memo[n.addr := r], calls + asked)
    ensures MemoKept(memo, memo[n.addr := r])
  {
    hide IsImage, Reach, Total, MemoLive, Heap, FitsIn;
    RememberSeen(h, visited, n);
    hide MemoMapped, Addrs;
    RememberCalls(visited, calls, n, asked);
    RememberLive(held, memo, n.addr, r);
    assert memo[n.addr := r].Keys == memo.Keys + {n.addr};
  }

  lemma RememberSeen<S(!new), W(!new)>(h: set<WNode<S, W>>, visited: set<WNode<S, W>>, n: WNode<S, W>)
    requires Heap(h) && visited <= h && Closed(visited) && n in h && n !in visited
    requires forall c :: IsKid(c, n) ==> c in visited
    ensures visited + {n} <= h && Closed(visited + {n})
    ensures n.addr !in Addrs(visited) && Addrs(visited + {n}) == Addrs(visited) + {n.addr}
  {
    SeenAddr(h, visited, n);
    hide Addrs;
    forall m, c | m in visited + {n} && IsKid(c, m) ensures c in visited + {n} {
    }
  }

  lemma RememberCalls<S(!new), W(!new)>(visited: set<WNode<S, W>>, calls: seq<W>, n: WNode<S, W>, asked: seq<W>)
    requires multiset(calls) == Total(visited) && n !in visited && multiset(asked) == multiset(OwnWeights(n))
    ensures multiset(calls + asked) == Total(visited + {n})
  {
    TotalAdd(visited, n);
  }

  lemma RememberLive<S(!new), V(!new)>(held: set<WNode<S, V>>, memo: map<nat, WNode<S, V>>, a: nat, r: WNode<S, V>)
    requires a !in memo && FitsIn(held + MemoLive(memo), r)
    ensures Heap(held + MemoLive(memo[a := r]))
  {
    MemoLiveMore(memo, a, r);
    assert held + MemoLive(memo) + Reach(r) == held + MemoLive(memo[a := r]);
  }

  lemma NextVisited<S(!new), W(!new)>(n: WNode<S, W>, before: set<WNode<S, W>>, visited: set<WNode<S, W>>)
    requires n.WSegment? && n !in before && visited == before + Reach(n.next)
    ensures visited + {n} == before + Reach(n) && n !in visited
    ensures n.next in visited && forall c :: IsKid(c, n) ==> c in visited
  {
    assert IsKid(n.next, n);
    KidBelow(n, n.next);
    ReachSelf(n.next);
  }

  lemma LiveHeap<S(!new), W(!new), V(!new)>(L: Lattice<V>, f: W -> Option<V>, h: set<WNode<S, W>>,
                                            held: set<WNode<S, V>>, visited: set<WNode<S, W>>,
                                            memo: map<nat, WNode<S, V>>, calls: seq<W>)
    requires Mapping(L, f, h, held, visited, memo, calls)
    ensures Closed(held) && Heap(held + MemoLive(memo))
  {
  }

  lemma FewEmpties<S(!new), W(!new)>(n: WNode<S, W>)
    requires n.WBranch? && WNormal(n)
    ensures |n.empty| <= MAX && OwnWeights(n) == n.empty
  {
  }

  lemma SegmentKid<S(!new), W(!new), V(!new)>(L: Lattice<V>, f: W -> Option<V>, n: WNode<S, W>, h: set<WNode<S, W>>,
                                              held: set<WNode<S, V>>, visited: set<WNode<S, W>>,
                                              memo: map<nat, WNode<S, V>>, calls: seq<W>)
    requires Mapping(L, f, h, held, visited, memo, calls) && n in h && WNormal(n) && n.WSegment?
    ensures n.next in h && WNormal(n.next) && OwnWeights(n) == []
  {
    assert IsKid(n.next, n);
  }

  lemma Lookup<S(!new), W(!new), V(!new)>(L: Lattice<V>, f: W -> Option<V>, h: set<WNode<S, W>>,
                                          held: set<WNode<S, V>>, visited: set<WNode<S, W>>,
                                          memo: map<nat, WNode<S, V>>, calls: seq<W>, n: WNode<S, W>)
    requires Mapping(L, f, h, held, visited, memo, calls) && n in visited
    ensures n.addr in memo && IsImage(L, f, memo[n.addr], n)
    ensures WNormal(memo[n.addr]) && memo[n.addr] in MemoLive(memo) && Closed(held) && Heap(held + MemoLive(memo))
  {
    MemoLiveClosed(memo);
  }

  class WeightMapper<S(==, !new), W(==, !new), V(==, !new)> {
    ghost const L: Lattice<V>
    const f: W -> Option<V>
    var memo: map<nat, WNode<S, V>>
    var calls: seq<W>
    ghost var visited: set<WNode<S, W>>

    ghost predicate Valid(h: set<WNode<S, W>>, held: set<WNode<S, V>>)
      reads this
    {
      Mapping(L, f, h, held, visited, memo, calls)
    }

    constructor (ghost L: Lattice<V>, f: W -> Option<V>, ghost h: set<WNode<S, W>>, ghost held: set<WNode<S, V>>)
      requires Heap(h) && Heap(held)
      ensures Valid(h, held) && visited == {} && this.L == L && this.f == f && memo == map[]
    {
      this.L := L;
      this.f := f;
      memo := map[];
      calls := [];
      visited := {};
      new;
      assert held + MemoLive(memo) == held;
    }

    /** The image of `n`: remembered by address, or built from the images of its children. */
    method MapNode(n: WNode<S, W>, ghost h: set<WNode<S, W>>, held: set<WNode<S, V>>) returns (r: WNode<S, V>)
      requires Valid(h, held) && n in h && WNormal(n)
      modifies this
      ensures Valid(h, held) && visited == old(visited) + Reach(n) && MemoKept(old(memo), memo)
      ensures n.addr in memo && r == memo[n.addr]
      decreases n, 4
    {
      hide WNormal, IsImage, Total, Reach, MemoLive;
      SeenAddr(h, visited, n);
      if n.addr in memo {
        ReachWithin(n, visited);
        assert visited + Reach(n) == visited;
        return memo[n.addr];
      }
      match n
      case WShared(_, _, _, _, _) =>
        r := MapShared(n, h, held);
      case WSegment(_, _, _, _, _) =>
        r := MapSegment(n, h, held);
      case WBranch(_, _, _, _, _) =>
        r := MapBranch(n, h, held);
    }

    /** Enter the image of a node whose children are all done. */
    method Remember(n: WNode<S, W>, r: WNode<S, V>, asked: seq<W>,
                    ghost h: set<WNode<S, W>>, ghost held: set<WNode<S, V>>)
      requires Valid(h, held) && n in h && n !in visited
      requires forall c :: IsKid(c, n) ==> c in visited
      requires IsImage(L, f, r, n) && FitsIn(held + MemoLive(memo), r)
      requires multiset(asked) == multiset(OwnWeights(n))
      modifies this
      ensures Valid(h, held) && visited == old(visited) + {n} && MemoKept(old(memo), memo)
      ensures n.addr in memo && r == memo[n.addr]
    {
      hide Mapping, IsImage, FitsIn;
      Remembered(L, f, h, held, visited, memo, calls, n, r, asked);
      memo := memo[n.addr := r];
      calls := calls + asked;
      visited := visited + {n};
    }

    method MapShared(n: WNode<S, W>, ghost h: set<WNode<S, W>>, held: set<WNode<S, V>>) returns (r: WNode<S, V>)
      requires Valid(h, held) && n in h && WNormal(n) && n.WShared? && n !in visited
      modifies this
      ensures Valid(h, held) && visited == old(visited) + Reach(n) && MemoKept(old(memo), memo)
      ensures n.addr in memo && r == memo[n.addr]
      decreases n, 1
    {
      var v := f(n.weight);
      if v.Some? {
        r := WSharedOf(L, v.value, n.stacks, held + MemoLive(memo));
      } else {
        r := WEmpty(held + MemoLive(memo));
        EmptyBelow(L, r);
      }
      SharedMapped(L, f, n, r);
      hide WNormal, WDetermined, IsMapped, Total;
      Remember(n, r, [n.weight], h, held);
    }

    method MapSegment(n: WNode<S, W>, ghost h: set<WNode<S, W>>, held: set<WNode<S, V>>) returns (r: WNode<S, V>)
      requires Valid(h, held) && n in h && WNormal(n) && n.WSegment? && n !in visited
      modifies this
      ensures Valid(h, held) && visited == old(visited) + Reach(n) && MemoKept(old(memo), memo)
      ensures n.addr in memo && r == memo[n.addr]
      decreases n, 1
    {
      hide WNormal, WDetermined, IsImage, MemoLive, IsPrefixed, Reach, Mapping, FitsIn, Heap, OwnWeights, IsKid;
      SegmentKid(L, f, n, h, held, visited, memo, calls);
      var next := MapNode(n.next, h, held);
      NextVisited(n, old(visited), visited);
      Lookup(L, f, h, held, visited, memo, calls, n.next);
      r := WSegmentOf(L, n.values, next, held + MemoLive(memo));
      SegmentImage(L, f, n, next, r);
      Remember(n, r, [], h, held);
    }

    method MapBranch(n: WNode<S, W>, ghost h: set<WNode<S, W>>, held: set<WNode<S, V>>) returns (r: WNode<S, V>)
      requires Valid(h, held) && n in h && WNormal(n) && n.WBranch? && n !in visited
      modifies this
      ensures Valid(h, held) && visited == old(visited) + Reach(n) && MemoKept(old(memo), memo)
      ensures n.addr in memo && r == memo[n.addr]
      decreases n, 3
    {
      hide WNormal, WDetermined, IsMapped, MemoLive, Reach, Mapping, FitsIn, Heap, OwnWeights, IsKid, KidsMapped, MapUnder,
        BoundsAll, IsBranchOf, KidsHeld, WCached, Deterministic;
      FewEmpties(n);
      var empty := MapEmpties(L, f, n.empty);
      var kids := MapKids(n, h, held);
      LiveHeap(L, f, h, held, visited, memo, calls);
      KidsLive(L, f, n, empty, kids, held + MemoLive(memo));
      r := WBranchOf(empty, kids, held + MemoLive(memo));
      BranchMapped(L, f, n, empty, kids, r, held + MemoLive(memo));
      Remember(n, r, n.empty, h, held);
    }

    /** Transform the alternatives symbol by symbol, dropping images that became empty. */
    method MapKids(n: WNode<S, W>, ghost h: set<WNode<S, W>>, held: set<WNode<S, V>>) returns (kids: WChildren<S, V>)
      requires Valid(h, held) && n in h && WNormal(n) && n.WBranch? && n !in visited
      modifies this
      ensures Valid(h, held) && visited + {n} == old(visited) + Reach(n) && n !in visited && MemoKept(old(memo), memo)
      ensures forall c :: IsKid(c, n) ==> c in visited
      ensures KidsMapped(L, f, kids, n, {}, held + MemoLive(memo))
      decreases n, 2
    {
      hide WNormal, IsImage, Total, MemoLive, KidsMapped, KidsVisited, Reach;
      kids := map[];
      var todo := n.children.Keys;
      NoKidsMapped(L, f, kids, n, held + MemoLive(memo));
      KidsVisitedStart(n, visited);
      while todo != {}
        invariant todo <= n.children.Keys
        invariant Valid(h, held) && MemoKept(old(memo), memo)
        invariant KidsVisited(n, todo, old(visited), visited)
        invariant KidsMapped(L, f, kids, n, todo, held + MemoLive(memo))
        decreases |todo|
      {
        var top :| top in todo;
        kids := MapKid(n, top, kids, todo, h, held, old(visited));
        todo := todo - {top};
      }
      KidsVisitedEnd(n, old(visited), visited);
    }

    /** One symbol of a branch: it keeps the images of its alternatives, if any are left. */
    method MapKid(n: WNode<S, W>, top: S, kids: WChildren<S, V>, ghost todo: set<S>, ghost h: set<WNode<S, W>>,
                  held: set<WNode<S, V>>, ghost before: set<WNode<S, W>>) returns (more: WChildren<S, V>)
      requires Valid(h, held) && n in h && WNormal(n) && n.WBranch? && top in todo && todo <= n.children.Keys
      requires KidsVisited(n, todo, before, visited)
      requires KidsMapped(L, f, kids, n, todo, held + MemoLive(memo))
      modifies this
      ensures Valid(h, held) && MemoKept(old(memo), memo)
      ensures KidsVisited(n, todo - {top}, before, visited)
      ensures KidsMapped(L, f, more, n, todo - {top}, held + MemoLive(memo))
      decreases n, 1
    {
      hide WNormal, IsImage, Mapping, MemoLive, KidsMapped, AltsMapped, KidsVisited, Reach, MemoKept;
      var images := MapAlternatives(n, top, todo, h, held, before);
      KidVisited(n, todo, top, n.children[top].nodes, before, visited);
      KidsKept(L, f, kids, n, todo, old(memo), memo, held);
      KidDone(L, f, kids, n, todo, top, images, held + MemoLive(memo));
      more := if images == [] then kids else PutAlts(kids, top, images);
    }

    /** The images of all alternatives of a symbol, without the empty ones. */
    method MapAlternatives(n: WNode<S, W>, top: S, ghost todo: set<S>, ghost h: set<WNode<S, W>>, held: set<WNode<S, V>>,
                           ghost before: set<WNode<S, W>>) returns (images: seq<WNode<S, V>>)
      requires Valid(h, held) && n in h && WNormal(n) && n.WBranch? && top in n.children
      requires KidsVisited(n, todo, before, visited)
      modifies this
      ensures Valid(h, held) && MemoKept(old(memo), memo)
      ensures AltsVisited(n, todo, n.children[top].nodes, |n.children[top].nodes|, before, visited)
      ensures AltsMapped(L, f, images, n.children[top].nodes, held + MemoLive(memo))
      decreases n, 0
    {
      hide WNormal, IsImage, MemoLive, AltsMapped, KidsVisited, Reach, Total, Addrs, MemoMapped;
      images := [];
      var alts := n.children[top].nodes;
      NoneMapped(L, f, alts[..0], held + MemoLive(memo));
      for i := 0 to |alts|
        invariant Valid(h, held) && MemoKept(old(memo), memo)
        invariant AltsVisited(n, todo, alts, i, before, visited)
        invariant AltsMapped(L, f, images, alts[..i], held + MemoLive(memo))
      {
        OneKid(n, top, i, h);
        ghost var memo0, visited0 := memo, visited;
        var image := MapNode(alts[i], h, held);
        AltVisited(n, todo, top, alts, i, before, visited0);
        ReachSelf(alts[i]);
        Lookup(L, f, h, held, visited, memo, calls, alts[i]);
        MemoLiveGrows(memo0, memo);
        AltsKept(L, f, images, alts[..i], held + MemoLive(memo0), held + MemoLive(memo));
        MoreMapped(L, f, images, alts[..i], held + MemoLive(memo), alts[i], image);
        assert alts[..i + 1] == alts[..i] + [alts[i]];
        if !WIsEmpty(image) {
          images := images + [image];
        }
      }
      assert alts[..|alts|] == alts;
    }
  }

  /** Discard or transform every stored region of a graph, sharing what it shared. On a determined
      graph every transform commutes with meaning; on any graph a join-preserving one does. */
  method FilterMap<S(!new), W(!new), V(!new)>(ghost LW: Lattice<W>, ghost LV: Lattice<V>, n: WNode<S, W>,
                                              f: W -> Option<V>, held: set<WNode<S, V>>)
    returns (r: WNode<S, V>, calls: seq<W>)
    requires Laws(LV) && WNormal(n) && Heap(Reach(n)) && Heap(held)
    ensures FitsIn(held, r) && IsImage(LV, f, r, n)
    ensures WDetermined(n) || PreservesJoins(LW, LV, f) ==> Commutes(LW, LV, f, r, n)
    ensures multiset(calls) == Total(Reach(n)) && EachPlaceOnce(multiset(calls), Reach(n))
  {
    hide WNormal, WDetermined, IsMapped, Den, Reach, FitsIn, MemoLive, PreservesJoins, EachPlaceOnce;
    ReachSelf(n);
    var mapper := new WeightMapper<S, W, V>(LV, f, Reach(n), held);
    r := mapper.MapNode(n, Reach(n), held);
    assert mapper.visited == Reach(n);
    calls := mapper.calls;
    Lookup(LV, f, Reach(n), held, mapper.visited, mapper.memo, mapper.calls, n);
    TotalOnce(Reach(n));
    FitsLess2(held, MemoLive(mapper.memo), r);
    forall s | WDetermined(n) || PreservesJoins(LW, LV, f) ensures Den(LV, r, s) == MapOpt(f, Den(LW, n, s)) {
      if WDetermined(n) {
        MappedMeaning(LW, LV, f, r, n, s);
      } else {
        PreservingMeaning(LW, LV, f, r, n, s);
      }
    }
  }

  lemma FitsLess2<S(!new), V(!new)>(held: set<WNode<S, V>>, live: set<WNode<S, V>>, r: WNode<S, V>)
    requires Closed(held) && Heap(held + live) && r in live
    ensures FitsIn(held, r)
  {
    ReachWithin(r, held + live);
    ReachClosed(r);
    HeapSub(held + live, held + Reach(r));
  }
}
