/** The explicit stack-to-weight map, and that every graph operation does to a meaning what it does to the map. */
module Model {
  import opened Weights
  import opened Segments
  import opened WNodes
  import opened WOps
  import opened Meaning
  import opened Construct
  import opened MapWeights
  import opened WeightRegions
  import opened Materialize

  type Explicit<S(==), W> = map<seq<S>, W>

  function Look<S(==), W>(m: Explicit<S, W>, k: seq<S>): Option<W> {
    if k in m then Some(m[k]) else None
  }

  /** The graph means exactly the model. */
  ghost predicate Represents<S(!new), W(!new)>(L: Lattice<W>, n: WNode<S, W>, m: Explicit<S, W>) {
    forall s {:trigger Den(L, n, s)} :: Den(L, n, s) == Look(m, Rev(s))
  }

  /** The same in terms of bounds. */
  ghost predicate Bounded<S(!new), W(!new)>(L: Lattice<W>, n: WNode<S, W>, m: Explicit<S, W>) {
    forall s, u {:trigger Below(L, n, s, u)} :: Below(L, n, s, u) <==> OptUnder(L, Look(m, Rev(s)), u)
  }

  lemma RepresentsIff<S(!new), W(!new)>(L: Lattice<W>, n: WNode<S, W>, m: Explicit<S, W>)
    requires Laws(L)
    ensures Represents(L, n, m) <==> Bounded(L, n, m)
  {
    hide Den, Below, Look, Rev;
    forall s ensures Den(L, n, s) == Look(m, Rev(s))
                <==> forall u :: Below(L, n, s, u) <==> OptUnder(L, Look(m, Rev(s)), u) {
      DenBounds(L, n, s);
      if forall u :: Below(L, n, s, u) <==> OptUnder(L, Look(m, Rev(s)), u) {
        SameBounds(L, Den(L, n, s), Look(m, Rev(s)));
      }
    }
  }

  // ----- construction

  function Insert<S(==), W>(L: Lattice<W>, m: Explicit<S, W>, k: seq<S>, w: W): Explicit<S, W> {
    m[k := if k in m then L.join(m[k], w) else w]
  }

  /** Entries of one stack are joined. */
  function Canonical<S(==), W>(L: Lattice<W>, entries: seq<(seq<S>, W)>): Explicit<S, W> {
    if entries == [] then map[]
    else
      var last := entries[|entries| - 1];
      Insert(L, Canonical(L, entries[..|entries| - 1]), last.0, last.1)
  }

  lemma {:induction false} CanonicalBounds<S(!new), W(!new)>(L: Lattice<W>, entries: seq<(seq<S>, W)>, k: seq<S>)
    requires Laws(L)
    ensures forall u :: OptUnder(L, Look(Canonical(L, entries), k), u) <==> AllUnder(L, Listed(entries, k), u)
  {
    if entries != [] {
      var most, last := entries[..|entries| - 1], entries[|entries| - 1];
      CanonicalBounds(L, most, k);
      var m := Canonical(L, most);
      if last.0 == k {
        if k in m {
          UnderJoin(L, m[k], last.1);
        }
        forall u ensures AllUnder(L, Listed(entries, k), u) <==> AllUnder(L, Listed(most, k), u) && Under(L, last.1, u) {
          assert forall w :: w in Listed(entries, k) <==> w in Listed(most, k) || w == last.1;
        }
      } else {
        assert Listed(entries, k) == Listed(most, k);
      }
    }
  }

  lemma FromStacksModel<S(!new), W(!new)>(L: Lattice<W>, r: WNode<S, W>, entries: seq<(seq<S>, W)>)
    requires Laws(L) && MeansListed(L, r, entries)
    ensures Represents(L, r, Canonical(L, entries))
  {
    hide Den, Listed, Canonical, Look;
    forall s ensures Den(L, r, s) == Look(Canonical(L, entries), Rev(s)) {
      RevRev(s);
      var k := Rev(s);
      CanonicalBounds(L, entries, k);
      JoinAllBounds(L, Listed(entries, k));
      SameBounds(L, JoinAll(L, Listed(entries, k)), Look(Canonical(L, entries), k));
      assert Den(L, r, Rev(k)) == JoinAll(L, Listed(entries, k));
    }
  }

  lemma FromStackModel<S(!new), W(!new)>(L: Lattice<W>, r: WNode<S, W>, stack: seq<S>, weight: W)
    requires MeansOne(L, r, stack, weight)
    ensures Represents(L, r, map[stack := weight])
  {
    hide Den;
    forall s ensures Den(L, r, s) == Look(map[stack := weight], Rev(s)) {
      RevRev(s);
      RevRev(stack);
    }
  }

  function Uniform<S(==), W>(stacks: seq<seq<S>>, weight: W): Explicit<S, W> {
    map k | k in stacks :: weight
  }

  lemma UniformModel<S(!new), W(!new)>(L: Lattice<W>, r: WNode<S, W>, stacks: seq<seq<S>>, weight: W)
    requires MeansEach(L, r, stacks, weight)
    ensures Represents(L, r, Uniform(stacks, weight))
  {
    hide Den;
    forall s ensures Den(L, r, s) == Look(Uniform(stacks, weight), Rev(s)) {
      RevRev(s);
      assert Den(L, r, Rev(Rev(s))) == if Rev(s) in stacks then Some(weight) else None;
    }
  }

  lemma EmptyModel<S(!new), W(!new)>(L: Lattice<W>, r: WNode<S, W>)
    requires WWf(r) && r.paths == 0
    ensures Represents(L, r, map[])
  {
    WEmptyIff(r);
    hide Den, WHas;
    forall s ensures Den(L, r, s) == None {
      DenSome(L, r, s);
    }
  }

  // ----- merge

  function Merged<S(==), W>(L: Lattice<W>, a: Explicit<S, W>, b: Explicit<S, W>): Explicit<S, W> {
    map k | k in a.Keys + b.Keys :: JoinOpt(L, Look(a, k), Look(b, k)).value
  }

  lemma MergeModel<S(!new), W(!new)>(L: Lattice<W>, r: WNode<S, W>, a: WNode<S, W>, b: WNode<S, W>,
                                     ma: Explicit<S, W>, mb: Explicit<S, W>)
    requires Laws(L) && IsJoin(L, r, a, b) && Represents(L, a, ma) && Represents(L, b, mb)
    ensures Represents(L, r, Merged(L, ma, mb))
  {
    JoinMeaning(L, r, a, b);
    hide Den, Rev, Below;
    forall s ensures Den(L, r, s) == Look(Merged(L, ma, mb), Rev(s)) {
      assert Den(L, r, s) == JoinOpt(L, Den(L, a, s), Den(L, b, s));
    }
  }

  // ----- push

  function Pushed<S(==), W>(m: Explicit<S, W>, x: S): Explicit<S, W> {
    map k | k in (set j | j in m :: j + [x]) :: m[k[..|k| - 1]]
  }

  lemma PushedAt<S(!new), W(!new)>(m: Explicit<S, W>, x: S, k: seq<S>)
    ensures Look(Pushed(m, x), k) == if k != [] && k[|k| - 1] == x then Look(m, k[..|k| - 1]) else None
  {
    if k != [] && k[|k| - 1] == x {
      assert k == k[..|k| - 1] + [x];
    }
  }

  lemma PushedLook<S(!new), W(!new)>(m: Explicit<S, W>, x: S, s: seq<S>)
    ensures Look(Pushed(m, x), Rev(s)) == if [x] <= s then Look(m, Rev(s[1..])) else None
  {
    var k := Rev(s);
    if s != [] {
      assert k == Rev(s[1..]) + [s[0]];
      assert k[..|k| - 1] == Rev(s[1..]);
      if j :| j in m && j + [x] == k {
        assert j == k[..|k| - 1] && k[|k| - 1] == x;
      }
    }
  }

  lemma PushModel<S(!new), W(!new)>(L: Lattice<W>, r: WNode<S, W>, n: WNode<S, W>, m: Explicit<S, W>, x: S)
    requires Laws(L) && IsPrefixed(L, r, [x], n) && Represents(L, n, m)
    ensures Represents(L, r, Pushed(m, x))
  {
    RepresentsIff(L, n, m);
    RepresentsIff(L, r, Pushed(m, x));
    hide Represents, Below, Pushed;
    forall s, u ensures Below(L, r, s, u) <==> OptUnder(L, Look(Pushed(m, x), Rev(s)), u) {
      PushedLook(m, x, s);
    }
  }

  // ----- pop

  /** The join of the weights of some stacks of the model. */
  ghost function JoinKeys<S, W>(L: Lattice<W>, m: Explicit<S, W>, keys: set<seq<S>>): Option<W>
    requires keys <= m.Keys
  {
    if keys == {} then None
    else
      var k :| k in keys;
      JoinOpt(L, Some(m[k]), JoinKeys(L, m, keys - {k}))
  }

  /** It is their least upper bound, so the order of joining does not matter. */
  lemma {:induction false} JoinKeysBounds<S(!new), W(!new)>(L: Lattice<W>, m: Explicit<S, W>, keys: set<seq<S>>)
    requires Laws(L) && keys <= m.Keys
    ensures forall u :: OptUnder(L, JoinKeys(L, m, keys), u) <==> forall k :: k in keys ==> Under(L, m[k], u)
    ensures keys != {} ==> JoinKeys(L, m, keys).Some?
  {
    if keys != {} {
      var k :| k in keys && JoinKeys(L, m, keys) == JoinOpt(L, Some(m[k]), JoinKeys(L, m, keys - {k}));
      JoinKeysBounds(L, m, keys - {k});
      OptUnderJoin(L, Some(m[k]), JoinKeys(L, m, keys - {k}));
      forall u ensures (forall j :: j in keys ==> Under(L, m[j], u))
                  <==> Under(L, m[k], u) && forall j :: j in keys - {k} ==> Under(L, m[j], u) {
      }
    }
  }

  /** The stacks of `m` that are `k` under `count` more symbols. */
  function Above<S(==), W>(m: Explicit<S, W>, k: seq<S>, count: nat): set<seq<S>> {
    set j | j in m && |j| == |k| + count && k <= j
  }

  /** Shorter stacks vanish; stacks that coincide have their weights joined. */
  ghost function Popped<S(!new), W(!new)>(L: Lattice<W>, m: Explicit<S, W>, count: nat): Explicit<S, W> {
    map k | k in (set j | j in m && |j| >= count :: j[..|j| - count]) && JoinKeys(L, m, Above(m, k, count)).Some? ::
      JoinKeys(L, m, Above(m, k, count)).value
  }

  lemma PoppedLook<S(!new), W(!new)>(L: Lattice<W>, m: Explicit<S, W>, count: nat, k: seq<S>)
    requires Laws(L)
    ensures Look(Popped(L, m, count), k) == JoinKeys(L, m, Above(m, k, count))
  {
    JoinKeysBounds(L, m, Above(m, k, count));
    if Above(m, k, count) != {} {
      var j :| j in Above(m, k, count);
      assert j[..|j| - count] == k;
    }
  }

  lemma PopModel<S(!new), W(!new)>(L: Lattice<W>, r: WNode<S, W>, n: WNode<S, W>, m: Explicit<S, W>, count: nat)
    requires Laws(L) && WIsPop(L, r, n, count) && Represents(L, n, m)
    ensures Represents(L, r, Popped(L, m, count))
  {
    RepresentsIff(L, n, m);
    RepresentsIff(L, r, Popped(L, m, count));
    hide Represents, Below, Popped;
    forall s, u ensures Below(L, r, s, u) <==> OptUnder(L, Look(Popped(L, m, count), Rev(s)), u) {
      PoppedLook(L, m, count, Rev(s));
      JoinKeysBounds(L, m, Above(m, Rev(s), count));
      assert Below(L, r, s, u) <==> BelowPop(L, n, count, s, u);
      PopBounds(L, n, m, count, s, u);
    }
  }

  lemma PopBounds<S(!new), W(!new)>(L: Lattice<W>, n: WNode<S, W>, m: Explicit<S, W>, count: nat, s: seq<S>, u: Option<W>)
    requires Bounded(L, n, m)
    ensures BelowPop(L, n, count, s, u) <==> forall j :: j in Above(m, Rev(s), count) ==> Under(L, m[j], u)
  {
    hide Below, Bounded, Rev;
    var keys := Above(m, Rev(s), count);
    if BelowPop(L, n, count, s, u) {
      forall j | j in keys ensures Under(L, m[j], u) {
        var p := SplitAbove(m, s, count, j);
        assert Below(L, n, p + s, u);
        BoundAt(L, n, m, p + s, u);
      }
    }
    if forall j :: j in keys ==> Under(L, m[j], u) {
      forall p: seq<S> | |p| == count ensures Below(L, n, p + s, u) {
        BoundAt(L, n, m, p + s, u);
        StaysAbove(m, s, p);
      }
    }
  }

  lemma BoundAt<S(!new), W(!new)>(L: Lattice<W>, n: WNode<S, W>, m: Explicit<S, W>, s: seq<S>, u: Option<W>)
    requires Bounded(L, n, m)
    ensures Below(L, n, s, u) <==> (Rev(s) in m ==> Under(L, m[Rev(s)], u))
  {
    hide Below, Rev;
    assert Below(L, n, s, u) <==> OptUnder(L, Look(m, Rev(s)), u);
  }

  lemma SplitAbove<S(!new), W(!new)>(m: Explicit<S, W>, s: seq<S>, count: nat, j: seq<S>) returns (p: seq<S>)
    requires j in Above(m, Rev(s), count)
    ensures |p| == count && Rev(p + s) == j
  {
    p := Rev(j[|s|..]);
    RevRev(j[|s|..]);
    RevConcat(p, s);
    hide Rev;
    assert j == Rev(s) + j[|s|..];
  }

  lemma StaysAbove<S(!new), W(!new)>(m: Explicit<S, W>, s: seq<S>, p: seq<S>)
    ensures Rev(p + s) in m ==> Rev(p + s) in Above(m, Rev(s), |p|)
  {
    RevConcat(p, s);
    hide Rev;
    assert Rev(s) <= Rev(s) + Rev(p);
  }

  // ----- selection

  predicate HasTop<S(==)>(k: seq<S>, top: S) {
    k != [] && k[|k| - 1] == top
  }

  lemma TopReversed<S>(s: seq<S>, top: S)
    ensures HasTop(Rev(s), top) <==> s != [] && s[0] == top
  {
  }

  function Retained<S(==), W>(m: Explicit<S, W>, top: S): Explicit<S, W> {
    map k | k in m && HasTop(k, top) :: m[k]
  }

  lemma RetainTopModel<S(!new), W(!new)>(L: Lattice<W>, r: WNode<S, W>, n: WNode<S, W>, m: Explicit<S, W>, top: S)
    requires Laws(L) && IsRetained(L, r, n, top) && Represents(L, n, m)
    ensures Represents(L, r, Retained(m, top))
  {
    RepresentsIff(L, n, m);
    RepresentsIff(L, r, Retained(m, top));
    hide Represents, Below;
    forall s, u ensures Below(L, r, s, u) <==> OptUnder(L, Look(Retained(m, top), Rev(s)), u) {
      TopReversed(s, top);
    }
  }

  function Bottom<S(==), W>(m: Explicit<S, W>): Explicit<S, W> {
    if [] in m then map[[] := m[[]]] else map[]
  }

  lemma RetainEmptyModel<S(!new), W(!new)>(L: Lattice<W>, r: WNode<S, W>, n: WNode<S, W>, m: Explicit<S, W>)
    requires Laws(L) && IsBottom(L, r, n) && Represents(L, n, m)
    ensures Represents(L, r, Bottom(m))
  {
    RepresentsIff(L, n, m);
    RepresentsIff(L, r, Bottom(m));
    hide Represents, Below;
    forall s, u ensures Below(L, r, s, u) <==> OptUnder(L, Look(Bottom(m), Rev(s)), u) {
      assert Rev(s) == [] <==> s == [];
    }
  }

  function UnderTop<S(==), W>(m: Explicit<S, W>, top: S): Explicit<S, W> {
    map k | k in (set j | j in m && HasTop(j, top) :: j[..|j| - 1]) && k + [top] in m :: m[k + [top]]
  }

  lemma UnderTopLook<S(!new), W(!new)>(m: Explicit<S, W>, top: S, s: seq<S>)
    ensures Look(UnderTop(m, top), Rev(s)) == Look(m, Rev([top] + s))
  {
    RevConcat([top], s);
    assert Rev([top]) == [top];
    var k := Rev(s);
    if k + [top] in m {
      assert HasTop(k + [top], top) && (k + [top])[..|k + [top]| - 1] == k;
    }
  }

  lemma PopTopModel<S(!new), W(!new)>(L: Lattice<W>, r: WNode<S, W>, n: WNode<S, W>, m: Explicit<S, W>, top: S)
    requires Laws(L) && IsUnder(L, r, n, top) && Represents(L, n, m)
    ensures Represents(L, r, UnderTop(m, top))
  {
    RepresentsIff(L, n, m);
    RepresentsIff(L, r, UnderTop(m, top));
    hide Represents, Below, UnderTop;
    forall s, u ensures Below(L, r, s, u) <==> OptUnder(L, Look(UnderTop(m, top), Rev(s)), u) {
      UnderTopLook(m, top, s);
      assert Below(L, r, s, u) <==> Below(L, n, [top] + s, u);
    }
  }

  /** Popping a top is keeping what it tops and popping once. */
  lemma PopTopIsRetainPop<S(!new), W(!new)>(L: Lattice<W>, m: Explicit<S, W>, top: S)
    requires Laws(L)
    ensures UnderTop(m, top) == Popped(L, Retained(m, top), 1)
  {
    var kept := Retained(m, top);
    forall k ensures Look(UnderTop(m, top), k) == Look(Popped(L, kept, 1), k) {
      PoppedLook(L, kept, 1, k);
      RevRev(k);
      UnderTopLook(m, top, Rev(k));
      RevConcat([top], Rev(k));
      assert Rev([top]) == [top];
      OneAbove(L, m, top, k);
    }
    SameLook(UnderTop(m, top), Popped(L, kept, 1));
  }

  lemma SameLook<S(!new), W(!new)>(a: Explicit<S, W>, b: Explicit<S, W>)
    requires forall k :: Look(a, k) == Look(b, k)
    ensures a == b
  {
    forall k ensures k in a <==> k in b {
      assert Look(a, k) == Look(b, k);
    }
    forall k | k in a ensures a[k] == b[k] {
      assert Look(a, k) == Look(b, k);
    }
  }

  lemma OneAbove<S(!new), W(!new)>(L: Lattice<W>, m: Explicit<S, W>, top: S, k: seq<S>)
    ensures JoinKeys(L, Retained(m, top), Above(Retained(m, top), k, 1)) == Look(m, k + [top])
  {
    var kept := Retained(m, top);
    forall j | j in Above(kept, k, 1) ensures j == k + [top] {
      assert j == j[..|k|] + [j[|j| - 1]];
    }
    if k + [top] in m {
      assert Above(kept, k, 1) == {k + [top]};
      assert JoinKeys(L, kept, {k + [top]} - {k + [top]}) == None;
    } else {
      assert Above(kept, k, 1) == {};
    }
  }

  // ----- weights

  function Mapped<S(==), W>(m: Explicit<S, W>, f: W -> Option<W>): Explicit<S, W> {
    map k | k in m && f(m[k]).Some? :: f(m[k]).value
  }

  lemma FilterMapModel<S(!new), W(!new)>(L: Lattice<W>, r: WNode<S, W>, n: WNode<S, W>, m: Explicit<S, W>, f: W -> Option<W>)
    requires Represents(L, n, m) && forall s :: Den(L, r, s) == MapOpt(f, Den(L, n, s))
    ensures Represents(L, r, Mapped(m, f))
  {
    hide Den, Rev;
  }

  // ----- observations

  ghost predicate Longest<S(!new), W(!new)>(m: Explicit<S, W>, k: seq<S>) {
    k in m && forall j :: j in m ==> |j| <= |k|
  }

  /** Everything the root of a well-formed graph tells is what the model says. */
  lemma Observed<S(!new), W(!new)>(L: Lattice<W>, n: WNode<S, W>, m: Explicit<S, W>)
    requires WWf(n) && Represents(L, n, m)
    ensures WIsEmpty(n) <==> m == map[]
    ensures WHasEmpty(n) <==> [] in m
    ensures forall t :: t in WTops(n) <==> exists k :: k in m && HasTop(k, t)
    ensures forall t :: WSingleExclusiveTop(n) == Some(t) <==> m != map[] && forall k :: k in m ==> HasTop(k, t)
    ensures m == map[] ==> n.maxDepth == 0
    ensures m != map[] ==> exists k ::
              Longest(m, k) && n.maxDepth == if |k| < 0x1_0000_0000_0000_0000 then |k| else 0xFFFF_FFFF_FFFF_FFFF
  {
    Corresponding(L, n, m);
    hide Represents, Corresponds;
    ObservedEmpty(n, m);
    WHasEmptyExact(n);
    CorrespondsAt(n, m, []);
    assert Rev<S>([]) == [];
    hide WHas, WNormal, WDetermined, WTops, WSingleExclusiveTop;
    forall t ensures t in WTops(n) <==> exists k :: k in m && HasTop(k, t) {
      ObservedTops(n, m, t);
    }
    forall t ensures WSingleExclusiveTop(n) == Some(t) <==> m != map[] && forall k :: k in m ==> HasTop(k, t) {
      ObservedTop(n, m, t);
    }
    ObservedDepth(n, m);
  }

  ghost predicate Corresponds<S(!new), W(!new)>(n: WNode<S, W>, m: Explicit<S, W>) {
    forall s {:trigger WHas(n, s)} :: WHas(n, s) <==> Rev(s) in m
  }

  lemma Corresponding<S(!new), W(!new)>(L: Lattice<W>, n: WNode<S, W>, m: Explicit<S, W>)
    requires Represents(L, n, m)
    ensures Corresponds(n, m)
  {
    hide Den, WHas, Rev;
    forall s ensures WHas(n, s) <==> Rev(s) in m {
      DenSome(L, n, s);
    }
  }

  lemma CorrespondsAt<S(!new), W(!new)>(n: WNode<S, W>, m: Explicit<S, W>, s: seq<S>)
    requires Corresponds(n, m)
    ensures WHas(n, s) <==> Rev(s) in m
  {
  }

  lemma CorrespondsKey<S(!new), W(!new)>(n: WNode<S, W>, m: Explicit<S, W>, k: seq<S>)
    requires Corresponds(n, m)
    ensures k in m <==> WHas(n, Rev(k))
  {
    RevRev(k);
  }

  lemma ObservedEmpty<S(!new), W(!new)>(n: WNode<S, W>, m: Explicit<S, W>)
    requires WWf(n) && Corresponds(n, m)
    ensures WIsEmpty(n) <==> m == map[]
  {
    WEmptyIff(n);
    hide WHas, WNormal, WDetermined, Corresponds, Rev;
    if m != map[] {
      var k :| k in m;
      CorrespondsKey(n, m, k);
    }
    if !WIsEmpty(n) {
      var s :| WHas(n, s);
      CorrespondsAt(n, m, s);
    }
  }

  lemma ObservedTops<S(!new), W(!new)>(n: WNode<S, W>, m: Explicit<S, W>, t: S)
    requires WWf(n) && Corresponds(n, m)
    ensures t in WTops(n) <==> exists k :: k in m && HasTop(k, t)
  {
    WTopsExact(n, t);
    hide WHas, WNormal, WDetermined, WTops, Corresponds, HasTop, Rev;
    if WTopOf(n, t) {
      var s :| WHas(n, s) && s != [] && s[0] == t;
      CorrespondsAt(n, m, s);
      TopReversed(s, t);
    }
    if k :| k in m && HasTop(k, t) {
      CorrespondsKey(n, m, k);
      TopReversed(Rev(k), t);
      RevRev(k);
      assert WTopOf(n, t);
    }
  }

  lemma ObservedTop<S(!new), W(!new)>(n: WNode<S, W>, m: Explicit<S, W>, t: S)
    requires WWf(n) && Corresponds(n, m)
    ensures WSingleExclusiveTop(n) == Some(t) <==> m != map[] && forall k :: k in m ==> HasTop(k, t)
  {
    WSingleExclusiveTopExact(n, t);
    ObservedEmpty(n, m);
    hide WHas, WNormal, WDetermined, WSingleExclusiveTop, Corresponds, HasTop, Rev;
    if forall s :: WHas(n, s) ==> s != [] && s[0] == t {
      forall k | k in m ensures HasTop(k, t) {
        CorrespondsKey(n, m, k);
        TopReversed(Rev(k), t);
        RevRev(k);
      }
    }
    if forall k :: k in m ==> HasTop(k, t) {
      forall s | WHas(n, s) ensures s != [] && s[0] == t {
        CorrespondsAt(n, m, s);
        TopReversed(s, t);
      }
    }
  }

  lemma ObservedDepth<S(!new), W(!new)>(n: WNode<S, W>, m: Explicit<S, W>)
    requires WWf(n) && Corresponds(n, m)
    ensures m == map[] ==> n.maxDepth == 0
    ensures m != map[] ==> exists k ::
              Longest(m, k) && n.maxDepth == if |k| < 0x1_0000_0000_0000_0000 then |k| else 0xFFFF_FFFF_FFFF_FFFF
  {
    assert WCached(n);
    ObservedEmpty(n, m);
    WEmptyIff(n);
    hide WHas, WNormal, WDetermined, WDepth, Corresponds, Rev;
    if m != map[] {
      var s := WLongest(n);
      CorrespondsAt(n, m, s);
      forall k | k in m ensures |k| <= |Rev(s)| {
        CorrespondsKey(n, m, k);
        WWordBounds(n, Rev(k));
      }
      assert Longest(m, Rev(s));
    }
  }

  /** A bounded enumeration returns the whole model, or fails because the model is too large. */
  lemma Enumerated<S(!new), W(!new)>(L: Lattice<W>, n: WNode<S, W>, m: Explicit<S, W>, limit: nat, r: Result<seq<(seq<S>, W)>>)
    requires Represents(L, n, m) && Enumerates(L, n, limit, r)
    ensures r.Ok? <==> |m| <= limit
    ensures r.Ok? ==> |r.value| == |m| && forall k, w :: (k, w) in r.value <==> k in m && m[k] == w
  {
    hide Den;
    forall k ensures Materialize.Represented(n, k) <==> k in m {
      RevRev(k);
      DenSome(L, n, Rev(k));
      assert Den(L, n, Rev(k)) == Look(m, k);
    }
    if r.Ok? {
      var pairs := r.value;
      hide WHas;
      forall i | 0 <= i < |pairs| ensures pairs[i].0 in m && m[pairs[i].0] == pairs[i].1 {
        RevRev(pairs[i].0);
        assert Den(L, n, Rev(pairs[i].0)) == Look(m, pairs[i].0);
      }
      hide Rev, Represents;
      PairsAreModel(pairs, m);
    } else {
      var some :| AllRepresented(n, some) && |some| > limit;
      SubsetSize(some, m.Keys);
    }
  }

  /** The joined weight of a graph is the join of all weights of the model. */
  lemma ObservedJoin<S(!new), W(!new)>(L: Lattice<W>, n: WNode<S, W>, m: Explicit<S, W>, w: Option<W>)
    requires Laws(L) && Represents(L, n, m) && JoinsMeaning(L, w, n)
    ensures w == JoinKeys(L, m, m.Keys)
  {
    hide Den, Rev;
    JoinKeysBounds(L, m, m.Keys);
    forall u ensures OptUnder(L, w, u) <==> forall k :: k in m ==> Under(L, m[k], u) {
      if OptUnder(L, w, u) {
        forall k | k in m ensures Under(L, m[k], u) {
          RevRev(k);
          assert Den(L, n, Rev(k)) == Look(m, k);
        }
      }
      if forall k :: k in m ==> Under(L, m[k], u) {
        forall s ensures OptUnder(L, Den(L, n, s), u) {
          assert Den(L, n, s) == Look(m, Rev(s));
        }
      }
    }
    SameBounds(L, w, JoinKeys(L, m, m.Keys));
  }

  lemma PairsAreModel<S(!new), W(!new)>(pairs: seq<(seq<S>, W)>, m: Explicit<S, W>)
    requires NoRepeats(pairs)
    requires forall i :: 0 <= i < |pairs| ==> pairs[i].0 in m && m[pairs[i].0] == pairs[i].1
    requires forall k :: k in m ==> HasKey(pairs, k)
    ensures |pairs| == |m|
    ensures forall k, w :: (k, w) in pairs <==> k in m && m[k] == w
  {
    KeySetSize(pairs);
    KeySetHas(pairs);
    assert KeySet(pairs) == m.Keys;
    forall k, w | k in m && m[k] == w ensures (k, w) in pairs {
      var i :| 0 <= i < |pairs| && pairs[i].0 == k;
      assert pairs[i] == (k, w);
    }
  }
}
