/** What the path counters count: the ways down a graph, as choices and not as sums. */
module Ways {
  import opened Counting
  import opened Tables
  import opened UNodes
  import opened WNodes

  /** One way down: at each branch either its end, the one of the given number, or the
      alternative of the given number under a symbol. Segments leave no choice. */
  datatype Way<S(==)> = Stop(entry: nat) | Through(symbol: S, index: nat, rest: Way<S>)

  // ----- counting choices

  /** The ways through one of the alternatives of some symbols, given the ways on from each. */
  ghost function Onward<S(!new)>(table: map<S, seq<set<Way<S>>>>): set<Way<S>> {
    set t, i, y | t in table && 0 <= i < |table[t]| && y in table[t][i] :: Through(t, i, y)
  }

  ghost function Sizes<S(!new)>(q: seq<set<Way<S>>>): nat {
    if q == [] then 0 else |q[0]| + Sizes(q[1..])
  }

  lemma {:induction false} SizesLast<S(!new)>(q: seq<set<Way<S>>>, last: set<Way<S>>)
    ensures Sizes(q + [last]) == Sizes(q) + |last|
  {
    if q == [] {
      assert q + [last] == [last] && [last][1..] == [];
    } else {
      SizesLast(q[1..], last);
      assert (q + [last])[1..] == q[1..] + [last];
    }
  }

  ghost function AllSizes<S(!new)>(table: map<S, seq<set<Way<S>>>>): map<S, nat> {
    map t | t in table :: Sizes(table[t])
  }

  /** Choices under different symbols, and of different alternatives, are different. */
  lemma {:induction false} OnwardSize<S(!new)>(table: map<S, seq<set<Way<S>>>>)
    ensures |Onward(table)| == Sum(AllSizes(table))
    decreases |table|
  {
    if table == map[] {
      assert Onward(table) == {};
    } else {
      var t :| t in table;
      var rest := table - {t};
      OnwardSize(rest);
      SumRemove(AllSizes(table), t);
      assert AllSizes(table) - {t} == AllSizes(rest);
      UnderSize(t, table[t]);
      OnwardSplit(table, t);
      hide *;
    }
  }

  lemma OnwardSplit<S(!new)>(table: map<S, seq<set<Way<S>>>>, t: S)
    requires t in table
    ensures Onward(table) == Onward(table - {t}) + Onward(map[t := table[t]])
    ensures Onward(table - {t}) !! Onward(map[t := table[t]])
  {
    var rest, only := table - {t}, map[t := table[t]];
    forall y ensures y in Onward(table) <==> y in Onward(rest) || y in Onward(only) {
      assert y in Onward(rest) <==> y.Through? && y.symbol in rest && y.index < |rest[y.symbol]| && y.rest in rest[y.symbol][y.index];
    }
  }

  /** Ways that stop at a branch and ways that go on from it are different. */
  lemma BranchSize<S(!new)>(stops: set<Way<S>>, table: map<S, seq<set<Way<S>>>>, counts: map<S, nat>)
    requires forall y :: y in stops ==> y.Stop?
    requires counts.Keys == table.Keys && forall t :: t in table ==> Sizes(table[t]) == counts[t]
    ensures |stops + Onward(table)| == |stops| + Sum(counts)
  {
    OnwardSize(table);
    assert AllSizes(table) == counts;
    assert stops !! Onward(table);
  }

  lemma {:induction false} UnderSize<S(!new)>(t: S, q: seq<set<Way<S>>>)
    ensures |Onward(map[t := q])| == Sizes(q)
  {
    if q == [] {
      assert Onward(map[t := q]) == {};
    } else {
      var k := |q| - 1;
      assert q == q[..k] + [q[k]];
      SizesLast(q[..k], q[k]);
      UnderSize(t, q[..k]);
      UnderLast(t, q[..k], q[k]);
      EachThrough(t, k, q[k]);
      hide *;
    }
  }

  lemma UnderLast<S(!new)>(t: S, q: seq<set<Way<S>>>, last: set<Way<S>>)
    ensures var added := set y | y in last :: Through(t, |q|, y);
            Onward(map[t := q + [last]]) == Onward(map[t := q]) + added && Onward(map[t := q]) !! added
  {
    var all := q + [last];
    var added := set y | y in last :: Through(t, |q|, y);
    forall y ensures y in Onward(map[t := all]) <==> y in Onward(map[t := q]) || y in added {
      assert y in Onward(map[t := all]) <==> y.Through? && y.symbol == t && y.index < |all| && y.rest in all[y.index];
      assert y in Onward(map[t := q]) <==> y.Through? && y.symbol == t && y.index < |q| && y.rest in q[y.index];
    }
  }

  lemma {:induction false} EachThrough<S(!new)>(t: S, k: nat, ways: set<Way<S>>)
    ensures |set y | y in ways :: Through(t, k, y)| == |ways|
  {
    if ways != {} {
      var y :| y in ways;
      EachThrough(t, k, ways - {y});
      assert (set z | z in ways :: Through(t, k, z))
          == (set z | z in ways - {y} :: Through(t, k, z)) + {Through(t, k, y)};
    }
  }

  // ----- unweighted

  /** `y` is a way down `n`: the choices exist, and the last one is at an end. */
  ghost predicate UWay<S(!new)>(n: UNode<S>, y: Way<S>)
    decreases n
  {
    match n
    case UBranch(empty, children, _, _) =>
      (match y
       case Stop(entry) => empty && entry == 0
       case Through(t, i, rest) => t in children && i < |children[t].nodes| && UWay(children[t].nodes[i], rest))
    case USegment(_, next, _, _) => UWay(next, y)
  }

  /** The stack spelled along a way. */
  ghost function USpelled<S(!new)>(n: UNode<S>, y: Way<S>): seq<S>
    requires UWay(n, y)
    decreases n
  {
    match n
    case UBranch(_, children, _, _) =>
      if y.Stop? then [] else [y.symbol] + USpelled(children[y.symbol].nodes[y.index], y.rest)
    case USegment(values, next, _, _) => values.View() + USpelled(next, y)
  }

  ghost function UWays<S(!new)>(n: UNode<S>): set<Way<S>>
    decreases n, 1
  {
    match n
    case UBranch(empty, children, _, _) =>
      (if empty then {Stop(0)} else {}) + Onward(map t | t in children :: UWaysOf(children[t].nodes))
    case USegment(_, next, _, _) => UWays(next)
  }

  ghost function UWaysOf<S(!new)>(q: seq<UNode<S>>): (r: seq<set<Way<S>>>)
    ensures |r| == |q|
    decreases q, 0
  {
    if q == [] then [] else [UWays(q[0])] + UWaysOf(q[1..])
  }

  lemma {:induction false} UWaysAt<S(!new)>(q: seq<UNode<S>>, i: nat)
    requires i < |q|
    ensures UWaysOf(q)[i] == UWays(q[i])
  {
    if i > 0 {
      UWaysAt(q[1..], i - 1);
    }
  }

  lemma {:induction false} UWaysExact<S(!new)>(n: UNode<S>, y: Way<S>)
    ensures y in UWays(n) <==> UWay(n, y)
    decreases y, n
  {
    match n
    case USegment(_, next, _, _) =>
      UWaysExact(next, y);
    case UBranch(_, children, _, _) =>
      if y.Through? && y.symbol in children && y.index < |children[y.symbol].nodes| {
        UWaysAt(children[y.symbol].nodes, y.index);
        UWaysExact(children[y.symbol].nodes[y.index], y.rest);
      }
  }

  lemma {:induction false} UWaysSize<S(!new)>(n: UNode<S>)
    ensures |UWays(n)| == UCount(n)
    decreases n, 1
  {
    match n
    case USegment(_, next, _, _) =>
      UWaysSize(next);
    case UBranch(empty, children, _, _) =>
      var table := map t | t in children :: UWaysOf(children[t].nodes);
      forall t | t in children ensures Sizes(table[t]) == UCountAll(children[t].nodes) {
        UWaysOfSize(children[t].nodes);
      }
      BranchSize(if empty then {Stop(0)} else {}, table, UCounts(n));
  }

  lemma {:induction false} UWaysOfSize<S(!new)>(q: seq<UNode<S>>)
    ensures Sizes(UWaysOf(q)) == UCountAll(q)
    decreases q, 0
  {
    if q != [] {
      UWaysSize(q[0]);
      UWaysOfSize(q[1..]);
      assert UWaysOf(q)[1..] == UWaysOf(q[1..]);
    }
  }

  /** The count of structural paths is the number of ways down. */
  lemma UCountsWays<S(!new)>(n: UNode<S>) returns (ways: set<Way<S>>)
    ensures forall y :: y in ways <==> UWay(n, y)
    ensures |ways| == UCount(n)
  {
    ways := UWays(n);
    UWaysSize(n);
    forall y ensures y in ways <==> UWay(n, y) {
      UWaysExact(n, y);
    }
  }

  /** The represented stacks are those spelled along the ways down. */
  lemma {:induction false} UHasWay<S(!new)>(n: UNode<S>, s: seq<S>) returns (y: Way<S>)
    requires UHas(n, s)
    ensures UWay(n, y) && USpelled(n, y) == s
    decreases n
  {
    match n
    case USegment(values, next, _, _) =>
      y := UHasWay(next, s[|values.View()|..]);
      assert s == values.View() + s[|values.View()|..];
    case UBranch(_, children, _, _) =>
      if s == [] {
        y := Stop(0);
      } else {
        var c :| c in AltsAt(children, s[0]) && UHas(c, s[1..]);
        var i :| 0 <= i < |children[s[0]].nodes| && children[s[0]].nodes[i] == c;
        var rest := UHasWay(c, s[1..]);
        y := Through(s[0], i, rest);
        assert s == [s[0]] + s[1..];
      }
  }

  lemma {:induction false} UWayHas<S(!new)>(n: UNode<S>, y: Way<S>)
    requires UWay(n, y)
    ensures UHas(n, USpelled(n, y))
    decreases n
  {
    var s := USpelled(n, y);
    match n
    case USegment(values, next, _, _) =>
      UWayHas(next, y);
      assert s[|values.View()|..] == USpelled(next, y);
    case UBranch(_, children, _, _) =>
      if y.Through? {
        var c := children[y.symbol].nodes[y.index];
        UWayHas(c, y.rest);
        assert s[1..] == USpelled(c, y.rest);
        assert c in AltsAt(children, s[0]);
      }
  }

  /** No stack is spelled along two ways. */
  ghost predicate UUnambiguous<S(!new)>(n: UNode<S>) {
    forall y, z {:trigger UWay(n, y), UWay(n, z)} :: UWay(n, y) && UWay(n, z) && USpelled(n, y) == USpelled(n, z) ==> y == z
  }

  /** A table has as many values as keys exactly if none occurs twice. */
  lemma {:induction false} ValuesSize<K, V>(m: map<K, V>)
    ensures |m.Values| <= |m|
    ensures |m.Values| == |m| <==> forall k, j :: k in m && j in m && m[k] == m[j] ==> k == j
  {
    if m == map[] {
      assert m.Values == {};
    } else {
      var k :| k in m;
      var rest := m - {k};
      ValuesSize(rest);
      assert m.Values == rest.Values + {m[k]} by {
        forall v ensures v in m.Values <==> v in rest.Values + {m[k]} {
          if v in m.Values {
            var j :| j in m && m[j] == v;
            assert j == k || rest[j] == v;
          }
          if v in rest.Values {
            var j :| j in rest && rest[j] == v;
            assert m[j] == v;
          }
        }
      }
      if m[k] in rest.Values {
        var j :| j in rest && rest[j] == m[k];
        assert m[j] == m[k];
      } else {
        forall i | i in rest ensures m[i] == rest[i] && m[i] != m[k] {
          assert rest[i] in rest.Values;
        }
      }
    }
  }

  /** The count is the number of represented stacks exactly if none is spelled twice. */
  lemma UCountsStacks<S(!new)>(n: UNode<S>) returns (stacks: set<seq<S>>)
    ensures forall s :: s in stacks <==> UHas(n, s)
    ensures |stacks| <= UCount(n)
    ensures |stacks| == UCount(n) <==> UUnambiguous(n)
  {
    var ways := UCountsWays(n);
    var spelled := map y | y in ways :: USpelled(n, y);
    ValuesSize(spelled);
    assert spelled.Keys == ways;
    stacks := spelled.Values;
    hide UCount;
    forall s ensures s in stacks <==> UHas(n, s) {
      if UHas(n, s) {
        var y := UHasWay(n, s);
        assert spelled[y] == s;
      }
      if s in stacks {
        var y :| y in spelled && spelled[y] == s;
        UWayHas(n, y);
      }
    }
  }

  /** One alternative under each symbol, all the way down. */
  ghost predicate USingle<S(!new)>(n: UNode<S>)
    decreases n
  {
    match n
    case UBranch(_, children, _, _) =>
      && (forall t :: t in children ==> |children[t].nodes| <= 1)
      && (forall t, c {:trigger c in AltsAt(children, t)} :: c in AltsAt(children, t) ==> USingle(c))
    case USegment(_, next, _, _) => USingle(next)
  }

  lemma USingleUnambiguous<S(!new)>(n: UNode<S>)
    requires USingle(n)
    ensures UUnambiguous(n)
  {
    forall y, z | UWay(n, y) && UWay(n, z) && USpelled(n, y) == USpelled(n, z) ensures y == z {
      USameWay(n, y, z);
    }
  }

  lemma {:induction false} USameWay<S(!new)>(n: UNode<S>, y: Way<S>, z: Way<S>)
    requires USingle(n) && UWay(n, y) && UWay(n, z) && USpelled(n, y) == USpelled(n, z)
    ensures y == z
    decreases n
  {
    match n
    case USegment(values, next, _, _) =>
      assert USpelled(n, y)[|values.View()|..] == USpelled(next, y);
      assert USpelled(n, z)[|values.View()|..] == USpelled(next, z);
      USameWay(next, y, z);
    case UBranch(_, children, _, _) =>
      if y.Through? && z.Through? {
        assert USpelled(n, y)[0] == y.symbol && USpelled(n, z)[0] == z.symbol;
        var c := children[y.symbol].nodes[0];
        assert c in AltsAt(children, y.symbol);
        assert USpelled(n, y)[1..] == USpelled(c, y.rest);
        assert USpelled(n, z)[1..] == USpelled(c, z.rest);
        USameWay(c, y.rest, z.rest);
      }
  }

  // ----- weighted

  /** The same for weighted nodes, whose ends are the weights of the empty stack. */
  ghost predicate WWay<S(!new), W(!new)>(n: WNode<S, W>, y: Way<S>)
    decreases n
  {
    match n
    case WBranch(_, empty, children, _, _) =>
      (match y
       case Stop(entry) => entry < |empty|
       case Through(t, i, rest) => t in children && i < |children[t].nodes| && WWay(children[t].nodes[i], rest))
    case WSegment(_, _, next, _, _) => WWay(next, y)
    case WShared(_, _, stacks, _, _) => UWay(stacks, y)
  }

  ghost function WSpelled<S(!new), W(!new)>(n: WNode<S, W>, y: Way<S>): seq<S>
    requires WWay(n, y)
    decreases n
  {
    match n
    case WBranch(_, _, children, _, _) =>
      if y.Stop? then [] else [y.symbol] + WSpelled(children[y.symbol].nodes[y.index], y.rest)
    case WSegment(_, values, next, _, _) => values.View() + WSpelled(next, y)
    case WShared(_, _, stacks, _, _) => USpelled(stacks, y)
  }

  ghost function Stops<S(!new)>(count: nat): (r: set<Way<S>>)
    ensures |r| == count && forall y :: y in r <==> y.Stop? && y.entry < count
  {
    if count == 0 then {} else Stops(count - 1) + {Stop(count - 1)}
  }

  ghost function WWays<S(!new), W(!new)>(n: WNode<S, W>): set<Way<S>>
    decreases n, 1
  {
    match n
    case WBranch(_, empty, children, _, _) =>
      Stops(|empty|) + Onward(map t | t in children :: WWaysOf(children[t].nodes))
    case WSegment(_, _, next, _, _) => WWays(next)
    case WShared(_, _, stacks, _, _) => UWays(stacks)
  }

  ghost function WWaysOf<S(!new), W(!new)>(q: seq<WNode<S, W>>): (r: seq<set<Way<S>>>)
    ensures |r| == |q|
    decreases q, 0
  {
    if q == [] then [] else [WWays(q[0])] + WWaysOf(q[1..])
  }

  lemma {:induction false} WWaysAt<S(!new), W(!new)>(q: seq<WNode<S, W>>, i: nat)
    requires i < |q|
    ensures WWaysOf(q)[i] == WWays(q[i])
  {
    if i > 0 {
      WWaysAt(q[1..], i - 1);
    }
  }

  lemma {:induction false} WWaysExact<S(!new), W(!new)>(n: WNode<S, W>, y: Way<S>)
    ensures y in WWays(n) <==> WWay(n, y)
    decreases y, n
  {
    match n
    case WShared(_, _, stacks, _, _) =>
      UWaysExact(stacks, y);
    case WSegment(_, _, next, _, _) =>
      WWaysExact(next, y);
    case WBranch(_, _, children, _, _) =>
      if y.Through? && y.symbol in children && y.index < |children[y.symbol].nodes| {
        WWaysAt(children[y.symbol].nodes, y.index);
        WWaysExact(children[y.symbol].nodes[y.index], y.rest);
      }
  }

  lemma {:induction false} WWaysSize<S(!new), W(!new)>(n: WNode<S, W>)
    ensures |WWays(n)| == WCount(n)
    decreases n, 1
  {
    match n
    case WShared(_, _, stacks, _, _) =>
      UWaysSize(stacks);
    case WSegment(_, _, next, _, _) =>
      WWaysSize(next);
    case WBranch(_, empty, children, _, _) =>
      var table := map t | t in children :: WWaysOf(children[t].nodes);
      forall t | t in children ensures Sizes(table[t]) == WCountAll(children[t].nodes) {
        WWaysOfSize(children[t].nodes);
      }
      BranchSize(Stops(|empty|), table, WCounts(n));
  }

  lemma {:induction false} WWaysOfSize<S(!new), W(!new)>(q: seq<WNode<S, W>>)
    ensures Sizes(WWaysOf(q)) == WCountAll(q)
    decreases q, 0
  {
    if q != [] {
      WWaysSize(q[0]);
      WWaysOfSize(q[1..]);
      assert WWaysOf(q)[1..] == WWaysOf(q[1..]);
    }
  }

  lemma WCountsWays<S(!new), W(!new)>(n: WNode<S, W>) returns (ways: set<Way<S>>)
    ensures forall y :: y in ways <==> WWay(n, y)
    ensures |ways| == WCount(n)
  {
    ways := WWays(n);
    WWaysSize(n);
    forall y ensures y in ways <==> WWay(n, y) {
      WWaysExact(n, y);
    }
  }

  lemma {:induction false} WHasWay<S(!new), W(!new)>(n: WNode<S, W>, s: seq<S>) returns (y: Way<S>)
    requires WHas(n, s)
    ensures WWay(n, y) && WSpelled(n, y) == s
    decreases n
  {
    match n
    case WShared(_, _, stacks, _, _) =>
      y := UHasWay(stacks, s);
    case WSegment(_, values, next, _, _) =>
      y := WHasWay(next, s[|values.View()|..]);
      assert s == values.View() + s[|values.View()|..];
    case WBranch(_, _, children, _, _) =>
      if s == [] {
        y := Stop(0);
      } else {
        var c :| c in AltsAt(children, s[0]) && WHas(c, s[1..]);
        var i :| 0 <= i < |children[s[0]].nodes| && children[s[0]].nodes[i] == c;
        var rest := WHasWay(c, s[1..]);
        y := Through(s[0], i, rest);
        assert s == [s[0]] + s[1..];
      }
  }

  lemma {:induction false} WWayHas<S(!new), W(!new)>(n: WNode<S, W>, y: Way<S>)
    requires WWay(n, y)
    ensures WHas(n, WSpelled(n, y))
    decreases n
  {
    var s := WSpelled(n, y);
    match n
    case WShared(_, _, stacks, _, _) =>
      UWayHas(stacks, y);
    case WSegment(_, values, next, _, _) =>
      WWayHas(next, y);
      assert s[|values.View()|..] == WSpelled(next, y);
    case WBranch(_, _, children, _, _) =>
      if y.Through? {
        var c := children[y.symbol].nodes[y.index];
        WWayHas(c, y.rest);
        assert s[1..] == WSpelled(c, y.rest);
        assert c in AltsAt(children, s[0]);
      }
  }

  ghost predicate WUnambiguous<S(!new), W(!new)>(n: WNode<S, W>) {
    forall y, z {:trigger WWay(n, y), WWay(n, z)} :: WWay(n, y) && WWay(n, z) && WSpelled(n, y) == WSpelled(n, z) ==> y == z
  }

  /** The count is the number of represented stacks exactly if none is spelled twice. */
  lemma WCountsStacks<S(!new), W(!new)>(n: WNode<S, W>) returns (stacks: set<seq<S>>)
    ensures forall s :: s in stacks <==> WHas(n, s)
    ensures |stacks| <= WCount(n)
    ensures |stacks| == WCount(n) <==> WUnambiguous(n)
  {
    var ways := WCountsWays(n);
    var spelled := map y | y in ways :: WSpelled(n, y);
    ValuesSize(spelled);
    assert spelled.Keys == ways;
    stacks := spelled.Values;
    hide WCount;
    forall s ensures s in stacks <==> WHas(n, s) {
      if WHas(n, s) {
        var y := WHasWay(n, s);
        assert spelled[y] == s;
      }
      if s in stacks {
        var y :| y in spelled && spelled[y] == s;
        WWayHas(n, y);
      }
    }
  }

  /** Every shared region has one alternative under each symbol. */
  ghost predicate WSingle<S(!new), W(!new)>(n: WNode<S, W>)
    decreases n
  {
    match n
    case WBranch(_, _, children, _, _) =>
      forall t, c {:trigger c in AltsAt(children, t)} :: c in AltsAt(children, t) ==> WSingle(c)
    case WSegment(_, _, next, _, _) => WSingle(next)
    case WShared(_, _, stacks, _, _) => USingle(stacks)
  }

  /** On a deterministic graph only the shared regions can spell a stack twice. */
  lemma WSingleUnambiguous<S(!new), W(!new)>(n: WNode<S, W>)
    requires WDetermined(n) && WSingle(n)
    ensures WUnambiguous(n)
  {
    forall y, z | WWay(n, y) && WWay(n, z) && WSpelled(n, y) == WSpelled(n, z) ensures y == z {
      WSameWay(n, y, z);
    }
  }

  lemma {:induction false} WSameWay<S(!new), W(!new)>(n: WNode<S, W>, y: Way<S>, z: Way<S>)
    requires WDetermined(n) && WSingle(n) && WWay(n, y) && WWay(n, z) && WSpelled(n, y) == WSpelled(n, z)
    ensures y == z
    decreases n
  {
    match n
    case WShared(_, _, stacks, _, _) =>
      USameWay(stacks, y, z);
    case WSegment(_, values, next, _, _) =>
      assert WSpelled(n, y)[|values.View()|..] == WSpelled(next, y);
      assert WSpelled(n, z)[|values.View()|..] == WSpelled(next, z);
      WSameWay(next, y, z);
    case WBranch(_, _, children, _, _) =>
      if y.Through? && z.Through? {
        assert WSpelled(n, y)[0] == y.symbol && WSpelled(n, z)[0] == z.symbol;
        var c := children[y.symbol].nodes[0];
        assert c in AltsAt(children, y.symbol);
        assert WSpelled(n, y)[1..] == WSpelled(c, y.rest);
        assert WSpelled(n, z)[1..] == WSpelled(c, z.rest);
        WSameWay(c, y.rest, z.rest);
      }
  }

  // ----- the stored counters

  /** The stored counters are exact below 2^64, and stick at the largest machine word from there on. */
  lemma UStoredPaths<S(!new)>(n: UNode<S>) returns (ways: set<Way<S>>)
    requires UWf(n)
    ensures forall y :: y in ways <==> UWay(n, y)
    ensures n.paths == if |ways| < 0x1_0000_0000_0000_0000 then |ways| else 0xFFFF_FFFF_FFFF_FFFF
  {
    ways := UCountsWays(n);
  }

  lemma WStoredPaths<S(!new), W(!new)>(n: WNode<S, W>) returns (ways: set<Way<S>>)
    requires WNormal(n)
    ensures forall y :: y in ways <==> WWay(n, y)
    ensures n.paths == if |ways| < 0x1_0000_0000_0000_0000 then |ways| else 0xFFFF_FFFF_FFFF_FFFF
  {
    NormalCached(n);
    ways := WCountsWays(n);
  }
}
