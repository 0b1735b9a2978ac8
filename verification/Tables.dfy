/** Child tables: hash maps from a symbol to its list of alternatives. A table is walked in
    whatever order it happens to yield its symbols, so nothing may depend on that order. */
module Tables {
  import opened Weights

  /** The alternatives stored under one symbol. */
  datatype Alts<+N> = Alts(nodes: seq<N>)

  /** The alternatives under `t`; a symbol the table lacks has none. */
  function AltsAt<S(==), N>(children: map<S, Alts<N>>, t: S): seq<N> {
    if t in children then children[t].nodes else []
  }

  /** All alternatives of all symbols. */
  method Flatten<S(!new), N(!new)>(children: map<S, Alts<N>>) returns (flat: seq<N>)
    ensures forall v :: v in flat <==> exists t :: v in AltsAt(children, t)
  {
    flat := [];
    var todo := children.Keys;
    while todo != {}
      invariant todo <= children.Keys
      invariant forall v :: v in flat <==> exists t :: t !in todo && v in AltsAt(children, t)
      decreases |todo|
    {
      var t :| t in todo;
      flat := flat + children[t].nodes;
      todo := todo - {t};
    }
  }

  function PutAlts<S(!new), N>(r: map<S, Alts<N>>, t: S, nodes: seq<N>): (x: map<S, Alts<N>>)
    ensures x.Keys == r.Keys + {t}
    ensures forall k {:trigger AltsAt(x, k)} :: AltsAt(x, k) == if k == t then nodes else AltsAt(r, k)
  {
    r[t := Alts(nodes)]
  }

  function ExtendOne<S(!new), N(!new)>(r: map<S, Alts<N>>, t: S, more: seq<N>): (x: map<S, Alts<N>>)
    ensures forall k, v {:trigger v in AltsAt(x, k)} ::
      v in AltsAt(x, k) <==> v in AltsAt(r, k) || (k == t && v in more)
  {
    PutAlts(r, t, AltsAt(r, t) + more)
  }

  /** Outside `todo`, `r` holds the alternatives of both tables; inside, those of `a`. */
  ghost predicate Extended<S(!new), N(!new)>(r: map<S, Alts<N>>, a: map<S, Alts<N>>, b: map<S, Alts<N>>, todo: set<S>) {
    forall t, v {:trigger v in AltsAt(r, t)} ::
      v in AltsAt(r, t) <==> v in AltsAt(a, t) || (t !in todo && v in AltsAt(b, t))
  }

  /** Append every alternative of `more` under its symbol. */
  method Extend<S(!new), N(!new)>(children: map<S, Alts<N>>, more: map<S, Alts<N>>) returns (r: map<S, Alts<N>>)
    ensures Extended(r, children, more, {})
  {
    r := children;
    var todo := more.Keys;
    while todo != {}
      invariant todo <= more.Keys
      invariant Extended(r, children, more, todo)
      decreases |todo|
    {
      var t :| t in todo;
      r := ExtendOne(r, t, more[t].nodes);
      todo := todo - {t};
    }
  }

  /** The table holds at least two alternatives. */
  ghost predicate SeveralEntries<S(!new), N>(children: map<S, Alts<N>>) {
    || (exists t :: |AltsAt(children, t)| >= 2)
    || (exists t, u :: t != u && AltsAt(children, t) != [] && AltsAt(children, u) != [])
  }

  /** `c` under `t` is all the table holds. */
  ghost predicate OnlyEntry<S(!new), N>(children: map<S, Alts<N>>, t: S, c: N) {
    forall k {:trigger AltsAt(children, k)} :: AltsAt(children, k) == if k == t then [c] else []
  }

  /** The first entry in iteration order, and whether another one follows. */
  method FirstEntries<S(!new), N(==)>(children: map<S, Alts<N>>) returns (first: Option<(S, N)>, more: bool)
    ensures first.None? ==> forall t {:trigger AltsAt(children, t)} :: AltsAt(children, t) == []
    ensures first.Some? && !more ==> OnlyEntry(children, first.value.0, first.value.1)
    ensures more ==> first.Some? && SeveralEntries(children)
  {
    first, more := None, false;
    var todo := children.Keys;
    while todo != {}
      invariant todo <= children.Keys
      invariant first.None? ==> forall t {:trigger AltsAt(children, t)} :: t !in todo ==> AltsAt(children, t) == []
      invariant first.Some? ==> first.value.0 in children && first.value.0 !in todo && AltsAt(children, first.value.0) != []
      invariant first.Some? && !more ==>
                  forall k {:trigger AltsAt(children, k)} ::
                    k !in todo ==> AltsAt(children, k) == if k == first.value.0 then [first.value.1] else []
      invariant more ==> first.Some? && SeveralEntries(children)
      decreases |todo|
    {
      var t :| t in todo;
      var alts := AltsAt(children, t);
      if alts != [] {
        more := more || first.Some? || |alts| >= 2;
        if first.None? {
          first := Some((t, alts[0]));
        }
      }
      todo := todo - {t};
    }
  }
}
