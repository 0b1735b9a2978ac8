/** Sharing of immutable nodes. Two live references may denote one allocation only when
    their contents agree; beyond that nothing is known about which nodes are shared. */
module Pointers {

  /** Pointer equality of two live references: any sharing pattern is possible. */
  method PtrEq<T(==)>(a: T, b: T) returns (same: bool)
    ensures same ==> a == b
  {
    same := *;
    if a != b {
      same := false;
    }
  }

  /** Drop later references to an allocation already kept. */
  method DedupePtr<T(==)>(values: seq<T>) returns (kept: seq<T>)
    ensures forall v :: v in kept <==> v in values
    ensures |kept| <= |values|
  {
    kept := [];
    for i := 0 to |values|
      invariant forall v :: v in kept <==> v in values[..i]
      invariant |kept| <= i
    {
      var seen := false;
      for j := 0 to |kept|
        invariant seen ==> values[i] in kept
      {
        var same := PtrEq(kept[j], values[i]);
        seen := seen || same;
      }
      if !seen {
        kept := kept + [values[i]];
      }
    }
  }
}
