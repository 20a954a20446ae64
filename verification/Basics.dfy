/** An option type and two facts about finite sets. */
module Basics {
  datatype Option<+T> = None | Some(value: T)

  lemma {:induction false} SubsetSize<T>(a: set<T>, b: set<T>)
    requires a <= b
    ensures |a| <= |b|
  {
    if a != {} {
      var x :| x in a;
      SubsetSize(a - {x}, b - {x});
    }
  }

  /** The numbers below n. */
  ghost function Below(n: nat): (s: set<nat>)
    ensures |s| == n && forall x: nat :: x in s <==> x < n
  {
    if n == 0 then {} else Below(n - 1) + {n - 1}
  }

  /** The elements of a sequence without repetition. */
  lemma {:induction false} DistinctSize<T>(s: seq<T>)
    requires forall i, j :: 0 <= i < j < |s| ==> s[i] != s[j]
    ensures |set x | x in s| == |s|
  {
    var all := set x | x in s;
    if s == [] {
      assert all == {};
    } else {
      DistinctSize(s[1..]);
      var rest := set x | x in s[1..];
      assert s[0] !in rest;
      assert all == rest + {s[0]};
    }
  }
}
