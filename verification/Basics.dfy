/** The two result shapes the model uses where the program returns a null pointer or throws. */
module Basics {

  datatype Option<+T> = None | Some(value: T) {
    function GetOr(default: T): T {
      if Some? then value else default
    }
  }

  /** What an exception raised by the modelled code says. */
  datatype Error =
    | TypeConflict(name: string)
    | UnknownProperty(id: nat)
    | UnsupportedType(index: nat)

  datatype Result<+T> = Ok(value: T) | Err(error: Error)

  function Below(n: nat): (s: set<nat>)
    ensures |s| == n
    ensures forall v: nat :: v in s <==> v < n
  {
    if n == 0 then {} else Below(n - 1) + {n - 1}
  }

  /** A sequence of distinct numbers below `n` that misses none of them has exactly `n` elements. */
  lemma DistinctBelow(s: seq<nat>, n: nat)
    requires forall i, j :: 0 <= i < j < |s| ==> s[i] != s[j]
    requires forall v: nat :: v in s <==> v < n
    ensures |s| == n
  {
    CountDistinct(s);
    assert Elements(s) == Below(n);
  }

  ghost function Elements<T>(s: seq<T>): set<T> {
    set v | v in s
  }

  lemma {:induction false} CountDistinct<T>(s: seq<T>)
    requires forall i, j :: 0 <= i < j < |s| ==> s[i] != s[j]
    ensures |Elements(s)| == |s|
  {
    if s != [] {
      CountDistinct(s[1..]);
      assert s == [s[0]] + s[1..];
      assert Elements(s) == {s[0]} + Elements(s[1..]);
    }
  }
}
