/** Optional values, standing for the source's `None`-able columns and results, and a little arithmetic. */
module Wrappers {
  datatype Option<+T> = None | Some(value: T) {
    function GetOr(default: T): T {
      if Some? then value else default
    }
  }

  function Min(a: real, b: real): real {
    if a <= b then a else b
  }

  function Max(a: real, b: real): real {
    if a >= b then a else b
  }

  function Abs(x: real): real {
    if x < 0.0 then -x else x
  }

  function Sum(xs: seq<real>): real {
    if xs == [] then 0.0 else xs[0] + Sum(xs[1..])
  }

  lemma EmptyOrHasMember<T>(s: set<T>)
    ensures s == {} || exists x :: x in s
  {
    if !exists x :: x in s {
      assert forall x :: x !in s;
    }
  }

  lemma SomeMember<T>(s: set<T>) returns (x: T)
    requires s != {}
    ensures x in s
  {
    EmptyOrHasMember(s);
    x :| x in s;
  }

  lemma QuotientTimes(x: real, y: real)
    requires y != 0.0
    ensures (x / y) * y == x
  {
  }

  lemma QuotientPositive(x: real, y: real)
    requires x > 0.0 && y > 0.0
    ensures x / y > 0.0
  {
    QuotientTimes(x, y);
  }
}
