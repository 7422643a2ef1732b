/** Types and small facts about sequences and finite sets that several components share. */
module Prelude {

  datatype Option<+T> = None | Some(value: T)

  function Min(a: int, b: int): int {
    if a <= b then a else b
  }

  ghost predicate Distinct<T>(s: seq<T>) {
    forall i, j :: 0 <= i < j < |s| ==> s[i] != s[j]
  }

  ghost function Elements<T>(s: seq<T>): set<T> {
    set x | x in s
  }

  lemma EmptyOrMember<T>(s: seq<T>)
    ensures s == [] || exists x :: x in s
  {
    if s != [] {
      assert s[0] in s;
    }
  }

  /** The integers in [0, n). */
  ghost function Range(n: nat): (s: set<int>)
    ensures forall i :: i in s <==> 0 <= i < n
    ensures |s| == n
  {
    if n == 0 then {} else Range(n - 1) + {n - 1}
  }

  lemma {:induction false} SubsetSize<T>(a: set<T>, b: set<T>)
    requires a <= b
    ensures |a| <= |b|
    ensures |a| == |b| ==> a == b
  {
    assert b == a + (b - a);
  }

  lemma {:induction false} DistinctSize<T>(s: seq<T>)
    requires Distinct(s)
    ensures |Elements(s)| == |s|
  {
    if s != [] {
      var t := s[..|s| - 1];
      DistinctSize(t);
      assert s == t + [s[|s| - 1]];
      assert Elements(s) == Elements(t) + {s[|s| - 1]};
    }
  }

  /** A map that is injective on `a` keeps its size. */
  lemma {:induction false} ImageSize<S, T>(a: set<S>, b: set<T>, f: S -> T)
    requires forall x :: x in a ==> f(x) in b
    requires forall y :: y in b ==> exists x :: x in a && f(x) == y
    requires forall x, y :: x in a && y in a && f(x) == f(y) ==> x == y
    ensures |a| == |b|
  {
    if a == {} {
    } else {
      var x :| x in a;
      ImageSize(a - {x}, b - {f(x)}, f);
    }
  }

  /** The elements of a set in the order a Go range loop over a map happens to visit them. */
  method InSomeOrder<T(==)>(s: set<T>) returns (out: seq<T>)
    ensures Distinct(out)
    ensures forall x :: x in out <==> x in s
  {
    out := [];
    var rest := s;
    while rest != {}
      invariant rest <= s
      invariant Distinct(out)
      invariant forall x :: x in out ==> x in s && x !in rest
      invariant forall x :: x in s ==> x in out || x in rest
      decreases rest
    {
      var x :| x in rest;
      out, rest := out + [x], rest - {x};
    }
  }
}
