/** Sums of a natural measure over a sequence. */
module Sums {

  function Sum<T>(f: T -> nat, q: seq<T>): nat {
    if q == [] then 0 else f(q[0]) + Sum(f, q[1..])
  }

  lemma {:induction false} SumConcat<T>(f: T -> nat, a: seq<T>, b: seq<T>)
    ensures Sum(f, a + b) == Sum(f, a) + Sum(f, b)
  {
    if a == [] {
      assert a + b == b;
    } else {
      assert (a + b)[1..] == a[1..] + b;
      SumConcat(f, a[1..], b);
    }
  }

  lemma SumAppend<T>(f: T -> nat, q: seq<T>, x: T)
    ensures Sum(f, q + [x]) == Sum(f, q) + f(x)
  {
    SumConcat(f, q, [x]);
    assert [x][1..] == [];
  }

  lemma {:induction false} SumUpdate<T>(f: T -> nat, q: seq<T>, i: nat, x: T)
    requires i < |q|
    ensures Sum(f, q[i := x]) + f(q[i]) == Sum(f, q) + f(x)
  {
    if i == 0 {
      assert q[0 := x][1..] == q[1..];
    } else {
      assert q[i := x][1..] == q[1..][i - 1 := x];
      SumUpdate(f, q[1..], i - 1, x);
    }
  }

  /** An element that counts makes the sum positive, and only such an element does. */
  lemma {:induction false} SumPositive<T>(f: T -> nat, q: seq<T>)
    ensures Sum(f, q) > 0 <==> exists i :: 0 <= i < |q| && f(q[i]) > 0
  {
    if q != [] {
      SumPositive(f, q[1..]);
      if i :| 0 <= i < |q| && f(q[i]) > 0 {
        assert i > 0 ==> q[1..][i - 1] == q[i];
      }
      if Sum(f, q[1..]) > 0 {
        var i :| 0 <= i < |q[1..]| && f(q[1..][i]) > 0;
        assert q[i + 1] == q[1..][i];
      }
    }
  }
}
