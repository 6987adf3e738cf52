// Sums over finite sets.
module Sums {
  ghost function Sum<T>(s: set<T>, f: T -> nat): nat {
    if s == {} then 0 else
    var x :| x in s;
    f(x) + Sum(s - {x}, f)
  }

  lemma {:induction false} SumRemove<T>(s: set<T>, x: T, f: T -> nat)
    requires x in s
    ensures Sum(s, f) == f(x) + Sum(s - {x}, f)
  {
    var first :| first in s && Sum(s, f) == f(first) + Sum(s - {first}, f);
    if first != x {
      SumRemove(s - {first}, x, f);
      SumRemove(s - {x}, first, f);
      assert s - {first} - {x} == s - {x} - {first};
    }
  }

  lemma {:induction false} SumOfUnion<T>(a: set<T>, b: set<T>, f: T -> nat)
    requires a !! b
    ensures Sum(a + b, f) == Sum(a, f) + Sum(b, f)
  {
    if a == {} {
      assert a + b == b;
    } else {
      var x :| x in a;
      SumRemove(a, x, f);
      SumRemove(a + b, x, f);
      assert a + b - {x} == (a - {x}) + b;
      SumOfUnion(a - {x}, b, f);
    }
  }

  lemma SumGrows<T>(a: set<T>, b: set<T>, f: T -> nat)
    requires a <= b
    ensures Sum(a, f) <= Sum(b, f)
  {
    SumOfUnion(a, b - a, f);
    assert a + (b - a) == b;
  }
}
