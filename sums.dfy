/** Sums of real amounts over finite sets of names, taken in no particular
    order, and the dictionary total that conservation of money is stated with. */
module Sums {

  /** The sum of `g` over `s`, adding the elements in an arbitrary order. */
  ghost function SumOver(s: set<string>, g: string -> real): real
    decreases s
  {
    if s == {} then 0.0 else var x :| x in s; g(x) + SumOver(s - {x}, g)
  }

  /** Any element may be taken out first: the sum does not depend on the order. */
  lemma {:induction false} SumOverRemove(s: set<string>, g: string -> real, y: string)
    requires y in s
    ensures SumOver(s, g) == g(y) + SumOver(s - {y}, g)
    decreases s
  {
    var x :| x in s && SumOver(s, g) == g(x) + SumOver(s - {x}, g);
    if x != y {
      SumOverRemove(s - {x}, g, y);
      SumOverRemove(s - {y}, g, x);
      assert s - {x} - {y} == s - {y} - {x};
    }
  }

  /** Sums of two functions that agree on the set are equal. */
  lemma {:induction false} SumOverCongruent(s: set<string>, g: string -> real, h: string -> real)
    requires forall x :: x in s ==> g(x) == h(x)
    ensures SumOver(s, g) == SumOver(s, h)
    decreases s
  {
    if s != {} {
      var x :| x in s && SumOver(s, g) == g(x) + SumOver(s - {x}, g);
      SumOverRemove(s, h, x);
      SumOverCongruent(s - {x}, g, h);
    }
  }

  /** Reading an amount with Swift's `dict[key, default: 0]`. */
  function Get0(m: map<string, real>, k: string): real
  {
    if k in m then m[k] else 0.0
  }

  function ValueOf(m: map<string, real>): string -> real
  {
    k => Get0(m, k)
  }

  /** The total of all amounts in a dictionary. */
  ghost function Total(m: map<string, real>): real
  {
    SumOver(m.Keys, ValueOf(m))
  }

  /** Overwriting one entry changes the total by the difference, whether or
      not the key was present before. */
  lemma TotalUpdate(m: map<string, real>, k: string, v: real)
    ensures Total(m[k := v]) == Total(m) - Get0(m, k) + v
  {
    var m' := m[k := v];
    SumOverRemove(m'.Keys, ValueOf(m'), k);
    SumOverCongruent(m'.Keys - {k}, ValueOf(m'), ValueOf(m));
    if k in m {
      SumOverRemove(m.Keys, ValueOf(m), k);
      assert m'.Keys - {k} == m.Keys - {k};
    } else {
      assert m'.Keys - {k} == m.Keys;
    }
  }
}
