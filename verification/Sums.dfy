/** Sums of weights over finite sets of ids. */
module Sums {
  type Weights = map<nat, nat>

  ghost function Total(w: Weights, s: set<nat>): nat
    requires s <= w.Keys
  {
    if s == {} then 0
    else
      var x :| x in s;
      w[x] + Total(w, s - {x})
  }

  /** The order of summation does not matter. */
  lemma {:induction false} TotalRemove(w: Weights, s: set<nat>, x: nat)
    requires s <= w.Keys && x in s
    ensures Total(w, s) == w[x] + Total(w, s - {x})
    decreases |s|
  {
    var y :| y in s && Total(w, s) == w[y] + Total(w, s - {y});
    if y != x {
      TotalRemove(w, s - {y}, x);
      TotalRemove(w, s - {x}, y);
      assert s - {y} - {x} == s - {x} - {y};
    }
  }

  lemma TotalAdd(w: Weights, s: set<nat>, x: nat)
    requires s <= w.Keys && x in w && x !in s
    ensures Total(w, s + {x}) == Total(w, s) + w[x]
  {
    TotalRemove(w, s + {x}, x);
    assert s + {x} - {x} == s;
  }

  lemma {:induction false} TotalUnion(w: Weights, a: set<nat>, b: set<nat>)
    requires a <= w.Keys && b <= w.Keys && a !! b
    ensures Total(w, a + b) == Total(w, a) + Total(w, b)
    decreases |a|
  {
    if a == {} {
      assert a + b == b;
    } else {
      var x :| x in a;
      TotalUnion(w, a - {x}, b);
      TotalRemove(w, a, x);
      TotalRemove(w, a + b, x);
      assert a + b - {x} == (a - {x}) + b;
    }
  }

  lemma TotalDifference(w: Weights, a: set<nat>, b: set<nat>)
    requires a <= w.Keys && b <= a
    ensures Total(w, a) == Total(w, a - b) + Total(w, b)
  {
    TotalUnion(w, a - b, b);
    assert a - b + b == a;
  }

  lemma {:induction false} TotalAgree(w: Weights, w': Weights, s: set<nat>)
    requires s <= w.Keys && s <= w'.Keys
    requires forall x <- s :: w[x] == w'[x]
    ensures Total(w, s) == Total(w', s)
    decreases |s|
  {
    if s != {} {
      var x :| x in s;
      TotalRemove(w, s, x);
      TotalRemove(w', s, x);
      TotalAgree(w, w', s - {x});
    }
  }

  lemma {:induction false} TotalZero(w: Weights, s: set<nat>)
    requires s <= w.Keys && forall x <- s :: w[x] == 0
    ensures Total(w, s) == 0
    decreases |s|
  {
    if s != {} {
      var x :| x in s;
      TotalRemove(w, s, x);
      TotalZero(w, s - {x});
    }
  }
}
