/** Sums of integer-valued functions over finite sets of keys.

    Go visits the entries of a map in an unspecified order. The model sums
    over the key SET, so a value it computes depends on no order at all; the
    lemmas below tie that sum to the sum in any concrete visiting order. */
module Sums {

  /** Some element of a non-empty set. */
  ghost function Pick<T>(keys: set<T>): (k: T)
    requires keys != {}
    ensures k in keys
  {
    var k :| k in keys; k
  }

  /** The sum of `f` over `keys`, in an order Dafny picks (SumRemove shows the pick does not matter). */
  ghost function Sum<T>(keys: set<T>, f: T -> int): int
    decreases keys
  {
    if keys == {} then 0
    else
      var k := Pick(keys);
      f(k) + Sum(keys - {k}, f)
  }

  /** Any key may be taken out first. */
  lemma {:induction false} SumRemove<T>(keys: set<T>, f: T -> int, x: T)
    requires x in keys
    ensures Sum(keys, f) == f(x) + Sum(keys - {x}, f)
    decreases keys
  {
    var k := Pick(keys);
    if k != x {
      SumRemove(keys - {k}, f, x);
      SumRemove(keys - {x}, f, k);
      assert keys - {k} - {x} == keys - {x} - {k};
    }
  }

  /** Functions that agree on the keys have the same sum. */
  lemma {:induction false} SumCongruent<T>(keys: set<T>, f: T -> int, g: T -> int)
    requires forall k :: k in keys ==> f(k) == g(k)
    ensures Sum(keys, f) == Sum(keys, g)
    decreases keys
  {
    if keys != {} {
      var k := Pick(keys);
      SumRemove(keys, g, k);
      SumCongruent(keys - {k}, f, g);
    }
  }

  /** Non-negative terms have a non-negative sum. */
  lemma {:induction false} SumBounds<T>(keys: set<T>, f: T -> int)
    requires forall k :: k in keys ==> f(k) >= 0
    ensures Sum(keys, f) >= 0
    decreases keys
  {
    if keys != {} {
      SumBounds(keys - {Pick(keys)}, f);
    }
  }

  /** The sum in the visiting order `xs`, as a loop over the entries accumulates it. */
  function SumSeq<T>(xs: seq<T>, f: T -> int): int
  {
    if xs == [] then 0 else SumSeq(xs[..|xs| - 1], f) + f(xs[|xs| - 1])
  }

  function Elements<T>(xs: seq<T>): set<T>
  {
    set x | x in xs
  }

  predicate Distinct<T(==)>(xs: seq<T>)
  {
    forall i, j :: 0 <= i < j < |xs| ==> xs[i] != xs[j]
  }

  /** Visiting every key once, in any order, accumulates the same sum. */
  lemma {:induction false} SumInAnyOrder<T>(xs: seq<T>, f: T -> int)
    requires Distinct(xs)
    ensures SumSeq(xs, f) == Sum(Elements(xs), f)
  {
    if xs != [] {
      var init, last := xs[..|xs| - 1], xs[|xs| - 1];
      SumInAnyOrder(init, f);
      var s := Elements(xs);
      SumRemove(s, f, last);
      assert s - {last} == Elements(init) by {
        forall y | y in s - {last} ensures y in init {
          var i :| 0 <= i < |xs| && xs[i] == y;
          assert i < |xs| - 1;
          assert init[i] == y;
        }
        forall y | y in init ensures y in s - {last} {
          var i :| 0 <= i < |init| && init[i] == y;
          assert xs[i] == y;
        }
      }
    }
  }
}
