/** Shared by the other modules: options, powers of two, and facts about products and quotients. */
module Basics {

  datatype Option<+T> = None | Some(value: T)

  function Pow2(k: nat): (p: nat)
    ensures p >= 1
  {
    if k == 0 then 1 else 2 * Pow2(k - 1)
  }

  /** The elements at the given positions, in that order. */
  ghost predicate Picks<T>(picked: seq<T>, all: seq<T>, at: seq<nat>) {
    && |picked| == |at|
    && (forall k :: 0 <= k < |at| ==> at[k] < |all| && picked[k] == all[at[k]])
    && (forall k, l :: 0 <= k < l < |at| ==> at[k] < at[l])
  }

  lemma PicksMore<T>(picked: seq<T>, init: seq<T>, x: T, at: seq<nat>)
    requires Picks(picked, init, at)
    ensures Picks(picked, init + [x], at) && |init| !in at
    ensures forall j :: 0 <= j < |init| ==> (init + [x])[j] == init[j]
  {
  }

  lemma PicksNext<T>(picked: seq<T>, init: seq<T>, x: T, at: seq<nat>)
    requires Picks(picked, init, at)
    ensures Picks(picked + [x], init + [x], at + [|init|])
    ensures forall j :: j in at + [|init|] <==> j in at || j == |init|
    ensures forall j :: 0 <= j < |init| ==> (init + [x])[j] == init[j]
  {
  }

  lemma SubsetSize<T>(a: set<T>, b: set<T>)
    requires a <= b
    ensures |a| <= |b|
  {
    assert b == a + (b - a);
  }

  lemma ProductAtLeast(a: int, p: int)
    requires a >= 0 && p >= 1
    ensures a * p >= a
  {
  }

  /** A multiple of d strictly between -d and d is zero. */
  lemma SmallMultiple(d: int, x: int)
    requires d > 0
    ensures x >= 1 ==> d * x >= d
    ensures x <= -1 ==> d * x <= -d
  {
    if x >= 1 {
      ProductAtLeast(d, x);
    } else if x <= -1 {
      ProductAtLeast(d, -x);
      assert d * x == -(d * -x);
    }
  }

  lemma DivideUnique(c: int, d: int, q: int, r: int)
    requires d > 0 && c == d * q + r && 0 <= r < d
    ensures c / d == q
  {
    var e := c / d;
    assert c == d * e + c % d;
    assert d * (e - q) == d * e - d * q;
    SmallMultiple(d, e - q);
  }
}
