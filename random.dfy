/** The seeded random source of the generator (a linear congruential
    generator) and the Fisher-Yates shuffle it drives, as specifications. */
module Random {
  import opened Sudoku

  const Multiplier: nat := 9301
  const Increment: nat := 49297
  const Modulus: nat := 233280

  /** One step of the generator: s := (s * 9301 + 49297) mod 233280. The
      source returns s / 233280 as a number in [0, 1); the model keeps the
      state s itself. */
  function Step(s: nat): (t: nat)
    ensures t < Modulus
  {
    (s * Multiplier + Increment) % Modulus
  }

  /** The state after n draws. */
  function Iterate(s: nat, n: nat): nat
    decreases n
  {
    if n == 0 then s else Iterate(Step(s), n - 1)
  }

  lemma {:induction false} MulDivBound(x: nat, i: nat)
    requires x < Modulus
    ensures x * (i + 1) / Modulus <= i
  {
    assert x * (i + 1) <= (Modulus - 1) * (i + 1);
    assert (Modulus - 1) * (i + 1) < Modulus * (i + 1);
  }

  /** floor(rng() * (i + 1)) computed exactly in integers from the drawn
      state x: floor(x * (i + 1) / 233280). It always lies in [0, i]. */
  function SwapIndex(x: nat, i: nat): (j: nat)
    requires x < Modulus
    ensures j <= i
  {
    MulDivBound(x, i);
    x * (i + 1) / Modulus
  }

  /** The source's closure: a mutable state s captured at construction. */
  class SeededRandom {
    var s: nat

    constructor (seed: nat)
      ensures s == seed
    {
      s := seed;
    }

    /** Advances the state and returns it (the source returns it divided by
        the modulus). */
    method Next() returns (x: nat)
      modifies this
      ensures s == Step(old(s)) && x == s
    {
      s := Step(s);
      x := s;
    }
  }

  function Swap<T>(a: seq<T>, i: int, j: int): (b: seq<T>)
    requires 0 <= i < |a| && 0 <= j < |a|
    ensures |b| == |a|
  {
    a[i := a[j]][j := a[i]]
  }

  /** The descending Fisher-Yates loop from index i down to 1: each step
      draws once and swaps a[i] with a[SwapIndex(draw, i)]. Returns the
      shuffled sequence and the final generator state. */
  function ShuffleFrom<T>(a: seq<T>, i: int, s: nat): (r: (seq<T>, nat))
    requires i < |a|
    ensures |r.0| == |a|
    decreases i
  {
    if i <= 0 then (a, s)
    else
      var s' := Step(s);
      ShuffleFrom(Swap(a, i, SwapIndex(s', i)), i - 1, s')
  }

  function Shuffled<T>(a: seq<T>, s: nat): (r: (seq<T>, nat))
    ensures |r.0| == |a|
  {
    ShuffleFrom(a, |a| - 1, s)
  }

  /** The shuffle is a permutation of its input. */
  lemma {:induction false} ShuffleFromPermutes<T>(a: seq<T>, i: int, s: nat)
    requires i < |a|
    ensures multiset(ShuffleFrom(a, i, s).0) == multiset(a)
    decreases i
  {
    if i > 0 {
      var s' := Step(s);
      var j := SwapIndex(s', i);
      ShuffleFromPermutes(Swap(a, i, j), i - 1, s');
      assert multiset(Swap(a, i, j)) == multiset(a);
    }
  }

  lemma ShufflePermutes<T>(a: seq<T>, s: nat)
    ensures multiset(Shuffled(a, s).0) == multiset(a)
  {
    ShuffleFromPermutes(a, |a| - 1, s);
  }

  /** The shuffle consumes exactly |a| - 1 draws (none for an empty or
      one-element input). */
  lemma {:induction false} ShuffleFromDraws<T>(a: seq<T>, i: int, s: nat)
    requires i < |a|
    ensures ShuffleFrom(a, i, s).1 == Iterate(s, if i <= 0 then 0 else i)
    decreases i
  {
    if i > 0 {
      var s' := Step(s);
      ShuffleFromDraws(Swap(a, i, SwapIndex(s', i)), i - 1, s');
    }
  }

  lemma ShuffleDraws<T>(a: seq<T>, s: nat)
    ensures Shuffled(a, s).1 == Iterate(s, if |a| == 0 then 0 else |a| - 1)
  {
    ShuffleFromDraws(a, |a| - 1, s);
  }

  /** A shuffle of pairwise distinct elements stays pairwise distinct. */
  lemma {:induction false} ShuffleFromDistinct<T>(a: seq<T>, i: int, s: nat)
    requires i < |a| && Distinct(a)
    ensures Distinct(ShuffleFrom(a, i, s).0)
    decreases i
  {
    if i > 0 {
      var s' := Step(s);
      var b := Swap(a, i, SwapIndex(s', i));
      assert Distinct(b);
      ShuffleFromDistinct(b, i - 1, s');
    }
  }

  lemma ShuffleDistinct<T>(a: seq<T>, s: nat)
    requires Distinct(a)
    ensures Distinct(Shuffled(a, s).0)
  {
    ShuffleFromDistinct(a, |a| - 1, s);
  }

  /** Every element of the shuffle is an element of the input. */
  lemma ShuffleMembers<T>(a: seq<T>, s: nat)
    ensures forall x :: x in Shuffled(a, s).0 ==> x in a
  {
    ShufflePermutes(a, s);
    forall x | x in Shuffled(a, s).0
      ensures x in a
    {
      assert x in multiset(Shuffled(a, s).0);
    }
  }
}
