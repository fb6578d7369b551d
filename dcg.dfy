/**
 * The gain/discount term and the DCG@K accumulator of the NDCG calculator.
 *
 * The discount log2(rank + 1) is not available as a Dafny function, so every
 * member takes it as a parameter `d` that satisfies the facts the proofs need:
 * it is 1 at rank 1 (log2 2 == 1), positive, and strictly increasing in the rank.
 */
module Discounted {

  /** 2^n. */
  function Pow2(n: nat): (r: nat)
    ensures r >= 1
  {
    if n == 0 then 1 else 2 * Pow2(n - 1)
  }

  lemma {:induction false} Pow2Monotone(a: nat, b: nat)
    requires a <= b
    ensures Pow2(a) <= Pow2(b)
  {
    if a < b {
      Pow2Monotone(a, b - 1);
    }
  }

  /** The gain 2^rel - 1 of a relevance score. */
  function Gain(rel: nat): (g: nat)
    ensures g == 0 <==> rel == 0
  {
    Pow2(rel) - 1
  }

  lemma GainMonotone(a: nat, b: nat)
    requires a <= b
    ensures Gain(a) <= Gain(b)
  {
    Pow2Monotone(a, b);
  }

  /** What the proofs need of log2(rank + 1), indexed by the 1-based rank. */
  ghost predicate ValidDiscount(d: nat -> real) {
    && d(1) == 1.0
    && (forall r: nat :: r >= 1 ==> d(r) > 0.0)
    && (forall r: nat, s: nat :: 1 <= r < s ==> d(r) < d(s))
  }

  /** calculateTerm: the DCG term (2^rel - 1) / log2(rank + 1). */
  function Term(rel: nat, rank: nat, d: nat -> real): (t: real)
    requires ValidDiscount(d) && rank >= 1
    ensures t >= 0.0
    ensures t == 0.0 <==> rel == 0
    ensures rank == 1 ==> t == Gain(rel) as real
  {
    Gain(rel) as real / d(rank)
  }

  /** Dividing by a larger positive number gives no more (strictly less for x > 0). */
  lemma DivideByLarger(x: real, p: real, q: real)
    requires x >= 0.0 && 0.0 < p <= q
    ensures x / q <= x / p
    ensures x > 0.0 && p < q ==> x / q < x / p
  {
    assert x / p - x / q == x * (q - p) / (p * q);
    assert p * q > 0.0;
    assert x * (q - p) >= 0.0;
    if x > 0.0 && p < q {
      assert x * (q - p) > 0.0;
    }
  }

  /** Division by a common positive denominator distributes over subtraction. */
  lemma DivideDifference(x: real, y: real, p: real)
    requires p > 0.0
    ensures x / p - y / p == (x - y) / p
  {
  }

  /** A term shrinks strictly as the rank grows, for a non-zero relevance. */
  lemma TermDecreasesWithRank(rel: nat, r1: nat, r2: nat, d: nat -> real)
    requires ValidDiscount(d) && 1 <= r1 < r2 && rel > 0
    ensures Term(rel, r2, d) < Term(rel, r1, d)
  {
    DivideByLarger(Gain(rel) as real, d(r1), d(r2));
  }

  /** A term grows with the relevance at a fixed rank. */
  lemma TermMonotoneInRel(a: nat, b: nat, rank: nat, d: nat -> real)
    requires ValidDiscount(d) && rank >= 1 && a <= b
    ensures Term(a, rank, d) <= Term(b, rank, d)
  {
    GainMonotone(a, b);
    DivideDifference(Gain(b) as real, Gain(a) as real, d(rank));
  }

  /**
   * The exchange inequality behind the rearrangement argument: putting the larger
   * of two scores at the better (smaller) rank never lowers the sum.
   */
  lemma Exchange(a: nat, b: nat, r1: nat, r2: nat, d: nat -> real)
    requires ValidDiscount(d) && 1 <= r1 <= r2 && a <= b
    ensures Term(a, r1, d) + Term(b, r2, d) <= Term(b, r1, d) + Term(a, r2, d)
  {
    GainMonotone(a, b);
    var ga, gb := Gain(a) as real, Gain(b) as real;
    assert d(r1) <= d(r2);
    DivideByLarger(gb - ga, d(r1), d(r2));
    DivideDifference(gb, ga, d(r1));
    DivideDifference(gb, ga, d(r2));
  }

  /** The list positions that `dcgAtK` visits: the first min(|s|, k) of them. */
  function Cutoff(len: nat, k: int): (n: nat)
    ensures n <= len
    ensures k <= 0 ==> n == 0
  {
    if k <= 0 then 0 else if len < k then len else k
  }

  /** The sum of Term(s[i], start + i) over the whole of `s`. */
  function RankedSum(s: seq<nat>, start: nat, d: nat -> real): real
    requires ValidDiscount(d) && start >= 1
    decreases |s|
  {
    if s == [] then 0.0 else Term(s[0], start, d) + RankedSum(s[1..], start + 1, d)
  }

  /** The DCG@K of `s`: terms at ranks 1..min(|s|, k), the rank being the list position. */
  function Dcg(s: seq<nat>, k: int, d: nat -> real): real
    requires ValidDiscount(d)
  {
    RankedSum(s[..Cutoff(|s|, k)], 1, d)
  }

  lemma {:induction false} RankedSumNonNegative(s: seq<nat>, start: nat, d: nat -> real)
    requires ValidDiscount(d) && start >= 1
    ensures RankedSum(s, start, d) >= 0.0
    decreases |s|
  {
    if s != [] {
      RankedSumNonNegative(s[1..], start + 1, d);
    }
  }

  /** A ranked sum is zero exactly when every score in it is zero. */
  lemma {:induction false} RankedSumZeroIff(s: seq<nat>, start: nat, d: nat -> real)
    requires ValidDiscount(d) && start >= 1
    ensures RankedSum(s, start, d) == 0.0 <==> forall i :: 0 <= i < |s| ==> s[i] == 0
    decreases |s|
  {
    if s != [] {
      RankedSumZeroIff(s[1..], start + 1, d);
      RankedSumNonNegative(s[1..], start + 1, d);
      assert forall i :: 1 <= i < |s| ==> s[i] == s[1..][i - 1];
    }
  }

  /** Appending one score at the end adds exactly its term at the next rank. */
  lemma {:induction false} RankedSumSnoc(s: seq<nat>, x: nat, start: nat, d: nat -> real)
    requires ValidDiscount(d) && start >= 1
    ensures RankedSum(s + [x], start, d) == RankedSum(s, start, d) + Term(x, start + |s|, d)
    decreases |s|
  {
    if s == [] {
      assert [] + [x] == [x];
      assert [x][1..] == [];
    } else {
      assert (s + [x])[1..] == s[1..] + [x];
      RankedSumSnoc(s[1..], x, start + 1, d);
    }
  }

  /** The ranked sum of a concatenation: the second part continues at the following ranks. */
  lemma {:induction false} RankedSumAppend(s: seq<nat>, t: seq<nat>, start: nat, d: nat -> real)
    requires ValidDiscount(d) && start >= 1
    ensures RankedSum(s + t, start, d) == RankedSum(s, start, d) + RankedSum(t, start + |s|, d)
    decreases |s|
  {
    if s == [] {
      assert s + t == t;
    } else {
      assert (s + t)[1..] == s[1..] + t;
      RankedSumAppend(s[1..], t, start + 1, d);
    }
  }

  /** Extending a list never lowers its ranked sum (all terms are non-negative). */
  lemma {:induction false} RankedSumPrefix(s: seq<nat>, n: nat, start: nat, d: nat -> real)
    requires ValidDiscount(d) && start >= 1 && n <= |s|
    ensures RankedSum(s[..n], start, d) <= RankedSum(s, start, d)
    decreases |s|
  {
    if n == 0 {
      RankedSumNonNegative(s, start, d);
    } else {
      assert s[..n][1..] == s[1..][..n - 1];
      RankedSumPrefix(s[1..], n - 1, start + 1, d);
    }
  }

  /**
   * Replacing the score at position i changes the sum by exactly the difference of
   * the two terms at rank start + i.
   */
  lemma {:induction false} RankedSumUpdate(s: seq<nat>, i: nat, v: nat, start: nat, d: nat -> real)
    requires ValidDiscount(d) && start >= 1 && i < |s|
    ensures RankedSum(s[i := v], start, d)
         == RankedSum(s, start, d) - Term(s[i], start + i, d) + Term(v, start + i, d)
    decreases |s|
  {
    if i > 0 {
      assert s[i := v][1..] == s[1..][i - 1 := v];
      RankedSumUpdate(s[1..], i - 1, v, start + 1, d);
    } else {
      assert s[i := v][1..] == s[1..];
    }
  }

  /** DCG of an empty list, and for a non-positive k, is 0. */
  lemma DcgEmptyOrNoCutoff(s: seq<nat>, k: int, d: nat -> real)
    requires ValidDiscount(d)
    requires s == [] || k <= 0
    ensures Dcg(s, k, d) == 0.0
  {
    assert s[..Cutoff(|s|, k)] == [];
  }

  /** Scores after position k never affect the DCG@K. */
  lemma DcgIgnoresTail(s: seq<nat>, t: seq<nat>, k: int, d: nat -> real)
    requires ValidDiscount(d) && |s| >= k
    ensures Dcg(s + t, k, d) == Dcg(s, k, d)
  {
    var n := Cutoff(|s|, k);
    assert Cutoff(|s + t|, k) == n;
    assert (s + t)[..n] == s[..n];
  }

  /** DCG is non-negative. */
  lemma DcgNonNegative(s: seq<nat>, k: int, d: nat -> real)
    requires ValidDiscount(d)
    ensures Dcg(s, k, d) >= 0.0
  {
    RankedSumNonNegative(s[..Cutoff(|s|, k)], 1, d);
  }

  /** The first rank's term is the plain gain: DCG@1 of a non-empty list is 2^s[0] - 1. */
  lemma DcgAtOne(s: seq<nat>, d: nat -> real)
    requires ValidDiscount(d) && s != []
    ensures Dcg(s, 1, d) == Gain(s[0]) as real
  {
    var p := s[..Cutoff(|s|, 1)];
    assert p == [s[0]] && p[1..] == [];
    assert RankedSum(p, 1, d) == Term(s[0], 1, d) + RankedSum(p[1..], 2, d);
  }

  /**
   * dcgAtK: the loop that accumulates `dcg += calculateTerm(s[i], i + 1)` for
   * i from 0 while i < min(|s|, k).
   */
  method DcgAtK(s: seq<nat>, k: int, d: nat -> real) returns (dcg: real)
    requires ValidDiscount(d)
    ensures dcg == Dcg(s, k, d)
    ensures dcg >= 0.0
  {
    dcg := 0.0;
    var n := Cutoff(|s|, k);
    var i := 0;
    while i < n
      invariant 0 <= i <= n
      invariant dcg == RankedSum(s[..i], 1, d)
    {
      var rel := s[i];
      var rank := i + 1;
      var term := Term(rel, rank, d);
      assert s[..i + 1] == s[..i] + [rel];
      RankedSumSnoc(s[..i], rel, 1, d);
      dcg := dcg + term;
      i := i + 1;
    }
    DcgNonNegative(s, k, d);
  }
}
