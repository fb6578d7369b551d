/**
 * Concrete inputs to the NDCG step, worked out for any discount that satisfies
 * ValidDiscount (so in particular for log2(rank + 1)).
 */
module NdcgScenarios {
  import opened Discounted
  import opened Ideal
  import opened NdcgEngine

  /** Dividing by one positive number keeps a strict order. */
  lemma DivideKeepsOrder(a: real, b: real, c: real)
    requires a < b && c > 0.0
    ensures a / c < b / c
  {
    DivideDifference(b, a, c);
    assert (b - a) / c > 0.0;
  }

  /** A part of a positive total that leaves something out is below 1 of it. */
  lemma PartBelowWhole(a: real, b: real)
    requires a >= 0.0 && b > 0.0
    ensures a / (a + b) < 1.0
  {
    DivideKeepsOrder(a, a + b, a + b);
    SelfRatio(a + b);
  }

  /** The ranked sum of four scores, written out term by term. */
  lemma RankedSumFour(a: nat, b: nat, c: nat, e: nat, d: nat -> real)
    requires ValidDiscount(d)
    ensures RankedSum([a, b, c, e], 1, d)
         == Term(a, 1, d) + Term(b, 2, d) + Term(c, 3, d) + Term(e, 4, d)
  {
    RankedSumSnoc([a, b, c], e, 1, d);
    RankedSumSnoc([a, b], c, 1, d);
    RankedSumSnoc([a], b, 1, d);
    RankedSumSnoc([], a, 1, d);
    assert [a, b, c] + [e] == [a, b, c, e];
    assert [a, b] + [c] == [a, b, c];
    assert [a] + [b] == [a, b];
    assert [] + [a] == [a];
  }

  lemma MixedOrderSorted()
    ensures SortedDesc([5, 5, 4, 4, 2, 2, 0, 0])
  {
  }

  lemma MixedOrderSameScores()
    ensures multiset([5, 5, 4, 4, 2, 2, 0, 0]) == multiset([5, 4, 2, 0] + [4, 5, 0, 2])
  {
  }

  lemma MixedOrderIdeal()
    ensures IdealScores([5, 4, 2, 0], [4, 5, 0, 2], 10) == [5, 5, 4, 4, 2, 2, 0, 0]
  {
    MixedOrderSorted();
    MixedOrderSameScores();
    WholeArrangementIsIdeal([5, 4, 2, 0], [4, 5, 0, 2], 10, [5, 5, 4, 4, 2, 2, 0, 0]);
  }

  /** A sorted arrangement of the pool that fits within the cutoff is the whole ideal list. */
  lemma WholeArrangementIsIdeal(own: seq<nat>, target: seq<nat>, k: int, q: seq<nat>)
    requires SortedDesc(q) && multiset(q) == multiset(own + target) && |q| <= k
    ensures IdealScores(own, target, k) == q
  {
    IdealFromArrangement(own, target, k, q);
    assert q[..|q|] == q;
  }

  lemma MixedOrderOwnDcg(d: nat -> real)
    requires ValidDiscount(d)
    ensures Dcg([5, 4, 2, 0], 10, d) == 31.0 + 15.0 / d(2) + 3.0 / d(3)
  {
    RankedSumFour(5, 4, 2, 0, d);
    var s: seq<nat> := [5, 4, 2, 0];
    assert s[..Cutoff(|s|, 10)] == s;
    assert Gain(5) == 31 && Gain(4) == 15 && Gain(2) == 3;
    assert Term(4, 2, d) == 15.0 / d(2) && Term(2, 3, d) == 3.0 / d(3);
  }

  lemma MixedOrderTargetDcg(d: nat -> real)
    requires ValidDiscount(d)
    ensures Dcg([4, 5, 0, 2], 10, d) == 15.0 + 31.0 / d(2) + 3.0 / d(4)
  {
    RankedSumFour(4, 5, 0, 2, d);
    var s: seq<nat> := [4, 5, 0, 2];
    assert s[..Cutoff(|s|, 10)] == s;
    assert Gain(5) == 31 && Gain(4) == 15 && Gain(2) == 3;
    assert Term(5, 2, d) == 31.0 / d(2) && Term(2, 4, d) == 3.0 / d(4);
  }

  /** The two DCGs of the mixed-order scenario: own's, with its best item first, is larger. */
  lemma MixedOrderDcgs(d: nat -> real)
    requires ValidDiscount(d)
    ensures Dcg([5, 4, 2, 0], 10, d) > Dcg([4, 5, 0, 2], 10, d) > 0.0
  {
    MixedOrderOwnDcg(d);
    MixedOrderTargetDcg(d);
    DivideByLarger(16.0, d(1), d(2));
    DivideByLarger(3.0, d(3), d(4));
    DivideDifference(31.0, 15.0, d(2));
    assert 31.0 / d(2) > 0.0 && 3.0 / d(4) > 0.0;
  }

  /**
   * own = [5, 4, 2, 0], target = [4, 5, 0, 2], k = 10: the ideal list is
   * [5, 5, 4, 4, 2, 2, 0, 0]; own, which puts its best item first, has the higher
   * DCG and so the higher NDCG before rounding (and no lower one after).
   */
  lemma MixedOrderScenario(d: nat -> real)
    requires ValidDiscount(d)
    ensures IdealScores([5, 4, 2, 0], [4, 5, 0, 2], 10) == [5, 5, 4, 4, 2, 2, 0, 0]
    ensures Idcg([5, 4, 2, 0], [4, 5, 0, 2], 10, d) > 0.0
    ensures Dcg([5, 4, 2, 0], 10, d) / Idcg([5, 4, 2, 0], [4, 5, 0, 2], 10, d)
          > Dcg([4, 5, 0, 2], 10, d) / Idcg([5, 4, 2, 0], [4, 5, 0, 2], 10, d)
          > 0.0
    ensures var r := Leaderboard([5, 4, 2, 0], [4, 5, 0, 2], 10, d);
      0.0 <= r.ndcgTarget <= r.ndcgOwn <= 1.0
  {
    MixedOrderIdeal();
    MixedOrderDcgs(d);
    SharedBaseKeepsOrder([5, 4, 2, 0], [4, 5, 0, 2], 10, d);
    var idcg := Idcg([5, 4, 2, 0], [4, 5, 0, 2], 10, d);
    DivideKeepsOrder(0.0, Dcg([4, 5, 0, 2], 10, d), idcg);
    NdcgInUnitRange([5, 4, 2, 0], [4, 5, 0, 2], 10, d);
  }

  lemma EqualGroupsIdeal()
    ensures IdealScores([5, 5, 5], [5, 5, 5], 10) == [5, 5, 5, 5, 5, 5]
  {
    assert SortedDesc([5, 5, 5, 5, 5, 5]);
    WholeArrangementIsIdeal([5, 5, 5], [5, 5, 5], 10, [5, 5, 5, 5, 5, 5]);
  }

  /** A list that fits within the cutoff, followed by more that still fits, sums term by term. */
  lemma ConcatWithinCutoff(s: seq<nat>, t: seq<nat>, k: int, d: nat -> real)
    requires ValidDiscount(d) && |s| + |t| <= k
    ensures Dcg(s + t, k, d) == Dcg(s, k, d) + RankedSum(t, |s| + 1, d)
  {
    assert (s + t)[..Cutoff(|s + t|, k)] == s + t;
    assert s[..Cutoff(|s|, k)] == s;
    RankedSumAppend(s, t, 1, d);
  }

  /** A ranked sum whose first score is positive is positive. */
  lemma PositiveFirst(s: seq<nat>, start: nat, d: nat -> real)
    requires ValidDiscount(d) && start >= 1 && s != [] && s[0] > 0
    ensures RankedSum(s, start, d) > 0.0
  {
    RankedSumNonNegative(s, start, d);
    RankedSumZeroIff(s, start, d);
  }

  /** The IDCG is the group's DCG plus three more positive terms at ranks 4 to 6. */
  lemma EqualGroupsIdcg(d: nat -> real)
    requires ValidDiscount(d)
    ensures Idcg([5, 5, 5], [5, 5, 5], 10, d) == Dcg([5, 5, 5], 10, d) + RankedSum([5, 5, 5], 4, d)
    ensures Dcg([5, 5, 5], 10, d) >= 0.0 && RankedSum([5, 5, 5], 4, d) > 0.0
  {
    var g: seq<nat> := [5, 5, 5];
    EqualGroupsIdeal();
    assert [5, 5, 5, 5, 5, 5] == g + g;
    ConcatWithinCutoff(g, g, 10, d);
    DcgNonNegative(g, 10, d);
    PositiveFirst(g, 4, d);
  }

  /**
   * own = target = [5, 5, 5], k = 10: the pool holds six 5s, all within the cutoff,
   * so the IDCG sums six terms while each group's DCG sums three. Both groups get the
   * same NDCG, and before rounding it is strictly below 1.
   */
  lemma EqualGroupsScenario(d: nat -> real)
    requires ValidDiscount(d)
    ensures IdealScores([5, 5, 5], [5, 5, 5], 10) == [5, 5, 5, 5, 5, 5]
    ensures Idcg([5, 5, 5], [5, 5, 5], 10, d) > 0.0
    ensures Dcg([5, 5, 5], 10, d) / Idcg([5, 5, 5], [5, 5, 5], 10, d) < 1.0
    ensures Leaderboard([5, 5, 5], [5, 5, 5], 10, d).ndcgOwn
         == Leaderboard([5, 5, 5], [5, 5, 5], 10, d).ndcgTarget
  {
    EqualGroupsIdeal();
    EqualGroupsIdcg(d);
    PartBelowWhole(Dcg([5, 5, 5], 10, d), RankedSum([5, 5, 5], 4, d));
  }

  /** own = target = [0, 0, 0]: every field is 0 and the ideal list is empty. */
  lemma AllZeroScenario(d: nat -> real)
    requires ValidDiscount(d)
    ensures Leaderboard([0, 0, 0], [0, 0, 0], 10, d) == ZeroResult
    ensures Leaderboard([], [], 10, d) == ZeroResult
  {
    LeaderboardDegenerate([0, 0, 0], [0, 0, 0], 10, d);
    LeaderboardDegenerate([], [], 10, d);
  }

  lemma RaisedIdeal()
    ensures IdealScores([4, 5], [], 10) == [5, 4]
  {
    assert SortedDesc([5, 4]);
    assert multiset([5, 4]) == multiset([4, 5] + []);
    WholeArrangementIsIdeal([4, 5], [], 10, [5, 4]);
  }

  /** The DCG of two scores within the cutoff, written out term by term. */
  lemma DcgOfTwo(a: nat, b: nat, k: int, d: nat -> real)
    requires ValidDiscount(d) && k >= 2
    ensures Dcg([a, b], k, d) == Gain(a) as real + Gain(b) as real / d(2)
  {
    ConcatWithinCutoff([a], [b], k, d);
    assert [a] + [b] == [a, b];
    var p, q: seq<nat> := [a], [b];
    assert p[..Cutoff(1, k)] == p && p[1..] == [] && q[1..] == [];
    assert RankedSum(p, 1, d) == Term(a, 1, d) + RankedSum(p[1..], 2, d);
    assert RankedSum(q, 2, d) == Term(b, 2, d) + RankedSum(q[1..], 3, d);
  }

  /** The raised group's DCG and the IDCG: the same two gains at the two ranks, swapped. */
  lemma RaisedDcgs(d: nat -> real)
    requires ValidDiscount(d)
    ensures Dcg([4, 5], 10, d) == 15.0 + 31.0 / d(2)
    ensures Idcg([4, 5], [], 10, d) == 31.0 + 15.0 / d(2)
  {
    RaisedIdeal();
    DcgOfTwo(4, 5, 10, d);
    DcgOfTwo(5, 4, 10, d);
    assert Gain(4) == 15 && Gain(5) == 31;
  }

  /** With 5 at the second rank, [4, 5] has a DCG strictly below its IDCG. */
  lemma RaisedDcgBelowIdcg(d: nat -> real)
    requires ValidDiscount(d)
    ensures 0.0 < Dcg([4, 5], 10, d) < Idcg([4, 5], [], 10, d)
  {
    RaisedDcgs(d);
    var d2 := d(2);
    DivideByLarger(16.0, d(1), d2);
    assert 16.0 / d(1) == 16.0;
    DivideDifference(31.0, 15.0, d2);
    assert 31.0 / d2 == 15.0 / d2 + 16.0 / d2;
    assert 31.0 / d2 > 0.0;
  }

  /**
   * Raising every score of a group does not always raise its NDCG: own = [2, 2] with an
   * empty target scores exactly 1, while the strictly larger own = [4, 5] scores below
   * 1 before rounding, since its larger score now sits at the second rank.
   */
  lemma RaisingScoresCanLowerNdcg(d: nat -> real)
    requires ValidDiscount(d)
    ensures Leaderboard([2, 2], [], 10, d).ndcgOwn == 1.0
    ensures IdealScores([4, 5], [], 10) == [5, 4]
    ensures Idcg([4, 5], [], 10, d) > 0.0
    ensures Dcg([4, 5], 10, d) / Idcg([4, 5], [], 10, d) < 1.0
  {
    var before: seq<nat> := [2, 2];
    assert before[0] != 0;
    assert SortedDesc(before);
    IdealOrderScoresOne(before, 10, d);
    RaisedIdeal();
    RaisedDcgBelowIdcg(d);
    var idcg := Idcg([4, 5], [], 10, d);
    DivideKeepsOrder(Dcg([4, 5], 10, d), idcg, idcg);
    SelfRatio(idcg);
  }
}
