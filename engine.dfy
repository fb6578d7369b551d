/**
 * The NDCG step of the calculator (`ndcgForLeaderboard`) and its two-dimension entry
 * point (`calculateNDCG`): both groups are normalised by the one shared IDCG, the
 * all-zero pool gets an all-zero result, and every number is rounded to 4 decimals.
 */
module NdcgEngine {
  import opened Discounted
  import opened Ideal

  /** Math.round(x * 10000) / 10000: Math.round rounds halves up, i.e. floor(v + 1/2). */
  function Round4(x: real): (r: real)
    ensures (r * 10000.0).Floor as real == r * 10000.0
    ensures r - 0.00005 <= x < r + 0.00005
  {
    (x * 10000.0 + 0.5).Floor as real / 10000.0
  }

  lemma Round4Monotone(x: real, y: real)
    requires x <= y
    ensures Round4(x) <= Round4(y)
  {
    var a, b := x * 10000.0 + 0.5, y * 10000.0 + 0.5;
    assert a <= b;
    assert a.Floor <= b.Floor;
  }

  /** Rounding keeps 0 and 1 and so keeps a value of [0, 1] inside [0, 1]. */
  lemma Round4UnitRange(x: real)
    requires 0.0 <= x <= 1.0
    ensures 0.0 <= Round4(x) <= 1.0
    ensures x == 0.0 ==> Round4(x) == 0.0
    ensures x == 1.0 ==> Round4(x) == 1.0
  {
    assert (0.5).Floor == 0;
    assert (10000.5).Floor == 10000;
    Round4Monotone(0.0, x);
    Round4Monotone(x, 1.0);
  }

  /** The result of one score dimension. */
  datatype LeaderboardResult = LeaderboardResult(
    dcgOwn: real,
    dcgTarget: real,
    idealScores: seq<nat>,
    idcg: real,
    ndcgOwn: real,
    ndcgTarget: real)

  const ZeroResult := LeaderboardResult(0.0, 0.0, [], 0.0, 0.0, 0.0)

  /** ndcgForLeaderboard as a function of its inputs. */
  function Leaderboard(own: seq<nat>, target: seq<nat>, k: int, d: nat -> real): LeaderboardResult
    requires ValidDiscount(d)
  {
    var idcg := Idcg(own, target, k, d);
    var dcgOwn := Dcg(own, k, d);
    var dcgTarget := Dcg(target, k, d);
    if idcg == 0.0 then ZeroResult
    else
      LeaderboardResult(
        Round4(dcgOwn), Round4(dcgTarget), IdealScores(own, target, k),
        Round4(idcg), Round4(dcgOwn / idcg), Round4(dcgTarget / idcg))
  }

  predicate AllZero(s: seq<nat>) {
    forall i :: 0 <= i < |s| ==> s[i] == 0
  }

  /**
   * The degenerate case: the all-zero result comes out exactly when k <= 0 or every
   * score of both groups is 0 (which includes two empty groups).
   */
  lemma LeaderboardDegenerate(own: seq<nat>, target: seq<nat>, k: int, d: nat -> real)
    requires ValidDiscount(d)
    ensures Leaderboard(own, target, k, d) == ZeroResult <==> k <= 0 || (AllZero(own) && AllZero(target))
  {
    IdcgZeroIff(own, target, k, d);
    if Idcg(own, target, k, d) != 0.0 {
      IdcgAtLeastOne(own, target, k, d);
    }
  }

  /** A positive IDCG is at least 1: its first term is the gain of a positive score. */
  lemma IdcgAtLeastOne(own: seq<nat>, target: seq<nat>, k: int, d: nat -> real)
    requires ValidDiscount(d) && Idcg(own, target, k, d) != 0.0
    ensures Idcg(own, target, k, d) >= 1.0
    ensures IdealScores(own, target, k) != []
  {
    var ideal := IdealScores(own, target, k);
    IdcgZeroIff(own, target, k, d);
    assert k > 0;
    IdealIsCut(own, target, k);
    if ideal == [] {
      DcgEmptyOrNoCutoff(ideal, k, d);
    } else {
      var p := ideal[..Cutoff(|ideal|, k)];
      assert p == ideal;
      RankedSumZeroIff(p, 1, d);
      RankedSumNonNegative(p[1..], 2, d);
      // The ideal list is descending, so its head is its largest, non-zero score.
      IdealScoresShape(own, target, k);
      assert p[0] != 0;
      assert Term(p[0], 1, d) >= 1.0;
    }
  }

  /**
   * When the IDCG is positive both NDCG values lie in [0, 1] and are within
   * 0.00005 of dcg / idcg; the rounded IDCG is at least 1.
   */
  lemma LeaderboardNormalised(own: seq<nat>, target: seq<nat>, k: int, d: nat -> real)
    requires ValidDiscount(d) && Idcg(own, target, k, d) != 0.0
    ensures var r := Leaderboard(own, target, k, d);
      && 0.0 <= r.ndcgOwn <= 1.0 && 0.0 <= r.ndcgTarget <= 1.0
      && r.idcg >= 1.0 && r.idealScores == IdealScores(own, target, k)
      && r.ndcgOwn - 0.00005 <= Dcg(own, k, d) / Idcg(own, target, k, d) < r.ndcgOwn + 0.00005
      && r.ndcgTarget - 0.00005 <= Dcg(target, k, d) / Idcg(own, target, k, d) < r.ndcgTarget + 0.00005
      && r.ndcgOwn == Round4(Dcg(own, k, d) / Idcg(own, target, k, d))
      && r.ndcgTarget == Round4(Dcg(target, k, d) / Idcg(own, target, k, d))
  {
    var idcg := Idcg(own, target, k, d);
    IdcgAtLeastOne(own, target, k, d);
    DcgAtMostIdcg(own, target, k, d);
    DcgNonNegative(own, k, d);
    DcgNonNegative(target, k, d);
    RatioInUnitRange(Dcg(own, k, d), idcg);
    RatioInUnitRange(Dcg(target, k, d), idcg);
    Round4UnitRange(Dcg(own, k, d) / idcg);
    Round4UnitRange(Dcg(target, k, d) / idcg);
    Round4Monotone(1.0, idcg);
    Round4UnitRange(1.0);
  }

  lemma RatioInUnitRange(x: real, y: real)
    requires 0.0 <= x <= y && y > 0.0
    ensures 0.0 <= x / y <= 1.0
  {
    var q := x / y;
    assert q * y == x;
    assert (q - 1.0) * y == x - y;
  }

  /** Whatever the inputs, both NDCG values lie in [0, 1]. */
  lemma NdcgInUnitRange(own: seq<nat>, target: seq<nat>, k: int, d: nat -> real)
    requires ValidDiscount(d)
    ensures 0.0 <= Leaderboard(own, target, k, d).ndcgOwn <= 1.0
    ensures 0.0 <= Leaderboard(own, target, k, d).ndcgTarget <= 1.0
  {
    if Idcg(own, target, k, d) != 0.0 {
      LeaderboardNormalised(own, target, k, d);
    }
  }

  /**
   * Both groups are measured against one IDCG, so their NDCG values compare as their
   * DCG values do: the larger DCG gets the larger ratio and a rounded NDCG no smaller.
   */
  lemma SharedBaseKeepsOrder(own: seq<nat>, target: seq<nat>, k: int, d: nat -> real)
    requires ValidDiscount(d) && Dcg(target, k, d) < Dcg(own, k, d)
    ensures Idcg(own, target, k, d) > 0.0
    ensures Dcg(target, k, d) / Idcg(own, target, k, d) < Dcg(own, k, d) / Idcg(own, target, k, d)
    ensures Leaderboard(own, target, k, d).ndcgTarget <= Leaderboard(own, target, k, d).ndcgOwn
  {
    var idcg := Idcg(own, target, k, d);
    DcgAtMostIdcg(own, target, k, d);
    DcgNonNegative(target, k, d);
    DivideDifference(Dcg(own, k, d), Dcg(target, k, d), idcg);
    assert (Dcg(own, k, d) - Dcg(target, k, d)) / idcg > 0.0;
    Round4Monotone(Dcg(target, k, d) / idcg, Dcg(own, k, d) / idcg);
  }

  /** Swapping the groups swaps the per-group fields and keeps the shared ones. */
  lemma LeaderboardSwap(own: seq<nat>, target: seq<nat>, k: int, d: nat -> real)
    requires ValidDiscount(d)
    ensures var r, s := Leaderboard(own, target, k, d), Leaderboard(target, own, k, d);
      && s.dcgOwn == r.dcgTarget && s.dcgTarget == r.dcgOwn
      && s.ndcgOwn == r.ndcgTarget && s.ndcgTarget == r.ndcgOwn
      && s.idealScores == r.idealScores && s.idcg == r.idcg
  {
    IdealScoresSymmetric(own, target, k, d);
  }

  /**
   * A group that is already in descending order and holds the whole pool (the other
   * group is empty) scores exactly 1 unless all its scores are 0.
   */
  lemma IdealOrderScoresOne(own: seq<nat>, k: int, d: nat -> real)
    requires ValidDiscount(d) && SortedDesc(own) && k > 0 && !AllZero(own)
    ensures Leaderboard(own, [], k, d).ndcgOwn == 1.0
  {
    SortedSoleGroupIsIdeal(own, k, d);
    IdcgZeroIff(own, [], k, d);
    var idcg := Idcg(own, [], k, d);
    OwnRatio(own, [], k, d);
    SelfRatio(idcg);
    Round4UnitRange(1.0);
  }

  /** A sole group already in descending order is its own ideal list, so its DCG is the IDCG. */
  lemma SortedSoleGroupIsIdeal(own: seq<nat>, k: int, d: nat -> real)
    requires ValidDiscount(d) && SortedDesc(own) && k > 0
    ensures Dcg(own, k, d) == Idcg(own, [], k, d)
  {
    assert own + [] == own;
    SortedDescUnique(SortDesc(own), own);
    var n := Cutoff(|own|, k);
    IdealIsCut(own, [], k);
    assert IdealScores(own, [], k) == own[..n];
    IdcgIsIdealSum(own, [], k, d);
  }

  /** With a non-zero IDCG, the own group's NDCG is its rounded DCG over the IDCG. */
  lemma OwnRatio(own: seq<nat>, target: seq<nat>, k: int, d: nat -> real)
    requires ValidDiscount(d) && Idcg(own, target, k, d) != 0.0
    ensures Leaderboard(own, target, k, d).ndcgOwn == Round4(Dcg(own, k, d) / Idcg(own, target, k, d))
  {
  }

  lemma SelfRatio(x: real)
    requires x != 0.0
    ensures x / x == 1.0
  {
  }

  /** ndcgForLeaderboard. */
  method NdcgForLeaderboard(own: seq<nat>, target: seq<nat>, k: int, d: nat -> real)
    returns (r: LeaderboardResult)
    requires ValidDiscount(d)
    ensures r == Leaderboard(own, target, k, d)
    ensures 0.0 <= r.ndcgOwn <= 1.0 && 0.0 <= r.ndcgTarget <= 1.0
  {
    var idealScores, idcg := IdcgCombined(own, target, k, d);
    var dcgOwn := DcgAtK(own, k, d);
    var dcgTarget := DcgAtK(target, k, d);
    NdcgInUnitRange(own, target, k, d);
    if idcg == 0.0 {
      return ZeroResult;
    }
    var ndcgOwn := dcgOwn / idcg;
    var ndcgTarget := dcgTarget / idcg;
    r := LeaderboardResult(
      Round4(dcgOwn), Round4(dcgTarget), idealScores,
      Round4(idcg), Round4(ndcgOwn), Round4(ndcgTarget));
  }

  /** The cutoff calculateNDCG passes for both dimensions. */
  const Cut: int := 10

  /** The object calculateNDCG returns. */
  datatype NdcgOutput = NdcgOutput(
    ownContentDcg: real,
    targetContentDcg: real,
    contentIdcg: real,
    contentIdealScores: seq<nat>,
    ownContentNdcg: real,
    targetContentNdcg: real,
    ownTimeDcg: real,
    targetTimeDcg: real,
    timeIdcg: real,
    timeIdealScores: seq<nat>,
    ownTimeNdcg: real,
    targetTimeNdcg: real,
    msg: string)

  /** calculateNDCG on well-formed inputs: the content and the time dimension, msg "". */
  function Calculate(ownContent: seq<nat>, ownTime: seq<nat>, targetContent: seq<nat>, targetTime: seq<nat>,
                     d: nat -> real): NdcgOutput
    requires ValidDiscount(d)
  {
    var c := Leaderboard(ownContent, targetContent, Cut, d);
    var t := Leaderboard(ownTime, targetTime, Cut, d);
    NdcgOutput(
      c.dcgOwn, c.dcgTarget, c.idcg, c.idealScores, c.ndcgOwn, c.ndcgTarget,
      t.dcgOwn, t.dcgTarget, t.idcg, t.idealScores, t.ndcgOwn, t.ndcgTarget,
      "")
  }

  /** The value the `catch` branch of calculateNDCG returns, carrying the error message. */
  function Fallback(message: string): NdcgOutput {
    NdcgOutput(0.0, 0.0, 0.0, [], 0.0, 0.0, 0.0, 0.0, 0.0, [], 0.0, 0.0, message)
  }

  /** The numeric part of an output: everything but msg. */
  function Numbers(o: NdcgOutput): NdcgOutput {
    o.(msg := "")
  }

  /**
   * The fallback has all-zero numbers and empty ideal lists: numerically it is the
   * same output as a successful call on an all-zero pool in both dimensions, and
   * only msg tells the two apart.
   */
  lemma FallbackIsDegenerateOutput(ownContent: seq<nat>, ownTime: seq<nat>, targetContent: seq<nat>,
                                   targetTime: seq<nat>, message: string, d: nat -> real)
    requires ValidDiscount(d)
    ensures var o := Calculate(ownContent, ownTime, targetContent, targetTime, d);
      Numbers(Fallback(message)) == Numbers(o)
      <==> AllZero(ownContent) && AllZero(targetContent) && AllZero(ownTime) && AllZero(targetTime)
    ensures Calculate(ownContent, ownTime, targetContent, targetTime, d).msg == ""
    ensures Fallback(message).msg == message
  {
    LeaderboardDegenerate(ownContent, targetContent, Cut, d);
    LeaderboardDegenerate(ownTime, targetTime, Cut, d);
  }

  /**
   * The content fields come only from the content scores and the time fields only
   * from the time scores.
   */
  lemma DimensionsIndependent(ownContent: seq<nat>, ownTime: seq<nat>, targetContent: seq<nat>, targetTime: seq<nat>,
                              ownTime': seq<nat>, targetTime': seq<nat>, ownContent': seq<nat>, targetContent': seq<nat>,
                              d: nat -> real)
    requires ValidDiscount(d)
    ensures var o, p := Calculate(ownContent, ownTime, targetContent, targetTime, d),
                        Calculate(ownContent, ownTime', targetContent, targetTime', d);
      && o.ownContentDcg == p.ownContentDcg && o.targetContentDcg == p.targetContentDcg
      && o.contentIdcg == p.contentIdcg && o.contentIdealScores == p.contentIdealScores
      && o.ownContentNdcg == p.ownContentNdcg && o.targetContentNdcg == p.targetContentNdcg
    ensures var o, p := Calculate(ownContent, ownTime, targetContent, targetTime, d),
                        Calculate(ownContent', ownTime, targetContent', targetTime, d);
      && o.ownTimeDcg == p.ownTimeDcg && o.targetTimeDcg == p.targetTimeDcg
      && o.timeIdcg == p.timeIdcg && o.timeIdealScores == p.timeIdealScores
      && o.ownTimeNdcg == p.ownTimeNdcg && o.targetTimeNdcg == p.targetTimeNdcg
  {
  }

  /** All four NDCG values calculateNDCG reports lie in [0, 1]. */
  lemma CalculateInUnitRange(ownContent: seq<nat>, ownTime: seq<nat>, targetContent: seq<nat>, targetTime: seq<nat>,
                             d: nat -> real)
    requires ValidDiscount(d)
    ensures var o := Calculate(ownContent, ownTime, targetContent, targetTime, d);
      && 0.0 <= o.ownContentNdcg <= 1.0 && 0.0 <= o.targetContentNdcg <= 1.0
      && 0.0 <= o.ownTimeNdcg <= 1.0 && 0.0 <= o.targetTimeNdcg <= 1.0
  {
    NdcgInUnitRange(ownContent, targetContent, Cut, d);
    NdcgInUnitRange(ownTime, targetTime, Cut, d);
  }

  /** The ideal list of each dimension holds at most 10 scores (the cutoff is 10). */
  lemma CalculateIdealAtMostTen(ownContent: seq<nat>, ownTime: seq<nat>, targetContent: seq<nat>, targetTime: seq<nat>,
                                d: nat -> real)
    requires ValidDiscount(d)
    ensures var o := Calculate(ownContent, ownTime, targetContent, targetTime, d);
      |o.contentIdealScores| <= 10 && |o.timeIdealScores| <= 10
  {
    IdealScoresShape(ownContent, targetContent, Cut);
    IdealScoresShape(ownTime, targetTime, Cut);
  }

  /** calculateNDCG: both dimensions with the cutoff 10; the well-formed inputs never fail. */
  method CalculateNdcg(ownContent: seq<nat>, ownTime: seq<nat>, targetContent: seq<nat>, targetTime: seq<nat>,
                       d: nat -> real) returns (o: NdcgOutput)
    requires ValidDiscount(d)
    ensures o == Calculate(ownContent, ownTime, targetContent, targetTime, d)
    ensures o.msg == ""
  {
    var contentResult := NdcgForLeaderboard(ownContent, targetContent, Cut, d);
    var timeResult := NdcgForLeaderboard(ownTime, targetTime, Cut, d);
    o := NdcgOutput(
      contentResult.dcgOwn, contentResult.dcgTarget, contentResult.idcg,
      contentResult.idealScores, contentResult.ndcgOwn, contentResult.ndcgTarget,
      timeResult.dcgOwn, timeResult.dcgTarget, timeResult.idcg,
      timeResult.idealScores, timeResult.ndcgOwn, timeResult.ndcgTarget,
      "");
  }
}
