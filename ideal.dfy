/**
 * The shared ideal ranking of the NDCG calculator (`idcgCombined`): both groups'
 * scores are pooled, sorted in descending order, cut to the first k, and the DCG
 * of that list is the IDCG both groups are normalised by.
 */
module Ideal {
  import opened Discounted

  ghost predicate SortedDesc(s: seq<nat>) {
    forall i, j :: 0 <= i < j < |s| ==> s[i] >= s[j]
  }

  /** A list headed by h is descending exactly when its tail is descending and at most h. */
  lemma SortedCons(h: nat, t: seq<nat>)
    ensures SortedDesc([h] + t) <==> (forall i :: 0 <= i < |t| ==> t[i] <= h) && SortedDesc(t)
  {
    var s := [h] + t;
    assert forall i :: 0 <= i < |t| ==> s[i + 1] == t[i];
    if (forall i :: 0 <= i < |t| ==> t[i] <= h) && SortedDesc(t) {
      forall i, j | 0 <= i < j < |s| ensures s[i] >= s[j] {
        if i > 0 {
          assert s[i] == t[i - 1] && s[j] == t[j - 1];
        }
      }
    }
    if SortedDesc(s) {
      forall i | 0 <= i < |t| ensures t[i] <= h {
        assert s[0] >= s[i + 1];
      }
      forall i, j | 0 <= i < j < |t| ensures t[i] >= t[j] {
        assert s[i + 1] >= s[j + 1];
      }
    }
  }

  /** The largest element of a descending list is its head. */
  lemma HeadIsMax(s: seq<nat>, x: nat)
    requires SortedDesc(s) && x in multiset(s)
    ensures s != [] && x <= s[0]
  {
    assert x in s;
    var i :| 0 <= i < |s| && s[i] == x;
  }

  /** Inserts x into a descending list before the first element smaller than x. */
  function Insert(x: nat, s: seq<nat>): (r: seq<nat>)
    ensures |r| == |s| + 1
    ensures multiset(r) == multiset(s) + multiset{x}
  {
    if s == [] || x >= s[0] then [x] + s
    else
      assert s == [s[0]] + s[1..];
      [s[0]] + Insert(x, s[1..])
  }

  lemma {:induction false} InsertSorted(x: nat, s: seq<nat>)
    requires SortedDesc(s)
    ensures SortedDesc(Insert(x, s))
    decreases |s|
  {
    if s == [] {
      SortedCons(x, s);
    } else if x >= s[0] {
      assert s == [s[0]] + s[1..];
      forall i | 0 <= i < |s| ensures s[i] <= x {
        assert s[0] >= s[i] || i == 0;
      }
      SortedCons(x, s);
    } else {
      assert s == [s[0]] + s[1..];
      SortedCons(s[0], s[1..]);
      InsertSorted(x, s[1..]);
      var rest := Insert(x, s[1..]);
      forall i | 0 <= i < |rest| ensures rest[i] <= s[0] {
        assert rest[i] in multiset(rest);
        if rest[i] != x {
          assert rest[i] in multiset(s[1..]);
          assert rest[i] in s[1..];
        }
      }
      SortedCons(s[0], rest);
    }
  }

  /** The pool in descending order of score (the comparator `(a, b) => b - a`). */
  function SortDesc(s: seq<nat>): (r: seq<nat>)
    ensures |r| == |s|
    ensures SortedDesc(r)
    ensures multiset(r) == multiset(s)
  {
    if s == [] then []
    else
      assert s == [s[0]] + s[1..];
      InsertSorted(s[0], SortDesc(s[1..]));
      Insert(s[0], SortDesc(s[1..]))
  }

  /** Removing the head of a list removes one occurrence of it from the multiset. */
  lemma MultisetTail<T>(s: seq<T>)
    requires s != []
    ensures multiset(s[1..]) == multiset(s) - multiset{s[0]}
  {
    assert s == [s[0]] + s[1..];
  }

  /** Two descending lists with one multiset start alike and go on with one multiset. */
  lemma SameHead(s: seq<nat>, t: seq<nat>)
    requires SortedDesc(s) && SortedDesc(t) && s != []
    requires multiset(s) == multiset(t)
    ensures t != [] && s[0] == t[0]
    ensures SortedDesc(s[1..]) && SortedDesc(t[1..])
    ensures multiset(s[1..]) == multiset(t[1..])
  {
    assert s[0] in multiset(s);
    HeadIsMax(t, s[0]);
    assert t[0] in multiset(t);
    HeadIsMax(s, t[0]);
    MultisetTail(s);
    MultisetTail(t);
    SortedTail(s);
    SortedTail(t);
  }

  /** A descending list is determined by its multiset of scores. */
  lemma {:induction false} SortedDescUnique(s: seq<nat>, t: seq<nat>)
    requires SortedDesc(s) && SortedDesc(t)
    requires multiset(s) == multiset(t)
    ensures s == t
    decreases |s|
  {
    if s != [] {
      SameHead(s, t);
      SortedDescUnique(s[1..], t[1..]);
      assert s == [s[0]] + s[1..] && t == [t[0]] + t[1..];
    }
  }

  /** Array.prototype.slice(0, k): the first k elements; a negative k counts from the end. */
  function Slice(s: seq<nat>, k: int): seq<nat> {
    if k >= 0 then s[..if k < |s| then k else |s|]
    else s[..if |s| + k > 0 then |s| + k else 0]
  }

  /** The ideal list: the pool own ++ target, sorted descending, sliced to k. */
  function IdealScores(own: seq<nat>, target: seq<nat>, k: int): seq<nat> {
    Slice(SortDesc(own + target), k)
  }

  /** The shared IDCG: the DCG@k of the ideal list. */
  function Idcg(own: seq<nat>, target: seq<nat>, k: int, d: nat -> real): real
    requires ValidDiscount(d)
  {
    Dcg(IdealScores(own, target, k), k, d)
  }

  /**
   * The ideal list is in descending order, has min(|own| + |target|, k) scores for a
   * non-negative k, and is drawn from the pool.
   */
  lemma IdealScoresShape(own: seq<nat>, target: seq<nat>, k: int)
    ensures SortedDesc(IdealScores(own, target, k))
    ensures k >= 0 ==> |IdealScores(own, target, k)| == if |own| + |target| < k then |own| + |target| else k
    ensures multiset(IdealScores(own, target, k)) <= multiset(own + target)
  {
    var sorted := SortDesc(own + target);
    var n := |IdealScores(own, target, k)|;
    SortedPrefix(sorted, n);
    PrefixDrawn(sorted, n);
  }

  /** A prefix of a descending list is descending. */
  lemma SortedPrefix(s: seq<nat>, n: nat)
    requires SortedDesc(s) && n <= |s|
    ensures SortedDesc(s[..n])
  {
    assert forall i :: 0 <= i < n ==> s[..n][i] == s[i];
  }

  /** A prefix holds no score more often than the whole list. */
  lemma PrefixDrawn(s: seq<nat>, n: nat)
    requires n <= |s|
    ensures multiset(s[..n]) <= multiset(s)
  {
    assert s == s[..n] + s[n..];
    assert multiset(s) == multiset(s[..n]) + multiset(s[n..]);
  }

  /** The ideal list, and so the IDCG, does not depend on which group is "own". */
  lemma IdealScoresSymmetric(own: seq<nat>, target: seq<nat>, k: int, d: nat -> real)
    requires ValidDiscount(d)
    ensures IdealScores(own, target, k) == IdealScores(target, own, k)
    ensures Idcg(own, target, k, d) == Idcg(target, own, k, d)
  {
    assert multiset(own + target) == multiset(target + own);
    SortedDescUnique(SortDesc(own + target), SortDesc(target + own));
  }

  /** The ideal list is the slice of any descending arrangement of the pool. */
  lemma IdealFromArrangement(own: seq<nat>, target: seq<nat>, k: int, q: seq<nat>)
    requires SortedDesc(q) && multiset(q) == multiset(own + target)
    ensures IdealScores(own, target, k) == Slice(q, k)
  {
    SortedDescUnique(SortDesc(own + target), q);
  }

  /** The position of a largest score. */
  function ArgMax(s: seq<nat>): (i: nat)
    requires s != []
    ensures i < |s|
    ensures forall j :: 0 <= j < |s| ==> s[j] <= s[i]
  {
    if |s| == 1 then 0
    else
      var t := ArgMax(s[1..]);
      if s[0] >= s[1..][t] then 0 else t + 1
  }

  /**
   * What is left of s once its largest score s[t] is moved to the front and dropped:
   * s[0] takes the largest score's place.
   */
  function WithoutMax(s: seq<nat>): (r: seq<nat>)
    requires s != []
    ensures multiset(r) == multiset(s) - multiset{s[ArgMax(s)]}
    ensures |r| == |s| - 1
  {
    var t := ArgMax(s);
    assert s == [s[0]] + s[1..];
    if t == 0 then s[1..] else s[1..][t - 1 := s[0]]
  }

  /** Moving the largest score to the front does not lower a ranked sum. */
  lemma MaxToFront(s: seq<nat>, start: nat, d: nat -> real)
    requires ValidDiscount(d) && start >= 1 && s != []
    ensures RankedSum(s, start, d) <= Term(s[ArgMax(s)], start, d) + RankedSum(WithoutMax(s), start + 1, d)
  {
    var t := ArgMax(s);
    if t > 0 {
      RankedSumUpdate(s[1..], t - 1, s[0], start + 1, d);
      Exchange(s[0], s[t], start, start + t, d);
    }
  }

  /** Drawing m from s and q's head from q keeps what is left of s drawn from what is left of q. */
  lemma RestDrawn(s: seq<nat>, q: seq<nat>)
    requires s != [] && SortedDesc(q) && multiset(s) <= multiset(q)
    ensures q != [] && s[ArgMax(s)] <= q[0]
    ensures multiset(WithoutMax(s)) <= multiset(q[1..])
  {
    var m := s[ArgMax(s)];
    assert m in multiset(s);
    HeadIsMax(q, m);
    MultisetTail(q);
    var ms, mq := multiset(s), multiset(q);
    if m < q[0] {
      assert forall i :: 0 <= i < |s| ==> s[i] < q[0];
      assert q[0] !in s;
      assert ms[q[0]] == 0;
    }
    forall x ensures (ms - multiset{m})[x] <= (mq - multiset{q[0]})[x] {
      assert ms[x] <= mq[x];
    }
  }

  /**
   * Rearrangement: the ranked sum of any list whose scores are drawn from a
   * descending list q is at most the ranked sum of the same number of q's leading
   * scores.
   */
  lemma {:induction false} Dominated(s: seq<nat>, q: seq<nat>, start: nat, d: nat -> real)
    requires ValidDiscount(d) && start >= 1
    requires SortedDesc(q) && multiset(s) <= multiset(q)
    ensures |s| <= |q|
    ensures RankedSum(s, start, d) <= RankedSum(q[..|s|], start, d)
    decreases |s|
  {
    SubMultisetShorter(s, q);
    if s != [] {
      var s1 := WithoutMax(s);
      var m := s[ArgMax(s)];
      MaxToFront(s, start, d);
      RestDrawn(s, q);
      TermMonotoneInRel(m, q[0], start, d);
      SortedTail(q);
      Dominated(s1, q[1..], start + 1, d);
      PrefixSplit(q, |s|, start, d);
    }
  }

  /** A list drawn from another is no longer than it. */
  lemma SubMultisetShorter(s: seq<nat>, q: seq<nat>)
    requires multiset(s) <= multiset(q)
    ensures |s| <= |q|
  {
    var rest := multiset(q) - multiset(s);
    assert multiset(q) == multiset(s) + rest;
    assert |multiset(q)| == |multiset(s)| + |rest|;
    assert |multiset(s)| == |s| && |multiset(q)| == |q|;
  }

  lemma SortedTail(q: seq<nat>)
    requires SortedDesc(q) && q != []
    ensures SortedDesc(q[1..])
  {
    forall i, j | 0 <= i < j < |q| - 1 ensures q[1..][i] >= q[1..][j] {
      assert q[i + 1] >= q[j + 1];
    }
  }

  /** The ranked sum of a non-empty prefix is its first term plus the rest one rank later. */
  lemma PrefixSplit(q: seq<nat>, n: nat, start: nat, d: nat -> real)
    requires ValidDiscount(d) && start >= 1 && 1 <= n <= |q|
    ensures RankedSum(q[..n], start, d) == Term(q[0], start, d) + RankedSum(q[1..][..n - 1], start + 1, d)
  {
    assert q[..n][1..] == q[1..][..n - 1];
  }

  /**
   * The heart of the normalisation: each group's DCG@k is at most the shared IDCG,
   * because the descending top k of the pool dominates either group's own top k.
   */
  lemma DcgAtMostIdcg(own: seq<nat>, target: seq<nat>, k: int, d: nat -> real)
    requires ValidDiscount(d)
    ensures Dcg(own, k, d) <= Idcg(own, target, k, d)
    ensures Dcg(target, k, d) <= Idcg(own, target, k, d)
  {
    OwnDcgAtMostIdcg(own, target, k, d);
    OwnDcgAtMostIdcg(target, own, k, d);
    IdealScoresSymmetric(own, target, k, d);
  }

  /** The ideal list for k > 0 is the (whole) list its DCG@k sums over. */
  lemma IdealIsCut(own: seq<nat>, target: seq<nat>, k: int)
    requires k > 0
    ensures IdealScores(own, target, k) == SortDesc(own + target)[..Cutoff(|own + target|, k)]
    ensures var ideal := IdealScores(own, target, k); ideal[..Cutoff(|ideal|, k)] == ideal
  {
  }

  lemma OwnDcgAtMostIdcg(own: seq<nat>, target: seq<nat>, k: int, d: nat -> real)
    requires ValidDiscount(d)
    ensures Dcg(own, k, d) <= Idcg(own, target, k, d)
  {
    var ideal := IdealScores(own, target, k);
    if k > 0 {
      var q := SortDesc(own + target);
      var n := Cutoff(|own|, k);
      OwnTopDrawn(own, target, n);
      Dominated(own[..n], q, 1, d);
      assert n <= Cutoff(|own + target|, k);
      IdealCoversTop(own, target, k, n, d);
    } else {
      DcgEmptyOrNoCutoff(own, k, d);
      DcgNonNegative(ideal, k, d);
    }
  }

  /** A group's leading scores are drawn from the sorted pool. */
  lemma OwnTopDrawn(own: seq<nat>, target: seq<nat>, n: nat)
    requires n <= |own|
    ensures multiset(own[..n]) <= multiset(SortDesc(own + target))
  {
    PrefixInPool(own, target, n);
  }

  /** A group's leading scores occur in the pool at least as often. */
  lemma PrefixInPool(own: seq<nat>, target: seq<nat>, n: nat)
    requires n <= |own|
    ensures multiset(own[..n]) <= multiset(own + target)
  {
    PrefixDrawn(own, n);
    assert multiset(own + target) == multiset(own) + multiset(target);
  }

  /** The IDCG is at least the ranked sum of any prefix of the ideal list: the sorted pool's first n <= min(|own| + |target|, k) scores. */
  lemma IdealCoversTop(own: seq<nat>, target: seq<nat>, k: int, n: nat, d: nat -> real)
    requires ValidDiscount(d) && k > 0 && n <= Cutoff(|own + target|, k)
    ensures n <= |SortDesc(own + target)|
    ensures RankedSum(SortDesc(own + target)[..n], 1, d) <= Idcg(own, target, k, d)
  {
    IdealIsCut(own, target, k);
    IdcgIsIdealSum(own, target, k, d);
    ShorterCutBelow(SortDesc(own + target), Cutoff(|own + target|, k), n, d);
  }

  /** Cutting a list shorter never raises its ranked sum. */
  lemma ShorterCutBelow(s: seq<nat>, m: nat, n: nat, d: nat -> real)
    requires ValidDiscount(d) && n <= m <= |s|
    ensures RankedSum(s[..n], 1, d) <= RankedSum(s[..m], 1, d)
  {
    assert s[..m][..n] == s[..n];
    RankedSumPrefix(s[..m], n, 1, d);
  }

  /** For k > 0 the IDCG sums the whole ideal list. */
  lemma IdcgIsIdealSum(own: seq<nat>, target: seq<nat>, k: int, d: nat -> real)
    requires ValidDiscount(d) && k > 0
    ensures Idcg(own, target, k, d) == RankedSum(IdealScores(own, target, k), 1, d)
  {
    IdealIsCut(own, target, k);
  }

  /** The shared IDCG is 0 exactly when k <= 0 or every score of both groups is 0. */
  lemma IdcgZeroIff(own: seq<nat>, target: seq<nat>, k: int, d: nat -> real)
    requires ValidDiscount(d)
    ensures Idcg(own, target, k, d) == 0.0
        <==> k <= 0 || ((forall i :: 0 <= i < |own| ==> own[i] == 0)
                        && (forall i :: 0 <= i < |target| ==> target[i] == 0))
  {
    var ideal := IdealScores(own, target, k);
    if k <= 0 {
      DcgEmptyOrNoCutoff(ideal, k, d);
    } else {
      IdealIsCut(own, target, k);
      RankedSumZeroIff(ideal, 1, d);
      if (forall i :: 0 <= i < |own| ==> own[i] == 0) && (forall i :: 0 <= i < |target| ==> target[i] == 0) {
        ZeroPoolIdeal(own, target, k);
      } else {
        ScoredPoolIdeal(own, target, k);
      }
    }
  }

  /** A pool of zeros has an ideal list of zeros. */
  lemma ZeroPoolIdeal(own: seq<nat>, target: seq<nat>, k: int)
    requires forall i :: 0 <= i < |own| ==> own[i] == 0
    requires forall i :: 0 <= i < |target| ==> target[i] == 0
    ensures forall i :: 0 <= i < |IdealScores(own, target, k)| ==> IdealScores(own, target, k)[i] == 0
  {
    var pool, ideal := own + target, IdealScores(own, target, k);
    IdealScoresShape(own, target, k);
    forall i | 0 <= i < |ideal| ensures ideal[i] == 0 {
      assert ideal[i] in multiset(pool);
    }
  }

  /** A pool holding a positive score has one at the head of its ideal list, for k > 0. */
  lemma ScoredPoolIdeal(own: seq<nat>, target: seq<nat>, k: int)
    requires k > 0
    requires !((forall i :: 0 <= i < |own| ==> own[i] == 0) && (forall i :: 0 <= i < |target| ==> target[i] == 0))
    ensures IdealScores(own, target, k) != [] && IdealScores(own, target, k)[0] != 0
  {
    var pool := own + target;
    var q := SortDesc(pool);
    var x: nat;
    if exists i :: 0 <= i < |own| && own[i] != 0 {
      var i :| 0 <= i < |own| && own[i] != 0;
      x := own[i];
      assert pool[i] == x;
    } else {
      var i :| 0 <= i < |target| && target[i] != 0;
      x := target[i];
      assert pool[|own| + i] == x;
    }
    assert x in multiset(q);
    HeadIsMax(q, x);
  }

  /** Swaps two neighbouring elements of an array. */
  method SwapWithPrevious(a: array<nat>, j: nat)
    requires 0 < j < a.Length
    modifies a
    ensures a[..] == old(a[..])[j - 1 := old(a[j])][j := old(a[j - 1])]
    ensures multiset(a[..]) == multiset(old(a[..]))
  {
    a[j - 1], a[j] := a[j], a[j - 1];
  }

  /** Moves a[i] left past every smaller element, extending the sorted prefix by one. */
  method SinkLeft(a: array<nat>, i: nat)
    requires i < a.Length && SortedDesc(a[..i])
    modifies a
    ensures SortedDesc(a[..i + 1])
    ensures multiset(a[..]) == multiset(old(a[..]))
  {
    var j := i;
    while j > 0 && a[j - 1] < a[j]
      invariant 0 <= j <= i
      invariant forall p, q :: 0 <= p < q <= i && p != j && q != j ==> a[p] >= a[q]
      invariant forall q :: j < q <= i ==> a[j] >= a[q]
      invariant multiset(a[..]) == multiset(old(a[..]))
    {
      SwapWithPrevious(a, j);
      j := j - 1;
    }
    forall p, q | 0 <= p < q <= i ensures a[p] >= a[q] {
      if p == j && j > 0 {
      } else if q == j && j > 0 {
        assert a[p] >= a[j - 1] || p == j - 1;
      }
    }
  }

  /** Sorts an array in place into descending order (insertion sort by adjacent swaps). */
  method SortDescending(a: array<nat>)
    modifies a
    ensures SortedDesc(a[..])
    ensures multiset(a[..]) == multiset(old(a[..]))
  {
    var i := 0;
    while i < a.Length
      invariant 0 <= i <= a.Length
      invariant SortedDesc(a[..i])
      invariant multiset(a[..]) == multiset(old(a[..]))
    {
      SinkLeft(a, i);
      i := i + 1;
    }
    assert a[..a.Length] == a[..];
  }

  /**
   * idcgCombined: copies both groups into one fresh array, sorts that copy in place,
   * slices it to k and takes its DCG@k. The inputs are values, so they cannot change.
   */
  method IdcgCombined(own: seq<nat>, target: seq<nat>, k: int, d: nat -> real)
    returns (idealScores: seq<nat>, idcg: real)
    requires ValidDiscount(d)
    ensures idealScores == IdealScores(own, target, k)
    ensures idcg == Idcg(own, target, k, d)
  {
    var pool := own + target;
    var combined := new nat[|pool|](i requires 0 <= i < |pool| => pool[i]);
    assert combined[..] == pool;
    SortDescending(combined);
    SortedDescUnique(combined[..], SortDesc(pool));
    idealScores := Slice(combined[..], k);
    idcg := DcgAtK(idealScores, k, d);
  }
}
