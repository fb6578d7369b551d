/**
 * The result stage: splitting the rated (shuffled) items back into their two groups in
 * entry order, turning their scores into the four NDCG inputs, the per-group averages,
 * the score labels, and the tab-separated text copied for a spreadsheet.
 */
module Results {
  import opened Wrappers
  import opened Text
  import opened Items
  import opened Discounted
  import opened NdcgEngine
  import Ideal

  /** items.filter(item => item.group === g), in the order of `items`. */
  function Filter(items: seq<Item>, g: Group): (r: seq<Item>)
    ensures |r| <= |items|
    ensures forall i :: 0 <= i < |r| ==> r[i].group == g
  {
    if items == [] then []
    else if items[0].group == g then [items[0]] + Filter(items[1..], g)
    else Filter(items[1..], g)
  }

  /** Filtering keeps every copy of an item of the group and no copy of any other. */
  lemma {:induction false} FilterCount(items: seq<Item>, g: Group, x: Item)
    ensures multiset(Filter(items, g))[x] == if x.group == g then multiset(items)[x] else 0
  {
    if items != [] {
      FilterCount(items[1..], g, x);
      assert items == [items[0]] + items[1..];
    }
  }

  /** Filtering a permutation gives a permutation of the filtered list. */
  lemma FilterOfPermutation(s: seq<Item>, t: seq<Item>, g: Group)
    requires multiset(s) == multiset(t)
    ensures multiset(Filter(s, g)) == multiset(Filter(t, g))
  {
    forall x: Item
      ensures multiset(Filter(s, g))[x] == multiset(Filter(t, g))[x]
    {
      FilterCount(s, g, x);
      FilterCount(t, g, x);
    }
  }

  /** Filtering distributes over concatenation. */
  lemma {:induction false} FilterAppend(s: seq<Item>, t: seq<Item>, g: Group)
    ensures Filter(s + t, g) == Filter(s, g) + Filter(t, g)
  {
    if s != [] {
      FilterAppend(s[1..], t, g);
      assert (s + t)[1..] == s[1..] + t;
    } else {
      assert s + t == t;
    }
  }

  /** A list entirely of group g filters to itself; one with none of g filters to []. */
  lemma {:induction false} FilterWhole(s: seq<Item>, g: Group)
    ensures (forall i :: 0 <= i < |s| ==> s[i].group == g) ==> Filter(s, g) == s
    ensures (forall i :: 0 <= i < |s| ==> s[i].group != g) ==> Filter(s, g) == []
  {
    if s != [] {
      FilterWhole(s[1..], g);
      assert s == [s[0]] + s[1..];
    }
  }

  predicate SortedByIndex(s: seq<Item>) {
    forall i, j :: 0 <= i < j < |s| ==> s[i].originalIndex <= s[j].originalIndex
  }

  /** `x` placed before the first item of `s` with an index at least its own. */
  function InsertByIndex(x: Item, s: seq<Item>): (r: seq<Item>)
    ensures |r| == |s| + 1 && multiset(r) == multiset(s) + multiset{x}
  {
    if s == [] || x.originalIndex <= s[0].originalIndex then [x] + s
    else
      var rest := InsertByIndex(x, s[1..]);
      assert s == [s[0]] + s[1..];
      [s[0]] + rest
  }

  lemma {:induction false} InsertByIndexSorted(x: Item, s: seq<Item>)
    requires SortedByIndex(s)
    ensures SortedByIndex(InsertByIndex(x, s))
  {
    if s != [] && x.originalIndex > s[0].originalIndex {
      InsertByIndexSorted(x, s[1..]);
      var rest := InsertByIndex(x, s[1..]);
      forall y | y in rest
        ensures s[0].originalIndex <= y.originalIndex
      {
        assert y in multiset(rest);
        if y != x {
          assert y in multiset(s[1..]);
          var k :| 0 <= k < |s[1..]| && s[1..][k] == y;
          assert s[k + 1] == y;
        }
      }
      SortedByIndexCons(s[0], rest);
    } else {
      forall y | y in s
        ensures x.originalIndex <= y.originalIndex
      {
        var k :| 0 <= k < |s| && s[k] == y;
        assert s[0].originalIndex <= s[k].originalIndex;
      }
      SortedByIndexCons(x, s);
    }
  }

  /** An item no later than everything in a sorted list can go in front of it. */
  lemma SortedByIndexCons(h: Item, t: seq<Item>)
    requires SortedByIndex(t)
    requires forall y | y in t :: h.originalIndex <= y.originalIndex
    ensures SortedByIndex([h] + t)
  {
    var r := [h] + t;
    forall i, j | 0 <= i < j < |r|
      ensures r[i].originalIndex <= r[j].originalIndex
    {
      assert r[j] == t[j - 1];
      if i > 0 {
        assert r[i] == t[i - 1];
      }
    }
  }

  /**
   * s.sort((a, b) => a.originalIndex - b.originalIndex): the stable sort by
   * originalIndex (Array.prototype.sort is stable), a permutation of `s` in
   * ascending index order.
   */
  function SortByIndex(s: seq<Item>): (r: seq<Item>)
    ensures |r| == |s| && multiset(r) == multiset(s)
    ensures SortedByIndex(r)
  {
    if s == [] then []
    else
      var rest := SortByIndex(s[1..]);
      InsertByIndexSorted(s[0], rest);
      Ideal.MultisetTail(s);
      InsertByIndex(s[0], rest)
  }

  /**
   * groupAItems / groupBItems: the items of group g, ordered by originalIndex. They are
   * exactly the items of that group, each as often as in `items`.
   */
  function GroupItems(items: seq<Item>, g: Group): (r: seq<Item>)
    ensures SortedByIndex(r)
    ensures multiset(r) == multiset(Filter(items, g))
  {
    SortByIndex(Filter(items, g))
  }

  /** The grouped items are exactly the items of that group, each as often as in `items`. */
  lemma GroupItemsMembers(items: seq<Item>, g: Group, x: Item)
    ensures multiset(GroupItems(items, g))[x] == if x.group == g then multiset(items)[x] else 0
    ensures x in GroupItems(items, g) <==> x in items && x.group == g
  {
    FilterCount(items, g, x);
  }

  /** A group's items as processText numbered them: all in g, item i at index i. */
  predicate Numbered(s: seq<Item>, g: Group) {
    forall i :: 0 <= i < |s| ==> s[i].group == g && s[i].originalIndex == i
  }

  /** The head of a list sorted by index has the least index in it. */
  lemma SortedHeadLeast(r: seq<Item>, x: Item)
    requires SortedByIndex(r) && x in r
    ensures r[0].originalIndex <= x.originalIndex
  {
    var j :| 0 <= j < |r| && r[j] == x;
    if j > 0 {
      assert r[0].originalIndex <= r[j].originalIndex;
    }
  }

  /** A sorted list with the items of a list numbered from `offset` starts with its head. */
  lemma SameFirst(r: seq<Item>, q: seq<Item>, offset: nat)
    requires SortedByIndex(r) && multiset(r) == multiset(q) && q != []
    requires forall i :: 0 <= i < |q| ==> q[i].originalIndex == offset + i
    ensures r != [] && r[0] == q[0]
  {
    assert q[0] in multiset(r);
    assert r[0] in multiset(q);
    SortedHeadLeast(r, q[0]);
    var j :| 0 <= j < |q| && q[j] == r[0];
    assert q[j].originalIndex == offset + j <= q[0].originalIndex == offset;
  }

  /**
   * Sorting by index is determined by the multiset when the indices are distinct: a
   * sorted list with the items of a numbered list is that list.
   */
  lemma {:induction false} SortedEqualsNumbered(r: seq<Item>, q: seq<Item>, offset: nat)
    requires SortedByIndex(r) && multiset(r) == multiset(q)
    requires forall i :: 0 <= i < |q| ==> q[i].originalIndex == offset + i
    ensures r == q
    decreases |q|
  {
    if q == [] {
      assert |r| == |multiset(r)| == 0;
    } else {
      SameFirst(r, q, offset);
      Ideal.MultisetTail(r);
      Ideal.MultisetTail(q);
      assert SortedByIndex(r[1..]);
      SortedEqualsNumbered(r[1..], q[1..], offset + 1);
      assert r == [r[0]] + r[1..] && q == [q[0]] + q[1..];
    }
  }

  /**
   * Whatever order the items are in (in particular whatever the shuffle did), grouping
   * and sorting by originalIndex gives back both groups exactly as they were entered.
   */
  lemma GroupsRecovered(items: seq<Item>, itemsA: seq<Item>, itemsB: seq<Item>)
    requires Numbered(itemsA, A) && Numbered(itemsB, B)
    requires multiset(items) == multiset(itemsA + itemsB)
    ensures GroupItems(items, A) == itemsA
    ensures GroupItems(items, B) == itemsB
  {
    assert Filter(itemsA + itemsB, A) == itemsA by {
      FilterAppend(itemsA, itemsB, A);
      FilterWhole(itemsA, A);
      FilterWhole(itemsB, A);
    }
    assert Filter(itemsA + itemsB, B) == itemsB by {
      FilterAppend(itemsA, itemsB, B);
      FilterWhole(itemsA, B);
      FilterWhole(itemsB, B);
    }
    GroupRecovered(items, itemsA + itemsB, itemsA, A);
    GroupRecovered(items, itemsA + itemsB, itemsB, B);
  }

  /** Regrouping a permutation of `pool` gives back the group that `pool` numbers 0, 1, 2, ... */
  lemma GroupRecovered(items: seq<Item>, pool: seq<Item>, group: seq<Item>, g: Group)
    requires Numbered(group, g) && Filter(pool, g) == group
    requires multiset(items) == multiset(pool)
    ensures GroupItems(items, g) == group
  {
    FilterOfPermutation(items, pool, g);
    SortedEqualsNumbered(GroupItems(items, g), group, 0);
  }

  /** groupItems.map(item => item[field] || 0): null (and 0) become 0, other scores stay. */
  function Scores(s: seq<Item>, field: ScoreField): (r: seq<nat>)
    ensures |r| == |s|
    ensures forall i :: 0 <= i < |s| && Score(s[i], field).Some? ==> r[i] == Score(s[i], field).value
    ensures forall i :: 0 <= i < |s| && Score(s[i], field) == None ==> r[i] == 0
    ensures forall i :: 0 <= i < |s| ==> (r[i] == 0 <==> Score(s[i], field) in {None, Some(0)})
  {
    seq(|s|, i requires 0 <= i < |s| => Score(s[i], field).GetOr(0))
  }

  /** The NDCG figures the result stage shows for the rated items. */
  function ResultNdcg(items: seq<Item>, d: nat -> real): NdcgOutput
    requires ValidDiscount(d)
  {
    var ga, gb := GroupItems(items, A), GroupItems(items, B);
    Calculate(Scores(ga, ContentScore), Scores(ga, TimelinessScore),
              Scores(gb, ContentScore), Scores(gb, TimelinessScore), d)
  }

  /**
   * The NDCG figures do not depend on the shuffle: they are those of the two groups in
   * entry order, own = group A and target = group B.
   */
  lemma ResultNdcgIgnoresShuffle(items: seq<Item>, itemsA: seq<Item>, itemsB: seq<Item>, d: nat -> real)
    requires ValidDiscount(d)
    requires Numbered(itemsA, A) && Numbered(itemsB, B)
    requires multiset(items) == multiset(itemsA + itemsB)
    ensures ResultNdcg(items, d)
         == Calculate(Scores(itemsA, ContentScore), Scores(itemsA, TimelinessScore),
                      Scores(itemsB, ContentScore), Scores(itemsB, TimelinessScore), d)
  {
    GroupsRecovered(items, itemsA, itemsB);
  }

  function Total(s: seq<nat>): nat {
    if s == [] then 0 else s[0] + Total(s[1..])
  }

  lemma {:induction false} TotalBound(s: seq<nat>, m: nat)
    requires forall i :: 0 <= i < |s| ==> s[i] <= m
    ensures Total(s) <= |s| * m
  {
    if s != [] {
      TotalBound(s[1..], m);
    }
  }

  /**
   * calculateAverage before toFixed(2): 0 for an empty group, otherwise the sum of the
   * scores (null counted as 0) over the number of items.
   */
  function Average(s: seq<Item>, field: ScoreField): (r: real)
    ensures s == [] ==> r == 0.0
    ensures s != [] ==> r * |s| as real == Total(Scores(s, field)) as real
  {
    if |s| == 0 then 0.0 else Total(Scores(s, field)) as real / |s| as real
  }

  /** A non-negative total of at most n times m, shared out over n, is at most m. */
  lemma ShareBound(t: real, n: real, m: real)
    requires n > 0.0 && 0.0 <= t <= n * m
    ensures 0.0 <= t / n <= m
  {
    assert t / n * n == t;
  }

  /** The average lies between 0 and the largest score given. */
  lemma AverageBounds(s: seq<Item>, field: ScoreField, m: nat)
    requires forall i :: 0 <= i < |s| ==> Score(s[i], field).GetOr(0) <= m
    ensures 0.0 <= Average(s, field) <= m as real
  {
    if s != [] {
      TotalBound(Scores(s, field), m);
      var n := |s| as real;
      var t := Total(Scores(s, field)) as real;
      assert (|s| * m) as real == n * m as real;
      ShareBound(t, n, m as real);
    }
  }

  datatype Badge = Badge(name: string, color: string)

  /** getRatingLabel: the label and badge colour of a score. */
  function RatingLabel(score: Option<nat>): Badge {
    match score
    case Some(5) => Badge("Excellent", "green")
    case Some(4) => Badge("Good", "blue")
    case Some(2) => Badge("Fair", "yellow")
    case Some(0) => Badge("Bad", "red")
    case _ => Badge("Unrated", "gray")
  }

  /** The scores the rating buttons produce. */
  predicate OnScale(score: nat) {
    score in {5, 4, 2, 0}
  }

  /**
   * A score gets a real label exactly when it is on the 5/4/2/0 scale, and different
   * scale values get different labels, so a label names its score.
   */
  lemma RatingLabelTable(x: Option<nat>, y: Option<nat>)
    ensures RatingLabel(x).name == "Unrated" <==> !(x.Some? && OnScale(x.value))
    ensures RatingLabel(x).color == "gray" <==> RatingLabel(x).name == "Unrated"
    ensures x.Some? && OnScale(x.value) && RatingLabel(x).name == RatingLabel(y).name ==> x == y
  {
  }

  /** The label texts contain neither a tab nor a line break. */
  lemma LabelHasNoBreaks(x: Option<nat>)
    ensures '\t' !in RatingLabel(x).name && '\n' !in RatingLabel(x).name
  {
  }

  /** One exported row: text, content label and timeliness label, separated by tabs. */
  function ExportLine(item: Item): string {
    item.text + "\t" + RatingLabel(item.contentScore).name + "\t"
      + RatingLabel(item.timelinessScore).name
  }

  /** The text copyToClipboard builds: one row per item, in group order, joined by '\n'. */
  function ExportText(s: seq<Item>): string {
    Join(seq(|s|, i requires 0 <= i < |s| => ExportLine(s[i])), '\n')
  }

  /** A row with no tab or line break in the item text splits back into its three cells. */
  lemma ExportLineCells(item: Item)
    requires '\t' !in item.text && '\n' !in item.text
    ensures '\n' !in ExportLine(item)
    ensures Split(ExportLine(item), '\t')
         == [item.text, RatingLabel(item.contentScore).name, RatingLabel(item.timelinessScore).name]
  {
    var c, t := RatingLabel(item.contentScore).name, RatingLabel(item.timelinessScore).name;
    LabelHasNoBreaks(item.contentScore);
    LabelHasNoBreaks(item.timelinessScore);
    var cells := [item.text, c, t];
    assert cells[1..][1..] == [t];
    assert Join(cells, '\t') == item.text + "\t" + (c + "\t" + t) by {
      JoinHead(cells, '\t');
      JoinHead(cells[1..], '\t');
    }
    assert ExportLine(item) == Join(cells, '\t');
    SplitOfJoin(cells, '\t');
  }

  /**
   * The copied text reads back as the group: split on line breaks it has one row per
   * item, in order, and each row splits on tabs into the text and its two labels, so
   * only labels and never numeric scores appear.
   */
  lemma ExportRoundTrip(s: seq<Item>)
    requires s != []
    requires forall i :: 0 <= i < |s| ==> '\t' !in s[i].text && '\n' !in s[i].text
    ensures |Split(ExportText(s), '\n')| == |s|
    ensures forall i :: 0 <= i < |s| ==>
      Split(Split(ExportText(s), '\n')[i], '\t')
        == [s[i].text, RatingLabel(s[i].contentScore).name, RatingLabel(s[i].timelinessScore).name]
  {
    var lines := seq(|s|, i requires 0 <= i < |s| => ExportLine(s[i]));
    forall i | 0 <= i < |s|
      ensures '\n' !in lines[i]
      ensures Split(lines[i], '\t')
           == [s[i].text, RatingLabel(s[i].contentScore).name, RatingLabel(s[i].timelinessScore).name]
    {
      ExportLineCells(s[i]);
    }
    SplitOfJoin(lines, '\n');
  }
}
