/**
 * The rating app's state: turning the two comma-separated inputs into numbered items,
 * shuffling them (Fisher-Yates), recording a rating by item id, and the
 * input -> rating -> result -> input stage machine.
 */
module RatingSession {
  import opened Wrappers
  import opened Text
  import opened Items
  import opened Results
  import opened Rating

  /**
   * .map(trim).filter(line => line.length > 0): the trimmed segments that are not
   * empty, in segment order.
   */
  function KeptTexts(parts: seq<string>): (r: seq<string>)
    ensures |r| <= |parts|
  {
    if parts == [] then []
    else if Trim(parts[0]) != [] then [Trim(parts[0])] + KeptTexts(parts[1..])
    else KeptTexts(parts[1..])
  }

  /** Every kept text is non-empty and has no whitespace at either end. */
  lemma {:induction false} KeptAreClean(parts: seq<string>)
    ensures forall i :: 0 <= i < |KeptTexts(parts)| ==>
      KeptTexts(parts)[i] != [] && Trimmed(KeptTexts(parts)[i])
  {
    if parts != [] {
      KeptAreClean(parts[1..]);
      var t, rest, r := Trim(parts[0]), KeptTexts(parts[1..]), KeptTexts(parts);
      if t != [] {
        assert r == [t] + rest;
        forall i | 0 <= i < |r|
          ensures r[i] != [] && Trimmed(r[i])
        {
          if i > 0 {
            assert r[i] == rest[i - 1];
          }
        }
      } else {
        assert r == rest;
      }
    }
  }

  /** Keeping distributes over concatenation of the segment lists. */
  lemma {:induction false} KeptAppend(p: seq<string>, q: seq<string>)
    ensures KeptTexts(p + q) == KeptTexts(p) + KeptTexts(q)
  {
    if p == [] {
      assert p + q == q;
    } else {
      assert (p + q)[1..] == p[1..] + q;
      KeptAppend(p[1..], q);
    }
  }

  /** Segments that are already trimmed and non-empty are all kept, unchanged. */
  lemma {:induction false} KeptOfClean(parts: seq<string>)
    requires forall i :: 0 <= i < |parts| ==> parts[i] != [] && Trimmed(parts[i])
    ensures KeptTexts(parts) == parts
  {
    if parts != [] {
      var h, rest := parts[0], parts[1..];
      TrimOfTrimmed(h);
      KeptOfClean(rest);
      KeptCons(h, rest);
      assert parts == [h] + rest;
    }
  }

  /** A segment that trims to itself and is not empty is kept as it is. */
  lemma KeptCons(h: string, rest: seq<string>)
    requires h != [] && Trim(h) == h
    ensures KeptTexts([h] + rest) == [h] + KeptTexts(rest)
  {
    assert ([h] + rest)[0] == h && ([h] + rest)[1..] == rest;
  }

  /** A kept text contains no character that none of the segments contains. */
  lemma {:induction false} KeptKeepsAbsence(parts: seq<string>, c: char)
    requires forall i :: 0 <= i < |parts| ==> c !in parts[i]
    ensures forall i :: 0 <= i < |KeptTexts(parts)| ==> c !in KeptTexts(parts)[i]
  {
    if parts != [] {
      var rest := parts[1..];
      assert forall i :: 0 <= i < |rest| ==> c !in rest[i] by {
        forall i | 0 <= i < |rest| ensures c !in rest[i] {
          assert rest[i] == parts[i + 1];
        }
      }
      KeptKeepsAbsence(rest, c);
      TrimKeepsAbsence(parts[0], c);
      var t, kept, r := Trim(parts[0]), KeptTexts(rest), KeptTexts(parts);
      if t != [] {
        assert r == [t] + kept;
        forall i | 0 <= i < |r|
          ensures c !in r[i]
        {
          if i > 0 {
            assert r[i] == kept[i - 1];
          }
        }
      } else {
        assert r == kept;
      }
    }
  }

  /** Segments that all trim to nothing are all dropped. */
  lemma {:induction false} KeptOfBlank(parts: seq<string>)
    requires forall i :: 0 <= i < |parts| ==> Trim(parts[i]) == []
    ensures KeptTexts(parts) == []
  {
    if parts != [] {
      KeptOfBlank(parts[1..]);
    }
  }

  /**
   * processText: one item per comma-separated segment whose trimmed text is not empty,
   * in segment order. Item i has id ids(i), the trimmed text, the given group,
   * originalIndex i (counted after filtering) and no scores yet.
   */
  function ProcessText(text: string, group: Group, ids: nat -> string): (r: seq<Item>)
    ensures Numbered(r, group)
    ensures |r| == |KeptTexts(Split(text, ','))|
    ensures forall i :: 0 <= i < |r| ==>
      r[i].text == KeptTexts(Split(text, ','))[i] && r[i].id == ids(i)
      && r[i].contentScore == None && r[i].timelinessScore == None
  {
    var kept := KeptTexts(Split(text, ','));
    seq(|kept|, i requires 0 <= i < |kept| => Item(ids(i), kept[i], group, i, None, None))
  }

  /** Every item text is non-empty, has no surrounding whitespace and no comma. */
  lemma ProcessTextClean(text: string, group: Group, ids: nat -> string)
    ensures forall i :: 0 <= i < |ProcessText(text, group, ids)| ==>
      var t := ProcessText(text, group, ids)[i].text;
      t != [] && Trimmed(t) && ',' !in t
  {
    KeptAreClean(Split(text, ','));
    KeptKeepsAbsence(Split(text, ','), ',');
  }

  /**
   * Entering clean texts (non-empty, no surrounding whitespace, no comma) separated by
   * commas gives one item per text, carrying exactly that text, in order.
   */
  lemma ProcessTextOfJoin(texts: seq<string>, group: Group, ids: nat -> string)
    requires texts != []
    requires forall i :: 0 <= i < |texts| ==> texts[i] != [] && Trimmed(texts[i]) && ',' !in texts[i]
    ensures |ProcessText(Join(texts, ','), group, ids)| == |texts|
    ensures forall i :: 0 <= i < |texts| ==> ProcessText(Join(texts, ','), group, ids)[i].text == texts[i]
  {
    SplitOfJoin(texts, ',');
    KeptOfClean(texts);
  }

  /** Input that is only commas and whitespace gives no items. */
  lemma BlankInputGivesNothing(text: string, group: Group, ids: nat -> string)
    requires forall c :: c in text ==> c == ',' || IsSpace(c)
    ensures ProcessText(text, group, ids) == []
  {
    var parts := Split(text, ',');
    forall j | 0 <= j < |parts|
      ensures Trim(parts[j]) == []
    {
      assert forall c :: c in parts[j] ==> c in text by {
        JoinContains(parts, ',', j);
      }
      TrimEmptyIff(parts[j]);
    }
    KeptOfBlank(parts);
  }

  /** Every character of a part occurs in the joined string. */
  lemma {:induction false} JoinContains(parts: seq<string>, sep: char, j: nat)
    requires j < |parts|
    ensures forall c :: c in parts[j] ==> c in Join(parts, sep)
  {
    if |parts| >= 2 {
      JoinHead(parts, sep);
      if j > 0 {
        JoinContains(parts[1..], sep, j - 1);
      }
    }
  }

  /** [s[i], s[j]] = [s[j], s[i]] on a value. */
  function Swap<T>(s: seq<T>, i: nat, j: nat): (r: seq<T>)
    requires i < |s| && j < |s|
    ensures |r| == |s|
  {
    s[i := s[j]][j := s[i]]
  }

  /** A swap moves items and neither adds nor drops any. */
  lemma SwapPermutes<T>(s: seq<T>, i: nat, j: nat)
    requires i < |s| && j < |s|
    ensures multiset(Swap(s, i, j)) == multiset(s)
  {
  }

  /**
   * The Fisher-Yates loop run for i = n - 1 down to 1, swapping position i with
   * position pick(i), where pick stands for Math.floor(Math.random() * (i + 1)).
   */
  function Shuffle<T>(s: seq<T>, pick: nat -> nat, n: nat): (r: seq<T>)
    requires n <= |s| && forall i :: pick(i) <= i
    ensures |r| == |s|
    decreases n
  {
    if n <= 1 then s else Shuffle(Swap(s, n - 1, pick(n - 1)), pick, n - 1)
  }

  /** Whatever the random picks, the shuffle is a permutation of its input. */
  lemma {:induction false} ShufflePermutes<T>(s: seq<T>, pick: nat -> nat, n: nat)
    requires n <= |s| && forall i :: pick(i) <= i
    ensures multiset(Shuffle(s, pick, n)) == multiset(s)
    decreases n
  {
    if n > 1 {
      SwapPermutes(s, n - 1, pick(n - 1));
      ShufflePermutes(Swap(s, n - 1, pick(n - 1)), pick, n - 1);
    }
  }

  /** The shuffle loop of handleInputNext, in place on a fresh copy of the items. */
  method ShuffleInPlace<T>(a: array<T>, pick: nat -> nat)
    requires forall i :: pick(i) <= i
    modifies a
    ensures a[..] == Shuffle(old(a[..]), pick, a.Length)
  {
    ghost var shuffled := Shuffle(a[..], pick, a.Length);
    var i := a.Length - 1;
    while i > 0
      invariant -1 <= i < a.Length
      invariant Shuffle(a[..], pick, i + 1) == shuffled
    {
      var j := pick(i);
      ghost var before := a[..];
      assert Shuffle(before, pick, i + 1) == Shuffle(Swap(before, i, j), pick, i);
      a[i], a[j] := a[j], a[i];
      assert a[..] == Swap(before, i, j);
      i := i - 1;
    }
  }

  /** const shuffled = [...allItems] followed by the shuffle loop. */
  method ShuffleCopy<T>(all: seq<T>, pick: nat -> nat) returns (shuffled: seq<T>)
    requires forall i :: pick(i) <= i
    ensures shuffled == Shuffle(all, pick, |all|)
  {
    if |all| == 0 {
      return all;
    }
    var a := new T[|all|](i requires 0 <= i < |all| => all[i]);
    assert a[..] == all;
    ShuffleInPlace(a, pick);
    shuffled := a[..];
  }

  /** handleRate's update of one item: the score set if the id matches, else unchanged. */
  function RateOne(item: Item, id: string, field: ScoreField, score: nat): (r: Item)
    ensures item.id != id ==> r == item
    ensures item.id == id ==> Score(r, field) == Some(score)
    ensures forall other: ScoreField :: other != field ==> Score(r, other) == Score(item, other)
    ensures r.id == item.id && r.text == item.text && r.group == item.group
    ensures r.originalIndex == item.originalIndex
  {
    if item.id == id then WithScore(item, field, score) else item
  }

  /**
   * handleRate's map: items whose id is `id` get that score in `field`; every other
   * item, and every other field, stays as it was, in the same order.
   */
  function Rate(items: seq<Item>, id: string, field: ScoreField, score: nat): (r: seq<Item>)
    ensures |r| == |items|
    ensures forall i :: 0 <= i < |items| ==> r[i] == RateOne(items[i], id, field, score)
  {
    if items == [] then []
    else [RateOne(items[0], id, field, score)] + Rate(items[1..], id, field, score)
  }

  /** Rating with the same score again changes nothing; a later score replaces an earlier one. */
  lemma RateTwice(items: seq<Item>, id: string, field: ScoreField, v: nat, w: nat)
    ensures Rate(Rate(items, id, field, v), id, field, w) == Rate(items, id, field, w)
  {
    var once, twice := Rate(items, id, field, v), Rate(items, id, field, w);
    forall i | 0 <= i < |items| && items[i].id == id
      ensures Rate(once, id, field, w)[i] == twice[i]
    {
      match field
      case ContentScore =>
      case TimelinessScore =>
    }
  }

  /** Ratings of different fields, or of items with different ids, can come in any order. */
  lemma RateCommutes(items: seq<Item>, id1: string, f1: ScoreField, v1: nat,
                     id2: string, f2: ScoreField, v2: nat)
    requires id1 != id2 || f1 != f2
    ensures Rate(Rate(items, id1, f1, v1), id2, f2, v2)
         == Rate(Rate(items, id2, f2, v2), id1, f1, v1)
  {
    var x, y := Rate(Rate(items, id1, f1, v1), id2, f2, v2), Rate(Rate(items, id2, f2, v2), id1, f1, v1);
    forall i | 0 <= i < |items|
      ensures x[i] == y[i]
    {
      if items[i].id == id1 && items[i].id == id2 {
        match f1
        case ContentScore =>
        case TimelinessScore =>
      }
    }
  }

  /** A click on an option of item i's scale sets that score of item i to the option's value. */
  lemma ClickSetsScore(items: seq<Item>, i: nat, field: ScoreField, option: RatingOption)
    requires i < |items|
    ensures var e := Click(items[i], field, option);
      Score(Rate(items, e.id, e.field, e.score)[i], field) == Some(option.value)
  {
  }

  /** Rating commutes with picking out a group: the grouped items get the same update. */
  lemma {:induction false} FilterRate(items: seq<Item>, g: Group, id: string, field: ScoreField, score: nat)
    ensures Filter(Rate(items, id, field, score), g) == Rate(Filter(items, g), id, field, score)
  {
    if items != [] {
      FilterRate(items[1..], g, id, field, score);
      if items[0].group == g {
        assert Filter(items, g)[1..] == Filter(items[1..], g);
      }
    }
  }

  /** Rating commutes with inserting by index, since it keeps every originalIndex. */
  lemma {:induction false} InsertRate(x: Item, s: seq<Item>, id: string, field: ScoreField, score: nat)
    ensures InsertByIndex(RateOne(x, id, field, score), Rate(s, id, field, score))
         == Rate(InsertByIndex(x, s), id, field, score)
  {
    if s != [] {
      var h, t := s[0], s[1..];
      var rx, rs := RateOne(x, id, field, score), Rate(s, id, field, score);
      assert s == [h] + t;
      RateCons(h, t, id, field, score);
      if x.originalIndex > h.originalIndex {
        InsertRate(x, t, id, field, score);
        RateCons(h, InsertByIndex(x, t), id, field, score);
        assert InsertByIndex(rx, rs) == [rs[0]] + InsertByIndex(rx, Rate(t, id, field, score));
      } else {
        RateCons(x, s, id, field, score);
      }
    }
  }

  /** Rating a list with a head is rating the head and then the rest. */
  lemma RateCons(h: Item, t: seq<Item>, id: string, field: ScoreField, score: nat)
    ensures Rate([h] + t, id, field, score) == [RateOne(h, id, field, score)] + Rate(t, id, field, score)
  {
    assert ([h] + t)[1..] == t;
  }

  /** Rating commutes with sorting by index. */
  lemma {:induction false} SortRate(s: seq<Item>, id: string, field: ScoreField, score: nat)
    ensures SortByIndex(Rate(s, id, field, score)) == Rate(SortByIndex(s), id, field, score)
  {
    if s != [] {
      SortRate(s[1..], id, field, score);
      InsertRate(s[0], SortByIndex(s[1..]), id, field, score);
    }
  }

  /**
   * Rating does not disturb the result stage's grouping: grouping the rated items is
   * rating the grouped items, so entry order and numbering survive every rating.
   */
  lemma GroupItemsRate(items: seq<Item>, g: Group, id: string, field: ScoreField, score: nat)
    ensures GroupItems(Rate(items, id, field, score), g) == Rate(GroupItems(items, g), id, field, score)
    ensures Numbered(GroupItems(items, g), g) ==> Numbered(GroupItems(Rate(items, id, field, score), g), g)
  {
    assert GroupItems(Rate(items, id, field, score), g) == Rate(GroupItems(items, g), id, field, score) by {
      FilterRate(items, g, id, field, score);
      SortRate(Filter(items, g), id, field, score);
    }
  }

  /** The result stage's grouping numbers both groups 0, 1, 2, ... in entry order. */
  predicate EntryOrdered(items: seq<Item>) {
    Numbered(GroupItems(items, A), A) && Numbered(GroupItems(items, B), B)
  }

  /** Rating keeps the entry numbering of both groups. */
  lemma RateKeepsEntryOrder(items: seq<Item>, id: string, field: ScoreField, score: nat)
    requires EntryOrdered(items)
    ensures EntryOrdered(Rate(items, id, field, score))
  {
    GroupItemsRate(items, A, id, field, score);
    GroupItemsRate(items, B, id, field, score);
  }

  /**
   * What the shuffle hands to the rating stage: a permutation of the entered items, none
   * of them rated, from which the result stage recovers both groups in entry order.
   */
  lemma ShuffledEntries(itemsA: seq<Item>, itemsB: seq<Item>, pick: nat -> nat)
    requires Numbered(itemsA, A) && Numbered(itemsB, B) && itemsA + itemsB != []
    requires Unscored(itemsA) && Unscored(itemsB)
    requires forall i :: pick(i) <= i
    ensures var shuffled := Shuffle(itemsA + itemsB, pick, |itemsA + itemsB|);
      shuffled != [] && multiset(shuffled) == multiset(itemsA + itemsB)
      && GroupItems(shuffled, A) == itemsA && GroupItems(shuffled, B) == itemsB
      && EntryOrdered(shuffled) && Unscored(shuffled) && !AllRated(shuffled)
  {
    var all := itemsA + itemsB;
    var shuffled := Shuffle(all, pick, |all|);
    ShufflePermutes(all, pick, |all|);
    GroupsRecovered(shuffled, itemsA, itemsB);
    assert Unscored(all) by {
      forall i | 0 <= i < |all| ensures all[i].contentScore == None && all[i].timelinessScore == None {
        if i >= |itemsA| {
          assert all[i] == itemsB[i - |itemsA|];
        }
      }
    }
    UnscoredPermutation(all, shuffled);
    SomeUnrated(all, shuffled, 0);
  }

  /** No item has a content or a timeliness score yet. */
  predicate Unscored(items: seq<Item>) {
    forall i :: 0 <= i < |items| ==> items[i].contentScore == None && items[i].timelinessScore == None
  }

  /** A permutation of unscored items is unscored. */
  lemma UnscoredPermutation(all: seq<Item>, shuffled: seq<Item>)
    requires Unscored(all) && multiset(shuffled) == multiset(all)
    ensures Unscored(shuffled)
  {
    forall i | 0 <= i < |shuffled|
      ensures shuffled[i].contentScore == None && shuffled[i].timelinessScore == None
    {
      assert shuffled[i] in multiset(all);
      var j :| 0 <= j < |all| && all[j] == shuffled[i];
    }
  }

  /** A permutation of items of which one, all[i], lacks a score is not all rated. */
  lemma SomeUnrated(all: seq<Item>, shuffled: seq<Item>, i: nat)
    requires i < |all| && !Rated(all[i])
    requires multiset(shuffled) == multiset(all)
    ensures shuffled != [] && !AllRated(shuffled)
  {
    assert all[i] in multiset(shuffled);
    var k :| 0 <= k < |shuffled| && shuffled[k] == all[i];
    AllRatedIff(shuffled);
  }

  datatype Stage = Input | Rating | Result

  /** The two pieces of App state. */
  datatype AppState = AppState(stage: Stage, items: seq<Item>)

  /**
   * The input stage holds no items, the rating stage holds some, and in every stage
   * the result stage's grouping numbers each group 0, 1, 2, ... in entry order.
   */
  predicate Consistent(st: AppState) {
    (st.stage == Input ==> st.items == [])
    && (st.stage == Rating ==> st.items != [])
    && EntryOrdered(st.items)
  }

  /** allItems: group A's items followed by group B's. */
  function Entered(groupA: string, groupB: string, idsA: nat -> string, idsB: nat -> string): seq<Item> {
    ProcessText(groupA, A, idsA) + ProcessText(groupB, B, idsB)
  }

  /** The state handleInputNext leaves: unchanged without items, else the shuffle to rate. */
  function InputNext(st: AppState, groupA: string, groupB: string,
                     idsA: nat -> string, idsB: nat -> string, pick: nat -> nat): AppState
    requires forall i :: pick(i) <= i
  {
    NextState(st, Entered(groupA, groupB, idsA, idsB), pick)
  }

  /**
   * handleInputNext keeps the state consistent. Without items nothing changes;
   * otherwise the rating stage starts on a permutation of the entered items, none of
   * them rated, from which the result stage recovers both groups in entry order.
   */
  lemma InputNextOutcome(st: AppState, groupA: string, groupB: string,
                         idsA: nat -> string, idsB: nat -> string, pick: nat -> nat)
    requires Consistent(st) && forall i :: pick(i) <= i
    ensures Consistent(InputNext(st, groupA, groupB, idsA, idsB, pick))
    ensures Entered(groupA, groupB, idsA, idsB) == [] ==>
      InputNext(st, groupA, groupB, idsA, idsB, pick) == st
    ensures var r, itemsA, itemsB := InputNext(st, groupA, groupB, idsA, idsB, pick),
                                     ProcessText(groupA, A, idsA), ProcessText(groupB, B, idsB);
      itemsA + itemsB != [] ==>
        r.stage == Rating && multiset(r.items) == multiset(itemsA + itemsB)
        && GroupItems(r.items, A) == itemsA && GroupItems(r.items, B) == itemsB
        && Unscored(r.items) && !AllRated(r.items)
  {
    var itemsA, itemsB := ProcessText(groupA, A, idsA), ProcessText(groupB, B, idsB);
    assert Unscored(itemsA) && Unscored(itemsB);
    StartRating(st, itemsA, itemsB, pick);
    assert InputNext(st, groupA, groupB, idsA, idsB, pick) == NextState(st, itemsA + itemsB, pick);
  }

  /** The state after handleInputNext, given the entered items. */
  function NextState(st: AppState, all: seq<Item>, pick: nat -> nat): AppState
    requires forall i :: pick(i) <= i
  {
    if all == [] then st else AppState(Rating, Shuffle(all, pick, |all|))
  }

  /** InputNextOutcome over the entered items themselves rather than the input texts. */
  lemma StartRating(st: AppState, itemsA: seq<Item>, itemsB: seq<Item>, pick: nat -> nat)
    requires Consistent(st) && forall i :: pick(i) <= i
    requires Numbered(itemsA, A) && Numbered(itemsB, B) && Unscored(itemsA) && Unscored(itemsB)
    ensures Consistent(NextState(st, itemsA + itemsB, pick))
    ensures var r := NextState(st, itemsA + itemsB, pick);
      itemsA + itemsB != [] ==>
        r.stage == Rating && multiset(r.items) == multiset(itemsA + itemsB)
        && GroupItems(r.items, A) == itemsA && GroupItems(r.items, B) == itemsB
        && Unscored(r.items) && !AllRated(r.items)
  {
    if itemsA + itemsB != [] {
      ShuffledEntries(itemsA, itemsB, pick);
    }
  }

  /** The App component's state: the current stage and the item list. */
  class App {
    var stage: Stage
    var items: seq<Item>

    ghost predicate Valid()
      reads this
    {
      Consistent(AppState(stage, items))
    }

    /** useState('input') and useState([]). */
    constructor()
      ensures Valid() && stage == Input && items == []
    {
      stage := Input;
      items := [];
    }

    /**
     * handleInputNext: processText on both inputs; with no items nothing changes (the
     * app only shows an error toast), otherwise the shuffled items are rated next.
     */
    method HandleInputNext(groupA: string, groupB: string,
                           idsA: nat -> string, idsB: nat -> string, pick: nat -> nat)
      requires Valid() && forall i :: pick(i) <= i
      modifies this
      ensures Valid()
      ensures AppState(stage, items)
           == InputNext(AppState(old(stage), old(items)), groupA, groupB, idsA, idsB, pick)
    {
      InputNextOutcome(AppState(stage, items), groupA, groupB, idsA, idsB, pick);
      var allItems := Entered(groupA, groupB, idsA, idsB);
      if |allItems| == 0 {
        return;
      }
      items := ShuffleCopy(allItems, pick);
      stage := Rating;
    }

    /** handleRate: the ratings of items with this id change as Rate says; nothing else does. */
    method HandleRate(id: string, field: ScoreField, score: nat)
      requires Valid()
      modifies this
      ensures Valid()
      ensures stage == old(stage) && items == Rate(old(items), id, field, score)
    {
      RateKeepsEntryOrder(items, id, field, score);
      items := Rate(items, id, field, score);
    }

    /** handleRatingFinish: on to the result stage, with the items untouched. */
    method HandleRatingFinish()
      requires Valid()
      modifies this
      ensures Valid()
      ensures stage == Result && items == old(items)
    {
      stage := Result;
    }

    /** handleReset: back to an empty input stage. */
    method HandleReset()
      modifies this
      ensures Valid()
      ensures stage == Input && items == []
    {
      items := [];
      stage := Input;
    }
  }
}
