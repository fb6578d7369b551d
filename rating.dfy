/**
 * The rating stage: the fixed four-option scale shown for both scores, which option is
 * drawn solid, what a click forwards to the app, and whether every item is rated (which
 * enables the button that shows the results).
 */
module Rating {
  import opened Wrappers
  import opened Items
  import opened Results

  /** An item has both scores once each is non-null; a score of 0 (Bad) counts. */
  predicate Rated(item: Item) {
    item.contentScore.Some? && item.timelinessScore.Some?
  }

  /** items.every(item => item.contentScore !== null && item.timelinessScore !== null) */
  predicate AllRated(items: seq<Item>) {
    items == [] || (Rated(items[0]) && AllRated(items[1..]))
  }

  /**
   * The results button is enabled exactly when no item still lacks a score; with no
   * items it is enabled.
   */
  lemma {:induction false} AllRatedIff(items: seq<Item>)
    ensures AllRated(items) <==>
      !exists i :: 0 <= i < |items| && (items[i].contentScore == None || items[i].timelinessScore == None)
  {
    if items != [] {
      AllRatedIff(items[1..]);
      assert forall i :: 1 <= i < |items| ==> items[1..][i - 1] == items[i];
    }
  }

  /** One button of a scale: its label, the score it gives, and its colour. */
  datatype RatingOption = RatingOption(name: string, value: nat, color: string)

  /** The option table, the same for the content and the timeliness scale. */
  const Options: seq<RatingOption> := [
    RatingOption("Excellent", 5, "green"),
    RatingOption("Good", 4, "blue"),
    RatingOption("Fair", 2, "yellow"),
    RatingOption("Bad", 0, "red")
  ]

  /**
   * The scale offers exactly the scores 5, 4, 2 and 0, each once, and each button has
   * the label and colour the result stage shows for that score.
   */
  lemma OptionsMatchLabels()
    ensures forall v: nat :: OnScale(v) <==> exists i :: 0 <= i < |Options| && Options[i].value == v
    ensures forall i, j :: 0 <= i < j < |Options| ==> Options[i].value != Options[j].value
    ensures forall i :: 0 <= i < |Options| ==>
      RatingLabel(Some(Options[i].value)) == Badge(Options[i].name, Options[i].color)
  {
    forall v: nat | OnScale(v)
      ensures exists i :: 0 <= i < |Options| && Options[i].value == v
    {
      if v == 5 { assert Options[0].value == v; }
      else if v == 4 { assert Options[1].value == v; }
      else if v == 2 { assert Options[2].value == v; }
      else { assert Options[3].value == v; }
    }
  }

  /** variant 'solid' rather than 'outline': the option equal to the current score. */
  predicate Solid(item: Item, field: ScoreField, option: RatingOption) {
    Score(item, field) == Some(option.value)
  }

  /**
   * Each scale shows at most one solid option, none while the score is null, and
   * exactly one once the score is one of the scale's values.
   */
  lemma SolidAtMostOne(item: Item, field: ScoreField)
    ensures forall i, j ::
      (0 <= i < |Options| && 0 <= j < |Options| &&
       Solid(item, field, Options[i]) && Solid(item, field, Options[j])) ==> i == j
    ensures Score(item, field) == None ==>
      forall i :: 0 <= i < |Options| ==> !Solid(item, field, Options[i])
    ensures Score(item, field).Some? && OnScale(Score(item, field).value) ==>
      exists i :: 0 <= i < |Options| && Solid(item, field, Options[i])
  {
    OptionsMatchLabels();
    if Score(item, field).Some? && OnScale(Score(item, field).value) {
      var i :| 0 <= i < |Options| && Options[i].value == Score(item, field).value;
      assert Solid(item, field, Options[i]);
    }
  }

  /** What a rating click hands to onRate: (item.id, the score field, option.value). */
  datatype RateEvent = RateEvent(id: string, field: ScoreField, score: nat)

  /** handleRate forwarding for a click on `option` of the `field` scale of `item`. */
  function Click(item: Item, field: ScoreField, option: RatingOption): RateEvent {
    RateEvent(item.id, field, option.value)
  }
}
