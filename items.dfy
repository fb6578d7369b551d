/**
 * The rated item shared by the input, rating and result stages: an id, its text, the
 * group it was entered in, its position among that group's entries, and two optional
 * scores (`null` until rated).
 */
module Items {
  import opened Wrappers

  datatype Group = A | B

  /** Which of the two scores a rating click sets. */
  datatype ScoreField = ContentScore | TimelinessScore

  datatype Item = Item(
    id: string,
    text: string,
    group: Group,
    originalIndex: nat,
    contentScore: Option<nat>,
    timelinessScore: Option<nat>)

  /** item[field] for field 'contentScore' or 'timelinessScore'. */
  function Score(item: Item, field: ScoreField): Option<nat> {
    match field
    case ContentScore => item.contentScore
    case TimelinessScore => item.timelinessScore
  }

  /** { ...item, [field]: Some(score) }: the item with one score set. */
  function WithScore(item: Item, field: ScoreField, score: nat): (r: Item)
    ensures Score(r, field) == Some(score)
    ensures forall other: ScoreField :: other != field ==> Score(r, other) == Score(item, other)
    ensures r.id == item.id && r.text == item.text && r.group == item.group
    ensures r.originalIndex == item.originalIndex
  {
    match field
    case ContentScore => item.(contentScore := Some(score))
    case TimelinessScore => item.(timelinessScore := Some(score))
  }
}
