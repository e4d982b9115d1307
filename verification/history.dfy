/** Finished requests (`HistoryItem` of src/components/RequestHistory.tsx) and the classifications
    the history table and the details dialog (src/components/RequestDetails.tsx) make of them. */
module History {
  import opened Common
  import QueueItems

  /** A finished request can only have completed or failed. */
  datatype FinishedStatus = Completed | Failed

  datatype Rating = Positive | Negative

  /** The result payload is modelled as text; `item.result` is truthy when it is present and non-empty. */
  datatype HistoryItem = HistoryItem(
    id: QueueItems.Id,
    kind: QueueItems.Kind,
    title: string,
    status: FinishedStatus,
    startTime: Millis,
    endTime: Millis,
    rating: Option<Rating>,
    comment: Option<string>,
    result: Option<string>,
    error: Option<string>)

  /** The rating column of the history table: a dash, a thumb up or a thumb down. */
  datatype RatingMarker = Dash | ThumbUp | ThumbDown

  /** `getRatingIcon`. */
  function RatingIcon(rating: Option<Rating>): (m: RatingMarker)
    ensures m == Dash <==> rating.None?
    ensures m == ThumbUp <==> rating == Some(Positive)
    ensures m == ThumbDown <==> rating == Some(Negative)
  {
    match rating
    case None => Dash
    case Some(Positive) => ThumbUp
    case Some(Negative) => ThumbDown
  }

  const PositiveLabel: string := "Положительная"
  const NegativeLabel: string := "Отрицательная"
  const UnratedLabel: string := "Не оценен"

  /** `getRatingText` of the details dialog. */
  function RatingText(rating: Option<Rating>): (t: string)
    ensures t == UnratedLabel <==> rating.None?
    ensures t == PositiveLabel <==> rating == Some(Positive)
    ensures t == NegativeLabel <==> rating == Some(Negative)
  {
    match rating
    case Some(Positive) => PositiveLabel
    case Some(Negative) => NegativeLabel
    case None => UnratedLabel
  }

  /** The table's marker and the dialog's label tell exactly the same ratings apart, and neither
      confuses two different ratings. */
  lemma RatingViewsAgree(a: Option<Rating>, b: Option<Rating>)
    ensures RatingText(a) == RatingText(b) <==> a == b
    ensures RatingIcon(a) == RatingIcon(b) <==> RatingText(a) == RatingText(b)
  {
  }

  /** Which optional sections the details dialog shows. */
  datatype Sections = Sections(error: bool, comment: bool, results: bool)

  /** The details dialog: nothing for a null item; otherwise the error section for a truthy error,
      the comment section for a truthy comment, and the results section only for a completed
      request with a truthy result. */
  function DetailsSections(item: Option<HistoryItem>): (r: Option<Sections>)
    ensures r.None? <==> item.None?
    ensures r.Some? ==> (r.value.error <==> item.value.error.Some? && item.value.error.value != "")
    ensures r.Some? ==> (r.value.comment <==> item.value.comment.Some? && item.value.comment.value != "")
    ensures r.Some? ==> (r.value.results <==> item.value.status == Completed && item.value.result.Some? && item.value.result.value != "")
  {
    match item
    case None => None
    case Some(it) => Some(Sections(Truthy(it.error), Truthy(it.comment), Truthy(it.result) && it.status == Completed))
  }

  /** A failed request never shows a results section, whatever payload it carries. */
  lemma FailedShowsNoResults(item: HistoryItem)
    requires item.status == Failed
    ensures !DetailsSections(Some(item)).value.results
  {
  }
}
