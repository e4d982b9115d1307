/** The decisions the queue list (src/components/RequestQueue.tsx) and the request tabs
    (src/components/RequestTabs.tsx) make about what to show; markup, icons and styles are left out. */
module QueueView {
  import opened Common
  import opened Seqs
  import opened QueueItems
  import Durations
  import History

  /** What one queue row shows: which action button, the progress bar's value, the error text and the
      elapsed whole seconds. */
  datatype Row = Row(
    id: Id,
    retryOffered: bool,
    cancelOffered: bool,
    progressBar: Option<int>,
    errorText: Option<string>,
    elapsed: Option<int>)

  /** One row of the list; `hasRetry`/`hasCancel` say whether the parent passed the callbacks. */
  function RenderRow(item: QueueItem, hasRetry: bool, hasCancel: bool, now: Millis): (r: Row)
    ensures r.id == item.id
    ensures r.retryOffered <==> item.status == Failed && hasRetry
    ensures r.cancelOffered <==> (item.status == Pending || item.status == Processing) && hasCancel
    ensures item.status == Completed ==> !r.retryOffered && !r.cancelOffered
    ensures r.progressBar.Some? <==> item.status == Processing
    ensures r.progressBar.Some? ==> r.progressBar.value == item.progress
    ensures r.errorText.Some? <==> item.status == Failed && item.error.Some? && item.error.value != ""
    ensures r.errorText.Some? ==> r.errorText == item.error
    ensures r.elapsed.Some? <==> item.startTime.Some?
    ensures r.elapsed == Durations.FormatDuration(item.startTime, item.endTime, now)
  {
    Row(
      item.id,
      item.status == Failed && hasRetry,
      IsActive(item.status) && hasCancel,
      if item.status == Processing then Some(item.progress) else None,
      if item.status == Failed && Truthy(item.error) then item.error else None,
      Durations.FormatDuration(item.startTime, item.endTime, now))
  }

  /** A row never offers both actions. */
  lemma ActionsExclusive(item: QueueItem, hasRetry: bool, hasCancel: bool, now: Millis)
    ensures var r := RenderRow(item, hasRetry, hasCancel, now); !(r.retryOffered && r.cancelOffered)
  {
  }

  /** The whole list: nothing at all for an empty queue, otherwise one row per item in queue order. */
  function RenderQueue(items: seq<QueueItem>, hasRetry: bool, hasCancel: bool, now: Millis): (r: Option<seq<Row>>)
    ensures r.None? <==> items == []
    ensures r.Some? ==> |r.value| == |items|
    ensures r.Some? ==> forall i :: 0 <= i < |items| ==> r.value[i] == RenderRow(items[i], hasRetry, hasCancel, now)
  {
    if items == [] then None
    else Some(seq(|items|, i requires 0 <= i < |items| => RenderRow(items[i], hasRetry, hasCancel, now)))
  }

  /** The filter predicate of the active tab. */
  predicate IsActiveItem(x: QueueItem) {
    IsActive(x.status)
  }

  /** `activeQueueItems`: the pending and processing items, in queue order. */
  function ActiveItems(q: seq<QueueItem>): (r: seq<QueueItem>)
    ensures forall x :: x in r ==> x in q && IsActive(x.status)
    ensures forall x :: x in q && IsActive(x.status) ==> x in r
    ensures |r| <= |q|
  {
    Filter(q, IsActiveItem)
  }

  /** The active list is taken item by item, so items keep their relative order. */
  lemma ActiveAppend(a: seq<QueueItem>, b: seq<QueueItem>)
    ensures ActiveItems(a + b) == ActiveItems(a) + ActiveItems(b)
  {
    FilterAppend(a, b, IsActiveItem);
  }

  /** A queue of active items only is its own active list. */
  lemma ActiveOfActive(q: seq<QueueItem>)
    requires forall i :: 0 <= i < |q| ==> IsActive(q[i].status)
    ensures ActiveItems(q) == q
  {
    FilterKeepsAll(q, IsActiveItem);
  }

  /** The two tab badges: the active count, shown only when positive, and the history length, always shown. */
  datatype Badges = Badges(active: Option<nat>, history: nat)

  function TabBadges(queue: seq<QueueItem>, history: seq<History.HistoryItem>): (b: Badges)
    ensures b.history == |history|
    ensures b.active.Some? <==> exists i :: 0 <= i < |queue| && IsActive(queue[i].status)
    ensures b.active.Some? ==> 0 < b.active.value <= |queue|
    ensures b.active.Some? ==> b.active.value == |ActiveItems(queue)|
  {
    var active := ActiveItems(queue);
    assert |active| > 0 <==> exists i :: 0 <= i < |queue| && IsActive(queue[i].status) by {
      if |active| > 0 {
        assert active[0] in active;
      }
      if exists i :: 0 <= i < |queue| && IsActive(queue[i].status) {
        var i :| 0 <= i < |queue| && IsActive(queue[i].status);
        assert queue[i] in queue;
      }
    }
    Badges(if |active| > 0 then Some(|active|) else None, |history|)
  }
}
