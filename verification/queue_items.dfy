/** The request-queue entry (`QueueItem` of src/components/RequestQueue.tsx) and the partial updates merged into it. */
module QueueItems {
  import opened Common

  type Id = string

  datatype Kind = Mapping | Reverse

  datatype Status = Pending | Processing | Completed | Failed

  /** A request still waiting or running. */
  predicate IsActive(s: Status) {
    s == Pending || s == Processing
  }

  datatype QueueItem = QueueItem(
    id: Id,
    kind: Kind,
    status: Status,
    title: string,
    progress: int,
    startTime: Option<Millis>,
    endTime: Option<Millis>,
    error: Option<string>)

  /** `Partial<QueueItem>`. `None` leaves a field alone; on the optional fields
      `Some(None)` is a key written with the value `undefined`. */
  datatype Patch = Patch(
    id: Option<Id>,
    kind: Option<Kind>,
    status: Option<Status>,
    title: Option<string>,
    progress: Option<int>,
    startTime: Option<Option<Millis>>,
    endTime: Option<Option<Millis>>,
    error: Option<Option<string>>)

  const NoChange: Patch := Patch(None, None, None, None, None, None, None, None)

  /** The object spread `{ ...item, ...updates }`: every key of the patch wins. */
  function Merge(item: QueueItem, p: Patch): (r: QueueItem)
    ensures p.id.Some? ==> r.id == p.id.value
    ensures p.id.None? ==> r.id == item.id
    ensures p.kind.Some? ==> r.kind == p.kind.value
    ensures p.kind.None? ==> r.kind == item.kind
    ensures p.status.Some? ==> r.status == p.status.value
    ensures p.status.None? ==> r.status == item.status
    ensures p.title.Some? ==> r.title == p.title.value
    ensures p.title.None? ==> r.title == item.title
    ensures p.progress.Some? ==> r.progress == p.progress.value
    ensures p.progress.None? ==> r.progress == item.progress
    ensures p.startTime.Some? ==> r.startTime == p.startTime.value
    ensures p.startTime.None? ==> r.startTime == item.startTime
    ensures p.endTime.Some? ==> r.endTime == p.endTime.value
    ensures p.endTime.None? ==> r.endTime == item.endTime
    ensures p.error.Some? ==> r.error == p.error.value
    ensures p.error.None? ==> r.error == item.error
    ensures p == NoChange ==> r == item
  {
    QueueItem(
      p.id.GetOr(item.id),
      p.kind.GetOr(item.kind),
      p.status.GetOr(item.status),
      p.title.GetOr(item.title),
      p.progress.GetOr(item.progress),
      p.startTime.GetOr(item.startTime),
      p.endTime.GetOr(item.endTime),
      p.error.GetOr(item.error))
  }

  /** Every patch the page sends leaves the id key out. */
  predicate KeepsId(p: Patch) {
    p.id.None?
  }

  /** The ids present in a queue: `queueItems.find(q => q.id === id)` succeeds exactly for these. */
  function Ids(q: seq<QueueItem>): set<Id> {
    set i | 0 <= i < |q| :: q[i].id
  }

  /** Applying the same patch twice is applying it once. */
  lemma MergeIdempotent(item: QueueItem, p: Patch)
    ensures Merge(Merge(item, p), p) == Merge(item, p)
  {
  }
}
