/** The queue reducer of src/components/ReverseEngineering.tsx: `addToQueue`, `updateQueueItem`,
    `removeFromQueue` and the retry guard, as pure functions over the queue sequence. */
module QueueOps {
  import opened Common
  import opened Seqs
  import opened QueueItems

  /** `addToQueue`: a fresh reverse-engineering request, pending at 0%, appended at the end. */
  function AddToQueue(q: seq<QueueItem>, id: Id, title: string, now: Millis): (r: seq<QueueItem>)
    ensures |r| == |q| + 1
    ensures r[..|q|] == q
    ensures r[|q|].id == id && r[|q|].title == title && r[|q|].kind == Reverse
    ensures r[|q|].status == Pending && r[|q|].progress == 0
    ensures r[|q|].startTime == Some(now) && r[|q|].endTime.None? && r[|q|].error.None?
    ensures Ids(r) == Ids(q) + {id}
  {
    var r := q + [QueueItem(id, Reverse, Pending, title, 0, Some(now), None, None)];
    assert r[|q|].id == id;
    assert forall i :: 0 <= i < |q| ==> r[i] == q[i];
    r
  }

  /** `updateQueueItem`: every item whose id matches receives the patch; the others stay as they are. */
  function UpdateQueueItem(q: seq<QueueItem>, id: Id, p: Patch): (r: seq<QueueItem>)
    ensures |r| == |q|
    ensures forall i :: 0 <= i < |q| && q[i].id != id ==> r[i] == q[i]
    ensures forall i :: 0 <= i < |q| && q[i].id == id ==> r[i] == Merge(q[i], p)
    decreases |q|
  {
    if q == [] then []
    else [if q[0].id == id then Merge(q[0], p) else q[0]] + UpdateQueueItem(q[1..], id, p)
  }

  /** The predicate of `removeFromQueue`, built in one place so every removal filters with the same function. */
  function NotId(id: Id): QueueItem -> bool {
    (x: QueueItem) => x.id != id
  }

  /** `removeFromQueue`: drops every item carrying the id, whatever its status, and keeps the rest. */
  function RemoveFromQueue(q: seq<QueueItem>, id: Id): (r: seq<QueueItem>)
    ensures forall x :: x in r <==> x in q && x.id != id
    ensures id !in Ids(r)
    ensures |r| <= |q|
    ensures |r| == |q| <==> id !in Ids(q)
  {
    var r := Filter(q, NotId(id));
    assert id !in Ids(r) by {
      forall i | 0 <= i < |r| ensures r[i].id != id {
        assert r[i] in r;
      }
    }
    r
  }

  /** The fields `handleRetryRequest` writes: back to pending at 0% with the error cleared. */
  const RetryPatch: Patch := NoChange.(status := Some(Pending), progress := Some(0), error := Some(None))

  /** `handleRetryRequest`: only when the id is found, reset the matching items. */
  function RetryRequest(q: seq<QueueItem>, id: Id): (r: seq<QueueItem>)
    ensures |r| == |q|
    ensures forall i :: 0 <= i < |q| ==>
      && r[i].id == q[i].id && r[i].kind == q[i].kind && r[i].title == q[i].title
      && r[i].startTime == q[i].startTime && r[i].endTime == q[i].endTime
    ensures forall i :: 0 <= i < |q| && q[i].id == id ==>
      r[i].status == Pending && r[i].progress == 0 && r[i].error.None?
    ensures forall i :: 0 <= i < |q| && q[i].id != id ==> r[i] == q[i]
  {
    if id in Ids(q) then UpdateQueueItem(q, id, RetryPatch) else q
  }

  /** A patched item keeps its id, so the set of ids is untouched. */
  lemma UpdateKeepsIds(q: seq<QueueItem>, id: Id, p: Patch)
    requires KeepsId(p)
    ensures Ids(UpdateQueueItem(q, id, p)) == Ids(q)
  {
    var r := UpdateQueueItem(q, id, p);
    assert forall i :: 0 <= i < |q| ==> r[i].id == q[i].id;
  }

  /** An update for an id that is not queued changes nothing. */
  lemma UpdateAbsent(q: seq<QueueItem>, id: Id, p: Patch)
    requires id !in Ids(q)
    ensures UpdateQueueItem(q, id, p) == q
  {
    var r := UpdateQueueItem(q, id, p);
    forall i | 0 <= i < |q| ensures r[i] == q[i] {
      assert q[i].id in Ids(q);
    }
  }

  /** Sending the same update twice has the effect of sending it once. */
  lemma UpdateIdempotent(q: seq<QueueItem>, id: Id, p: Patch)
    requires KeepsId(p)
    ensures UpdateQueueItem(UpdateQueueItem(q, id, p), id, p) == UpdateQueueItem(q, id, p)
  {
    var r := UpdateQueueItem(q, id, p);
    var r2 := UpdateQueueItem(r, id, p);
    forall i | 0 <= i < |q| ensures r2[i] == r[i] {
      if q[i].id == id {
        MergeIdempotent(q[i], p);
      }
    }
  }

  /** Removing an id that is not queued changes nothing. */
  lemma RemoveAbsent(q: seq<QueueItem>, id: Id)
    requires id !in Ids(q)
    ensures RemoveFromQueue(q, id) == q
  {
    forall i | 0 <= i < |q| ensures NotId(id)(q[i]) {
      assert q[i].id in Ids(q);
    }
    FilterKeepsAll(q, NotId(id));
  }

  /** Removal works item by item, so the surviving items keep their relative order. */
  lemma RemoveAppend(a: seq<QueueItem>, b: seq<QueueItem>, id: Id)
    ensures RemoveFromQueue(a + b, id) == RemoveFromQueue(a, id) + RemoveFromQueue(b, id)
  {
    FilterAppend(a, b, NotId(id));
  }

  /** Cancelling twice is cancelling once. */
  lemma RemoveIdempotent(q: seq<QueueItem>, id: Id)
    ensures RemoveFromQueue(RemoveFromQueue(q, id), id) == RemoveFromQueue(q, id)
  {
    FilterIdempotent(q, NotId(id));
  }

  /** An update never decides which items a later removal of the same id keeps. */
  lemma {:induction false} RemoveAfterUpdate(q: seq<QueueItem>, id: Id, p: Patch)
    requires KeepsId(p)
    ensures RemoveFromQueue(UpdateQueueItem(q, id, p), id) == RemoveFromQueue(q, id)
    decreases |q|
  {
    if q != [] {
      var u := UpdateQueueItem(q, id, p);
      assert u == [u[0]] + u[1..];
      assert q == [q[0]] + q[1..];
      assert u[1..] == UpdateQueueItem(q[1..], id, p);
      RemoveAppend([u[0]], u[1..], id);
      RemoveAppend([q[0]], q[1..], id);
      RemoveAfterUpdate(q[1..], id, p);
      assert RemoveFromQueue([u[0]], id) == RemoveFromQueue([q[0]], id) by {
        if q[0].id != id {
          assert u[0] == q[0];
        } else {
          assert u[0].id == id;
          assert RemoveFromQueue([u[0]], id) == [];
          assert RemoveFromQueue([q[0]], id) == [];
        }
      }
    }
  }

  /** Adding a request under a fresh id and then cancelling it gives back the queue as it was. */
  lemma AddThenRemove(q: seq<QueueItem>, id: Id, title: string, now: Millis)
    requires id !in Ids(q)
    ensures RemoveFromQueue(AddToQueue(q, id, title, now), id) == q
  {
    var a := AddToQueue(q, id, title, now);
    assert a == q + [a[|q|]];
    RemoveAppend(q, [a[|q|]], id);
    RemoveAbsent(q, id);
    assert RemoveFromQueue([a[|q|]], id) == [];
  }

  /** A retry for an id that is not queued changes nothing. */
  lemma RetryAbsent(q: seq<QueueItem>, id: Id)
    requires id !in Ids(q)
    ensures RetryRequest(q, id) == q
  {
  }
}
