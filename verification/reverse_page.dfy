/** The state of the reverse-engineering page (src/components/ReverseEngineering.tsx) and the events
    that change it. The page's timers become events: a progress tick, the end of the simulated call
    (success or failure), and the delayed removal after a success. */
module ReversePage {
  import opened Common
  import opened QueueItems
  import opened QueueOps

  /** What the page holds: the two selections, the generated text, the loading flag, the queue,
      the requests whose simulated call is still running (each with its progress interval), and
      the ids whose 3-second removal timer is pending, oldest first. */
  datatype Page = Page(
    datamart: string,
    template: string,
    content: string,
    loading: bool,
    queue: seq<QueueItem>,
    running: multiset<Id>,
    removals: seq<Id>)

  /** The message a failed generation leaves on its queue item. */
  const GenerationError: string := "Ошибка при генерации требований"

  /** The ceiling a simulated progress tick never exceeds. */
  const TickCeiling: int := 90

  /** The queue title of a generation request for the chosen datamart and template. */
  function RequestTitle(datamart: string, template: string): string {
    "Реверс-инжиниринг " + datamart + " (" + template + ")"
  }

  datatype Event =
    | SelectDatamart(datamart: string)
    | SelectTemplate(template: string)
    | Generate(id: Id, createdAt: Millis, startedAt: Millis)
    | Tick(id: Id, next: int)
    | Succeed(id: Id, content: string, now: Millis)
    | Fail(id: Id, now: Millis)
    | RemovalDue
    | Retry(id: Id)
    | Cancel(id: Id)

  /** `handleGenerate` up to the first await: guard, enqueue, mark processing, start the interval. */
  function StartGeneration(p: Page, id: Id, createdAt: Millis, startedAt: Millis): (r: Page)
    ensures p.datamart == "" || p.template == "" ==> r == p
    ensures p.datamart != "" && p.template != "" ==>
      && r.loading
      && |r.queue| == |p.queue| + 1
      && r.queue[|p.queue|] == QueueItem(id, Reverse, Processing, RequestTitle(p.datamart, p.template),
                                         0, Some(startedAt), None, None)
      && r.running == p.running + multiset{id}
      && r.removals == p.removals
      && r.content == p.content
    ensures p.datamart != "" && p.template != "" ==>
      forall i :: 0 <= i < |p.queue| && p.queue[i].id != id ==> r.queue[i] == p.queue[i]
    ensures p.datamart != "" && p.template != "" ==>
      forall i :: 0 <= i < |p.queue| && p.queue[i].id == id ==>
        r.queue[i] == p.queue[i].(status := Processing, startTime := Some(startedAt))
    ensures r.datamart == p.datamart && r.template == p.template
  {
    if p.datamart == "" || p.template == "" then p
    else
      var added := AddToQueue(p.queue, id, RequestTitle(p.datamart, p.template), createdAt);
      var started := UpdateQueueItem(added, id, NoChange.(status := Some(Processing), startTime := Some(Some(startedAt))));
      p.(loading := true, queue := started, running := p.running + multiset{id})
  }

  /** One firing of the 600 ms interval: progress becomes `min(next, 90)`; an interval that was
      cleared no longer fires. */
  function ProgressTick(p: Page, id: Id, next: int): (r: Page)
    ensures |r.queue| == |p.queue|
    ensures forall i :: 0 <= i < |p.queue| && p.queue[i].id == id && id in p.running ==>
      r.queue[i] == p.queue[i].(progress := Min(next, TickCeiling)) && r.queue[i].progress <= TickCeiling
    ensures forall i :: 0 <= i < |p.queue| && (p.queue[i].id != id || id !in p.running) ==> r.queue[i] == p.queue[i]
    ensures r.(queue := p.queue) == p
  {
    if id !in p.running then p
    else p.(queue := UpdateQueueItem(p.queue, id, NoChange.(progress := Some(Min(next, TickCeiling)))))
  }

  /** The simulated call resolved: clear the interval, mark completed at 100%, show the text, stop
      loading and start the 3-second removal timer. */
  function Success(p: Page, id: Id, content: string, now: Millis): (r: Page)
    ensures id !in p.running ==> r == p
    ensures id in p.running ==>
      && |r.queue| == |p.queue|
      && (forall i :: 0 <= i < |p.queue| && p.queue[i].id == id ==>
            r.queue[i] == p.queue[i].(status := Completed, progress := 100, endTime := Some(now)))
      && (forall i :: 0 <= i < |p.queue| && p.queue[i].id != id ==> r.queue[i] == p.queue[i])
      && r.removals == p.removals + [id]
      && r.running == p.running - multiset{id}
      && r.content == content
      && !r.loading
    ensures r.(queue := p.queue, content := p.content, loading := p.loading, running := p.running, removals := p.removals) == p
  {
    if id !in p.running then p
    else
      p.(queue := UpdateQueueItem(p.queue, id, NoChange.(status := Some(Completed), progress := Some(100), endTime := Some(Some(now)))),
         content := content,
         loading := false,
         running := p.running - multiset{id},
         removals := p.removals + [id])
  }

  /** The simulated call failed: clear the interval, mark failed with the message and the end time,
      and stop loading; the item stays queued so it can be retried. */
  function Failure(p: Page, id: Id, now: Millis): (r: Page)
    ensures id !in p.running ==> r == p
    ensures id in p.running ==>
      && |r.queue| == |p.queue|
      && (forall i :: 0 <= i < |p.queue| && p.queue[i].id == id ==>
            r.queue[i] == p.queue[i].(status := Failed, error := Some(GenerationError), endTime := Some(now)))
      && (forall i :: 0 <= i < |p.queue| && p.queue[i].id != id ==> r.queue[i] == p.queue[i])
      && r.removals == p.removals
      && r.running == p.running - multiset{id}
      && r.content == p.content
      && !r.loading
    ensures r.(queue := p.queue, loading := p.loading, running := p.running) == p
  {
    if id !in p.running then p
    else
      p.(queue := UpdateQueueItem(p.queue, id, NoChange.(status := Some(Failed), error := Some(Some(GenerationError)), endTime := Some(Some(now)))),
         loading := false,
         running := p.running - multiset{id})
  }

  /** The oldest pending 3-second timer fires and removes its id from the queue. */
  function DueRemoval(p: Page): (r: Page)
    ensures p.removals == [] ==> r == p
    ensures p.removals != [] ==>
      && r.queue == RemoveFromQueue(p.queue, p.removals[0])
      && r.removals == p.removals[1..]
    ensures r.(queue := p.queue, removals := p.removals) == p
  {
    if p.removals == [] then p
    else p.(queue := RemoveFromQueue(p.queue, p.removals[0]), removals := p.removals[1..])
  }

  /** `handleCancelRequest`: remove the request and stop the loading indicator. The interval is not
      cleared, so its later ticks reach an id that is no longer queued. */
  function CancelRequest(p: Page, id: Id): (r: Page)
    ensures id !in Ids(r.queue)
    ensures forall x :: x in r.queue <==> x in p.queue && x.id != id
    ensures r.queue == RemoveFromQueue(p.queue, id)
    ensures !r.loading
    ensures r.(queue := p.queue, loading := p.loading) == p
  {
    p.(queue := RemoveFromQueue(p.queue, id), loading := false)
  }

  /** One event applied to the page. Only the selection events change the selections; a retry
      touches nothing but the queue; a cancel always leaves the id out of the queue. */
  function Step(p: Page, e: Event): (r: Page)
    ensures e.SelectDatamart? ==> r == p.(datamart := e.datamart)
    ensures e.SelectTemplate? ==> r == p.(template := e.template)
    ensures !e.SelectDatamart? ==> r.datamart == p.datamart
    ensures !e.SelectTemplate? ==> r.template == p.template
    ensures e.Retry? ==> r.(queue := p.queue) == p && |r.queue| == |p.queue|
    ensures e.Retry? ==> forall i :: 0 <= i < |p.queue| && p.queue[i].id == e.id ==>
      r.queue[i] == p.queue[i].(status := Pending, progress := 0, error := None)
    ensures e.Retry? ==> forall i :: 0 <= i < |p.queue| && p.queue[i].id != e.id ==> r.queue[i] == p.queue[i]
    ensures e.Cancel? ==> e.id !in Ids(r.queue) && r.queue == RemoveFromQueue(p.queue, e.id) && !r.loading
  {
    match e
    case SelectDatamart(d) => p.(datamart := d)
    case SelectTemplate(t) => p.(template := t)
    case Generate(id, createdAt, startedAt) => StartGeneration(p, id, createdAt, startedAt)
    case Tick(id, next) => ProgressTick(p, id, next)
    case Succeed(id, content, now) => Success(p, id, content, now)
    case Fail(id, now) => Failure(p, id, now)
    case RemovalDue => DueRemoval(p)
    case Retry(id) => p.(queue := RetryRequest(p.queue, id))
    case Cancel(id) => CancelRequest(p, id)
  }

  function Run(p: Page, es: seq<Event>): Page
    decreases |es|
  {
    if es == [] then p else Run(Step(p, es[0]), es[1..])
  }

  /** Every item of the queue has progress at most `bound`. */
  predicate ProgressAtMost(q: seq<QueueItem>, bound: int) {
    forall i :: 0 <= i < |q| ==> q[i].progress <= bound
  }

  /** The ids of the completed items. */
  function CompletedIds(q: seq<QueueItem>): set<Id> {
    set i | 0 <= i < |q| && q[i].status == Completed :: q[i].id
  }

  /** Only a generation puts an id into the queue: no other event can bring back a removed request. */
  lemma StepAddsOnlyGenerated(p: Page, e: Event)
    ensures !e.Generate? ==> Ids(Step(p, e).queue) <= Ids(p.queue)
    ensures e.Generate? ==> Ids(Step(p, e).queue) <= Ids(p.queue) + {e.id}
  {
    var r := Step(p, e);
    match e
    case Generate(id, createdAt, startedAt) =>
      if p.datamart != "" && p.template != "" {
        var added := AddToQueue(p.queue, id, RequestTitle(p.datamart, p.template), createdAt);
        UpdateKeepsIds(added, id, NoChange.(status := Some(Processing), startTime := Some(Some(startedAt))));
      }
    case Tick(id, next) =>
      UpdateKeepsIds(p.queue, id, NoChange.(progress := Some(Min(next, TickCeiling))));
    case Succeed(id, content, now) =>
      UpdateKeepsIds(p.queue, id, NoChange.(status := Some(Completed), progress := Some(100), endTime := Some(Some(now))));
    case Fail(id, now) =>
      UpdateKeepsIds(p.queue, id, NoChange.(status := Some(Failed), error := Some(Some(GenerationError)), endTime := Some(Some(now))));
    case RemovalDue =>
      if p.removals != [] {
        forall x | x in Ids(r.queue) ensures x in Ids(p.queue) {
          var i :| 0 <= i < |r.queue| && r.queue[i].id == x;
          assert r.queue[i] in r.queue;
        }
      }
    case Retry(id) =>
      if id in Ids(p.queue) {
        UpdateKeepsIds(p.queue, id, RetryPatch);
      }
    case Cancel(id) =>
      forall x | x in Ids(r.queue) ensures x in Ids(p.queue) {
        var i :| 0 <= i < |r.queue| && r.queue[i].id == x;
        assert r.queue[i] in r.queue;
      }
    case SelectDatamart(_) =>
    case SelectTemplate(_) =>
  }

  /** No event in `es` starts a generation under `id`. */
  predicate NoGenerationOf(es: seq<Event>, id: Id) {
    forall k :: 0 <= k < |es| ==> !(es[k].Generate? && es[k].id == id)
  }

  /** Once an id has left the queue, late ticks, completions, failures, retries and removals leave it
      out for good; only a new generation under the same id can queue it again. */
  lemma {:induction false} AbsentStaysAbsent(p: Page, es: seq<Event>, id: Id)
    requires id !in Ids(p.queue)
    requires NoGenerationOf(es, id)
    ensures id !in Ids(Run(p, es).queue)
    decreases |es|
  {
    if es != [] {
      StepAddsOnlyGenerated(p, es[0]);
      assert !(es[0].Generate? && es[0].id == id);
      assert NoGenerationOf(es[1..], id) by {
        forall k | 0 <= k < |es[1..]| ensures !(es[1..][k].Generate? && es[1..][k].id == id) {
          assert es[1..][k] == es[k + 1];
        }
      }
      AbsentStaysAbsent(Step(p, es[0]), es[1..], id);
    }
  }

  /** A cancelled request cannot come back through the events of its own run. */
  lemma CancelIsFinal(p: Page, id: Id, es: seq<Event>)
    requires NoGenerationOf(es, id)
    ensures id !in Ids(Run(Step(p, Cancel(id)), es).queue)
  {
    AbsentStaysAbsent(Step(p, Cancel(id)), es, id);
  }

  /** An update whose progress value (if any) is within `bound` keeps the queue within `bound`. */
  lemma UpdateWithinBound(q: seq<QueueItem>, id: Id, p: Patch, bound: int)
    requires ProgressAtMost(q, bound)
    requires p.progress.None? || p.progress.value <= bound
    ensures ProgressAtMost(UpdateQueueItem(q, id, p), bound)
  {
  }

  /** A removal keeps the queue within any bound it was within. */
  lemma RemoveWithinBound(q: seq<QueueItem>, id: Id, bound: int)
    requires ProgressAtMost(q, bound)
    ensures ProgressAtMost(RemoveFromQueue(q, id), bound)
  {
    var r := RemoveFromQueue(q, id);
    forall i | 0 <= i < |r| ensures r[i].progress <= bound {
      assert r[i] in r;
    }
  }

  /** No event but a success raises any queued item's progress past the tick ceiling. */
  lemma OnlySuccessPassesCeiling(p: Page, e: Event, bound: int)
    requires bound >= TickCeiling
    requires ProgressAtMost(p.queue, bound)
    requires !e.Succeed?
    ensures ProgressAtMost(Step(p, e).queue, bound)
  {
    match e
    case Generate(id, createdAt, startedAt) =>
      if p.datamart != "" && p.template != "" {
        var added := AddToQueue(p.queue, id, RequestTitle(p.datamart, p.template), createdAt);
        assert ProgressAtMost(added, bound);
        UpdateWithinBound(added, id, NoChange.(status := Some(Processing), startTime := Some(Some(startedAt))), bound);
      }
    case Tick(id, next) =>
      UpdateWithinBound(p.queue, id, NoChange.(progress := Some(Min(next, TickCeiling))), bound);
    case Fail(id, now) =>
      UpdateWithinBound(p.queue, id, NoChange.(status := Some(Failed), error := Some(Some(GenerationError)), endTime := Some(Some(now))), bound);
    case RemovalDue =>
      if p.removals != [] {
        RemoveWithinBound(p.queue, p.removals[0], bound);
      }
    case Retry(id) =>
      UpdateWithinBound(p.queue, id, RetryPatch, bound);
    case Cancel(id) =>
      RemoveWithinBound(p.queue, id, bound);
    case SelectDatamart(_) =>
    case SelectTemplate(_) =>
  }

  /** An update that does not write the completed status completes nothing. */
  lemma UpdateCompletesNothing(q: seq<QueueItem>, id: Id, p: Patch)
    requires KeepsId(p) && p.status != Some(Completed)
    ensures CompletedIds(UpdateQueueItem(q, id, p)) <= CompletedIds(q)
  {
    var r := UpdateQueueItem(q, id, p);
    forall x | x in CompletedIds(r) ensures x in CompletedIds(q) {
      var i :| 0 <= i < |r| && r[i].status == Completed && r[i].id == x;
      assert q[i].status == Completed && q[i].id == x;
    }
  }

  /** A removal completes nothing. */
  lemma RemoveCompletesNothing(q: seq<QueueItem>, id: Id)
    ensures CompletedIds(RemoveFromQueue(q, id)) <= CompletedIds(q)
  {
    var r := RemoveFromQueue(q, id);
    forall x | x in CompletedIds(r) ensures x in CompletedIds(q) {
      var i :| 0 <= i < |r| && r[i].status == Completed && r[i].id == x;
      assert r[i] in r;
      var j :| 0 <= j < |q| && q[j] == r[i];
    }
  }

  /** No event but a success marks a request completed. */
  lemma OnlySuccessCompletes(p: Page, e: Event)
    requires !e.Succeed?
    ensures CompletedIds(Step(p, e).queue) <= CompletedIds(p.queue)
  {
    match e
    case Generate(id, createdAt, startedAt) =>
      if p.datamart != "" && p.template != "" {
        var added := AddToQueue(p.queue, id, RequestTitle(p.datamart, p.template), createdAt);
        assert CompletedIds(added) <= CompletedIds(p.queue) by {
          forall x | x in CompletedIds(added) ensures x in CompletedIds(p.queue) {
            var i :| 0 <= i < |added| && added[i].status == Completed && added[i].id == x;
            assert i < |p.queue| && added[i] == p.queue[i];
          }
        }
        UpdateCompletesNothing(added, id, NoChange.(status := Some(Processing), startTime := Some(Some(startedAt))));
      }
    case Tick(id, next) =>
      UpdateCompletesNothing(p.queue, id, NoChange.(progress := Some(Min(next, TickCeiling))));
    case Fail(id, now) =>
      UpdateCompletesNothing(p.queue, id, NoChange.(status := Some(Failed), error := Some(Some(GenerationError)), endTime := Some(Some(now))));
    case RemovalDue =>
      if p.removals != [] {
        RemoveCompletesNothing(p.queue, p.removals[0]);
      }
    case Retry(id) =>
      UpdateCompletesNothing(p.queue, id, RetryPatch);
    case Cancel(id) =>
      RemoveCompletesNothing(p.queue, id);
    case SelectDatamart(_) =>
    case SelectTemplate(_) =>
  }

  /** `n` firings of removal timers. */
  function RemovalTimers(n: nat): (es: seq<Event>)
    ensures |es| == n
    ensures forall k :: 0 <= k < n ==> es[k] == RemovalDue
  {
    seq(n, _ => RemovalDue)
  }

  /** Once as many removal timers have fired as are pending, every id they were set for is gone. */
  lemma PendingRemovalsDrain(p: Page, id: Id)
    requires id in p.removals
    ensures id !in Ids(Run(p, RemovalTimers(|p.removals|)).queue)
  {
    var j :| 0 <= j < |p.removals| && p.removals[j] == id;
    AllTimersDue(|p.removals|);
    ScheduledRemovalHappens(p, RemovalTimers(|p.removals|), id, j);
  }

  lemma {:induction false} AllTimersDue(n: nat)
    ensures DueCount(RemovalTimers(n)) == n
  {
    if n > 0 {
      DueCountFirst(RemovalTimers(n));
      assert RemovalTimers(n)[1..] == RemovalTimers(n - 1);
      AllTimersDue(n - 1);
    }
  }

  /** The number of removal-timer firings in `es`. */
  function DueCount(es: seq<Event>): nat {
    multiset(es)[RemovalDue]
  }

  /** Counting the firings event by event. */
  lemma DueCountFirst(es: seq<Event>)
    ensures DueCount(es) <= |es|
    ensures es != [] ==> DueCount(es) == (if es[0].RemovalDue? then 1 else 0) + DueCount(es[1..])
  {
    if es != [] {
      assert es == [es[0]] + es[1..];
    }
  }

  lemma NoGenerationOfTail(es: seq<Event>, id: Id)
    requires es != [] && NoGenerationOf(es, id)
    ensures NoGenerationOf(es[1..], id)
  {
    forall k | 0 <= k < |es[1..]| ensures !(es[1..][k].Generate? && es[1..][k].id == id) {
      assert es[1..][k] == es[k + 1];
    }
  }

  lemma RunStep(p: Page, es: seq<Event>)
    requires es != []
    ensures Run(p, es) == Run(Step(p, es[0]), es[1..])
  {
  }

  /** How the first event of `es` moves the removal timer at position `k`: a firing takes the head
      out of the queue and moves the rest up one place; any other event only appends to the timers. */
  lemma PendingAfterStep(p: Page, es: seq<Event>, k: nat) returns (next: Page, k': nat)
    requires es != [] && k < |p.removals|
    ensures Run(p, es) == Run(next, es[1..])
    ensures es[0].RemovalDue? && k == 0 ==> p.removals[0] !in Ids(next.queue)
    ensures !(es[0].RemovalDue? && k == 0) ==> k' < |next.removals| && next.removals[k'] == p.removals[k]
    ensures k' == if es[0].RemovalDue? && 0 < k then k - 1 else k
  {
    next := Step(p, es[0]);
    k' := if es[0].RemovalDue? && 0 < k then k - 1 else k;
    RunStep(p, es);
    if !es[0].RemovalDue? {
      assert p.removals <= next.removals;
    }
  }

  /** One event of a run in which the timer `k`-th in line is `id`'s: if it is that timer firing,
      `id` leaves the queue; otherwise the timer stays in line, one place further up when another
      timer fires. */
  lemma TimerMovesUp(p: Page, es: seq<Event>, id: Id, k: nat) returns (next: Page, k': nat)
    requires NoGenerationOf(es, id)
    requires k < DueCount(es)
    requires k < |p.removals| && p.removals[k] == id
    ensures es != [] && Run(p, es) == Run(next, es[1..])
    ensures NoGenerationOf(es[1..], id)
    ensures es[0].RemovalDue? && k == 0 ==> id !in Ids(next.queue)
    ensures !(es[0].RemovalDue? && k == 0) ==>
      k' < |next.removals| && next.removals[k'] == id && k' < DueCount(es[1..])
  {
    DueCountFirst(es);
    NoGenerationOfTail(es, id);
    next, k' := PendingAfterStep(p, es, k);
  }

  /** A removal scheduled `k`-th in line takes effect once more than `k` timers have fired, whatever
      other events are interleaved, and the id then stays out unless it is generated again. */
  lemma {:induction false} ScheduledRemovalHappens(p: Page, es: seq<Event>, id: Id, k: nat)
    requires NoGenerationOf(es, id)
    requires k < DueCount(es)
    requires k < |p.removals| && p.removals[k] == id
    ensures id !in Ids(Run(p, es).queue)
    decreases |es|
  {
    var next, k' := TimerMovesUp(p, es, id, k);
    if es[0].RemovalDue? && k == 0 {
      AbsentStaysAbsent(next, es[1..], id);
    } else {
      ScheduledRemovalHappens(next, es[1..], id, k');
    }
  }

  /** A success schedules the removal: once the timers pending before it and its own have fired,
      with any other events in between that do not generate the id again, the request is gone. */
  lemma SuccessThenRemoved(p: Page, id: Id, content: string, now: Millis, es: seq<Event>)
    requires id in p.running
    requires NoGenerationOf(es, id)
    requires |p.removals| < DueCount(es)
    ensures id !in Ids(Run(Step(p, Succeed(id, content, now)), es).queue)
  {
    var s := Step(p, Succeed(id, content, now));
    assert s.removals == p.removals + [id];
    ScheduledRemovalHappens(s, es, id, |p.removals|);
  }

  /** A failure keeps the request queued (same ids, same length) and schedules no removal. */
  lemma FailureKeepsRequest(p: Page, id: Id, now: Millis)
    ensures Ids(Step(p, Fail(id, now)).queue) == Ids(p.queue)
    ensures |Step(p, Fail(id, now)).queue| == |p.queue|
    ensures Step(p, Fail(id, now)).removals == p.removals
  {
    UpdateKeepsIds(p.queue, id, NoChange.(status := Some(Failed), error := Some(Some(GenerationError)), endTime := Some(Some(now))));
  }

  /** A generation with both selections made queues its request, processing at 0%. */
  lemma GeneratedItem(p: Page, id: Id, createdAt: Millis, startedAt: Millis)
    requires p.datamart != "" && p.template != ""
    ensures var g := Step(p, Generate(id, createdAt, startedAt));
      && |g.queue| == |p.queue| + 1 && id in g.running
      && g.queue[|p.queue|] == QueueItem(id, Reverse, Processing, RequestTitle(p.datamart, p.template),
                                         0, Some(startedAt), None, None)
  {
  }

  /** A failure of a running request marks its item failed with the message and the end time. */
  lemma FailedItem(g: Page, n: nat, id: Id, failedAt: Millis)
    requires n < |g.queue| && g.queue[n].id == id && id in g.running
    ensures var f := Step(g, Fail(id, failedAt));
      && |f.queue| == |g.queue|
      && f.queue[n] == g.queue[n].(status := Failed, error := Some(GenerationError), endTime := Some(failedAt))
  {
  }

  /** A retry of a queued request resets its item to pending at 0% with no error. */
  lemma RetriedItem(f: Page, n: nat, id: Id)
    requires n < |f.queue| && f.queue[n].id == id
    ensures var r := Step(f, Retry(id));
      && |r.queue| == |f.queue|
      && r.queue[n] == f.queue[n].(status := Pending, progress := 0, error := None)
  {
  }

  /** A request that is generated, fails and is retried is pending again at 0% with no error,
      keeping its title and start time. */
  lemma GenerateFailRetry(p: Page, id: Id, createdAt: Millis, startedAt: Millis, failedAt: Millis)
    requires p.datamart != "" && p.template != ""
    ensures var r := Step(Step(Step(p, Generate(id, createdAt, startedAt)), Fail(id, failedAt)), Retry(id));
      && |r.queue| == |p.queue| + 1
      && r.queue[|p.queue|] == QueueItem(id, Reverse, Pending, RequestTitle(p.datamart, p.template),
                                         0, Some(startedAt), Some(failedAt), None)
  {
    var n := |p.queue|;
    GeneratedItem(p, id, createdAt, startedAt);
    var g := Step(p, Generate(id, createdAt, startedAt));
    FailedItem(g, n, id, failedAt);
    RetriedItem(Step(g, Fail(id, failedAt)), n, id);
  }
}
