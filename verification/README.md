# Request queue, history and form rules of the DWH Copilot front end

The DWH Copilot front end is a set of React screens over mock data. This project takes the few
sequential rules inside those components and states them as pure Dafny functions over immutable
datatypes, with the properties the components rely on proved:

- **Queue reducer** (`QueueItems`, `QueueOps`). This is the `QueueItem` record, `Partial<QueueItem>` updates
  merged by object spread, and `addToQueue`, `updateQueueItem`, `removeFromQueue` and the retry guard
  of the reverse-engineering page.
- **Generation lifecycle** (`ReversePage`). This is `handleGenerate` with its timers turned into events: a
  progress tick capped at 90, success at 100 with a delayed removal, failure with an error, plus
  retry and cancel. Every event is folded into one `Step` over the page state.
- **Queue view rules** (`QueueView`). These decide which action each row offers, when the progress bar
  and the error text show, and the elapsed seconds of a row. They also cover the order-preserving
  active filter and the tab badges.
- **Durations** (`Durations`). The history table and the details dialog both split whole seconds
  into seconds, minutes and seconds, or hours and minutes. The hours branch drops the seconds.
- **History classification** (`History`). This covers the rating marker, the rating label and the
  sections the details dialog shows.
- **Feedback widget** (`Feedback`). The rating widget is modelled as a state machine: idle, comment
  dialog open, submitted. It emits at most one rating, and every negative rating carries a non-blank
  comment.
- **Login** (`Login`). This is the empty-field check, the fixed `user`/`user` credential check and
  the outcome of each submission.

Clocks, ids and timers are parameters or events. Times are integer milliseconds. Dafny's `/` on
`int` with the positive divisor 1000 is `Math.floor`, so negative elapsed times are handled the
way the components handle them. User-visible messages are kept as the components' own strings.
The unit words of the duration labels are not kept: a `Duration` datatype stands in for them.

The code as written:

- Retry resets any queued item with the id, whatever its status. Only the view restricts the
  button to failed items.
- There is no history store in the page. A completed item is removed 3 s after success, and a
  failed item stays in the queue.
- Cancel does not clear the progress interval. Later ticks reach an id that is no longer queued
  and change nothing (`ReversePage.AbsentStaysAbsent`).

## Model

| member | source | states |
|---|---|---|
| `Seqs.Filter` | src/components/RequestTabs.tsx:24-26 | The result holds exactly the elements that satisfy the predicate. It is never longer than the input, and it has the same length exactly when every element is kept. |
| `Seqs.FilterAppend` | src/components/RequestTabs.tsx:24-26 | Filtering a concatenation is concatenating the filtered parts, so relative order is preserved. |
| `QueueItems.Merge` | src/components/ReverseEngineering.tsx:47 | The object spread: each key the patch carries wins, including a key set to `undefined`. Each key it leaves out keeps the item's value, and the empty patch changes nothing. |
| `QueueItems.MergeIdempotent` | src/components/ReverseEngineering.tsx:46-48 | Spreading the same partial update twice is spreading it once. |
| `QueueOps.AddToQueue` | src/components/ReverseEngineering.tsx:30-43 | Appends exactly one item at the end: the given id and title, kind reverse, pending, progress 0, start time now, no end time, no error. The existing items are unchanged and keep their order, and the id set grows by the id. |
| `QueueOps.UpdateQueueItem` | src/components/ReverseEngineering.tsx:45-49 | Keeps the length and positions. An item whose id matches becomes the merge of the item and the patch; every other item is identical. |
| `QueueOps.UpdateKeepsIds` | src/components/ReverseEngineering.tsx:45-49 | An update that does not write the id leaves the set of queued ids unchanged. |
| `QueueOps.UpdateAbsent` | src/components/ReverseEngineering.tsx:45-49 | An update for an id that is not queued returns the queue unchanged, so a late tick cannot bring an item back. |
| `QueueOps.UpdateIdempotent` | src/components/ReverseEngineering.tsx:45-49 | Sending the same update twice has the effect of sending it once. |
| `QueueOps.RemoveFromQueue` | src/components/ReverseEngineering.tsx:51-53 | The result holds exactly the items whose id differs, so every item with that id is gone whatever its status. The length is unchanged exactly when the id was absent. |
| `QueueOps.RemoveAbsent` | src/components/ReverseEngineering.tsx:51-53 | Removing an id that is not queued returns the queue unchanged. |
| `QueueOps.RemoveAppend` | src/components/ReverseEngineering.tsx:51-53 | Removal distributes over concatenation, so the remaining items keep their order. |
| `QueueOps.RemoveIdempotent` | src/components/ReverseEngineering.tsx:146-147 | Cancelling the same id twice is cancelling it once. |
| `QueueOps.RemoveAfterUpdate` | src/components/ReverseEngineering.tsx:45-53 | Removing an id after updating it gives the same queue as removing it straight away. |
| `QueueOps.AddThenRemove` | src/components/ReverseEngineering.tsx:30-53 | Adding a request under an id that is not queued and then removing that id restores the queue. |
| `QueueOps.RetryRequest` | src/components/ReverseEngineering.tsx:138-144 | Every item with the id becomes pending with progress 0 and no error. Id, kind, title, start and end times are kept on every item. Items with another id are untouched, so an absent id changes nothing. |
| `QueueOps.RetryAbsent` | src/components/ReverseEngineering.tsx:138-144 | A retry for an id that is not queued leaves the queue unchanged. |
| `ReversePage.StartGeneration` | src/components/ReverseEngineering.tsx:55-65 | An empty datamart or template leaves the page unchanged. Otherwise loading is set, one item is appended (processing, progress 0, the request title, start time of the processing update) and its run is started. Earlier items with other ids are untouched. Earlier items with the same id are also marked processing with the new start time. The selections are unchanged. |
| `ReversePage.ProgressTick` | src/components/ReverseEngineering.tsx:65-72 | While the run is live, the items with the id get progress min(next, 90), which never exceeds 90. Everything else on the page is unchanged. |
| `ReversePage.Success` | src/components/ReverseEngineering.tsx:114-124 | The items with the id become completed with progress 100 and the end time. Other items are unchanged and the content is shown. Loading ends, the run ends and the id is queued for the 3-second removal. Nothing else on the page, selections included, changes. |
| `ReversePage.Failure` | src/components/ReverseEngineering.tsx:126-135 | The items with the id become failed with the error message and the end time, and stay queued. Other items are unchanged and no removal is scheduled. Loading ends and the run ends. Nothing else on the page, selections included, changes. |
| `ReversePage.DueRemoval` | src/components/ReverseEngineering.tsx:123-124 | The oldest pending removal timer fires and removes its id from the queue. With no timer pending nothing changes. Nothing but the queue and the pending timers changes. |
| `ReversePage.CancelRequest` | src/components/ReverseEngineering.tsx:146-151 | Every item with the id is gone, the rest remain in their order (the queue is exactly the filtered queue), and loading is off. Nothing else on the page changes: selections, runs and removal timers are untouched. |
| `ReversePage.Step` | src/components/ReverseEngineering.tsx:138-151 | Only the selection events change the selections. A retry changes nothing but the queue: items with the id become pending at 0% with no error, other items are untouched. After a cancel the id is not queued, the other items keep their order, and loading is off. |
| `ReversePage.StepAddsOnlyGenerated` | src/components/ReverseEngineering.tsx:30-53 | No event other than a generation adds an id to the queue. A generation adds at most its own id. |
| `ReversePage.AbsentStaysAbsent` | src/components/ReverseEngineering.tsx:45-53 | An id missing from the queue stays missing through any run of events that starts no generation under that id. |
| `ReversePage.CancelIsFinal` | src/components/ReverseEngineering.tsx:146-151 | After a cancel, late ticks, successes, failures, retries and removals never bring the id back. |
| `ReversePage.OnlySuccessPassesCeiling` | src/components/ReverseEngineering.tsx:65-119 | Take any bound of at least 90 that all queued progress values respect. Every event except success keeps all progress values within that bound. |
| `ReversePage.OnlySuccessCompletes` | src/components/ReverseEngineering.tsx:114-132 | No event except success adds a completed id to the queue. |
| `ReversePage.PendingRemovalsDrain` | src/components/ReverseEngineering.tsx:51-53 | Once as many removal timers have fired as were pending, every id they were set for is gone from the queue. |
| `ReversePage.ScheduledRemovalHappens` | src/components/ReverseEngineering.tsx:51-53 | A removal timer `k`-th in line removes its id once more than `k` timers have fired, with any other events interleaved, and the id stays out unless it is generated again. |
| `ReversePage.SuccessThenRemoved` | src/components/ReverseEngineering.tsx:114-124 | After a success, the request is gone from the queue in any later run of events in which more timers fire than were pending before the success, provided the run does not generate the id again; other events may come in between. |
| `ReversePage.FailureKeepsRequest` | src/components/ReverseEngineering.tsx:126-132 | A failure keeps the queue length and the set of queued ids, and schedules no removal. |
| `ReversePage.GeneratedItem` | src/components/ReverseEngineering.tsx:58-62 | A generation with both selections appends the item for its id as processing at 0%, and its run is live. |
| `ReversePage.FailedItem` | src/components/ReverseEngineering.tsx:128-132 | A failure of a live run turns its item failed with the message and the end time, and keeps everything else on the item. |
| `ReversePage.RetriedItem` | src/components/ReverseEngineering.tsx:138-144 | A retry turns a queued item pending at 0% with no error, and keeps everything else on the item. |
| `ReversePage.GenerateFailRetry` | src/components/ReverseEngineering.tsx:55-144 | Generate, fail, retry leaves the new item pending at 0% with no error. It keeps its title, kind, start time and failure end time. |
| `QueueView.RenderRow` | src/components/RequestQueue.tsx:72-108 | Retry is offered exactly for failed items, and cancel exactly for pending or processing ones; either needs its callback, and completed items get no action. The progress bar shows exactly for processing items, with their progress. Error text shows exactly for failed items with a non-empty error. Elapsed seconds show exactly when there is a start time; they are the whole seconds to the end time, or to the supplied now while there is none. |
| `QueueView.ActionsExclusive` | src/components/RequestQueue.tsx:78-93 | No row offers both retry and cancel. |
| `QueueView.RenderQueue` | src/components/RequestQueue.tsx:23-24 | An empty queue renders nothing. Otherwise there is one row per item, in queue order. |
| `QueueView.ActiveItems` | src/components/RequestTabs.tsx:24-26 | Every item in the active list is pending or processing and comes from the queue. Every pending or processing queue item is in the list. The list is no longer than the queue. |
| `QueueView.ActiveAppend` | src/components/RequestTabs.tsx:24-26 | The active list of a concatenation is the concatenation of the active lists, so items keep their relative order. |
| `QueueView.ActiveOfActive` | src/components/RequestTabs.tsx:24-26 | A queue holding only active items is its own active list. |
| `QueueView.TabBadges` | src/components/RequestTabs.tsx:35-46 | The active badge shows exactly when some item is pending or processing. Its number is the active-list length, between 1 and the queue length. The history badge is always the history length. |
| `Durations.FloorDiv` | src/components/RequestHistory.tsx:71 | The result is the floor of a over b for a positive b. |
| `Durations.ElapsedSeconds` | src/components/RequestHistory.tsx:71 | d is the whole number of seconds between start and end, rounded down, even when end comes before start. |
| `Durations.GetDuration` | src/components/RequestHistory.tsx:70-75 | The reported duration meets the branch constraints for the elapsed whole seconds. Under a minute it is seconds only; from an hour on it is hours and minutes. |
| `Durations.Decompose` | src/components/RequestHistory.tsx:72-74 | Below 60 it reports d seconds. From 60 to 3599 it reports minutes and seconds, with minutes·60 + seconds = d, 1 ≤ minutes ≤ 59 and seconds < 60. From 3600 on it reports hours ≥ 1 and minutes < 60, with hours·3600 + minutes·60 ≤ d < that + 60. |
| `Durations.DecomposeIsTheDescription` | src/components/RequestHistory.tsx:70-75 | Exactly one duration meets the branch constraints for a given d, and it is the one computed. |
| `Durations.ShownVersusElapsed` | src/components/RequestDetails.tsx:57-62 | Below an hour the parts add back to d exactly. From an hour on they add to d − d mod 60, within a minute of d. |
| `Durations.HoursBranchDropsSeconds` | src/components/RequestDetails.tsx:61 | In the hours branch, times in the same minute give the same report. |
| `Durations.FormatDuration` | src/components/RequestQueue.tsx:52-57 | With no start time there is nothing to show. Otherwise it reports whole seconds from the start to the end time, or to the supplied now when there is no end time. |
| `History.RatingIcon` | src/components/RequestHistory.tsx:53-58 | No rating gives the dash. Positive gives thumb up and negative gives thumb down, each exactly. |
| `History.RatingText` | src/components/RequestDetails.tsx:75-84 | Positive and negative get their own distinct labels, and no rating gets the not-rated label, each exactly. |
| `History.RatingViewsAgree` | src/components/RequestDetails.tsx:75-84 | The label tells two ratings apart exactly when they differ, and the table marker tells apart exactly the same ratings. |
| `History.DetailsSections` | src/components/RequestDetails.tsx:17-173 | A null item renders nothing. Otherwise the error section shows exactly for a non-empty error and the comment section exactly for a non-empty comment. Results show exactly for a completed item with a non-empty result. |
| `History.FailedShowsNoResults` | src/components/RequestDetails.tsx:173 | A failed item never shows a results section. |
| `Feedback.TrimStart` | src/components/ResultFeedback.tsx:94 | The result is a suffix of the input. The dropped prefix is all white space and the result does not start with white space. |
| `Feedback.TrimEnd` | src/components/ResultFeedback.tsx:94 | The result is a prefix of the input. The dropped suffix is all white space and the result does not end with white space. |
| `Feedback.TrimEmptyIffBlank` | src/components/ResultFeedback.tsx:94 | The trimmed comment is empty exactly when the comment is all white space. |
| `Feedback.PositiveClick` | src/components/ResultFeedback.tsx:18-21 | A click on enabled, shown buttons emits a positive rating and moves to submitted. When disabled or already submitted it does nothing. |
| `Feedback.NegativeClick` | src/components/ResultFeedback.tsx:23-25 | Never emits. On enabled, shown buttons it only opens the dialog; otherwise nothing changes. |
| `Feedback.EditComment` | src/components/ResultFeedback.tsx:79-83 | Never emits. Typing replaces the comment only while the dialog is open. |
| `Feedback.SubmitComment` | src/components/ResultFeedback.tsx:27-32 | Emits exactly when the dialog is open, nothing was submitted and the comment is not blank. It then emits a negative rating with that comment, closes the dialog, marks submitted and clears the buffer; otherwise nothing changes. |
| `Feedback.CloseDialog` | src/components/ResultFeedback.tsx:86-91 | Closes the dialog without emitting and keeps the typed text. |
| `Feedback.Step` | src/components/ResultFeedback.tsx:34-43 | Once submitted, no action changes anything or emits. An action emits exactly when it moves the widget to submitted, and an emitted negative rating has a non-blank comment. |
| `Feedback.RunEmitsAtMostOnce` | src/components/ResultFeedback.tsx:13-43 | Over any input sequence the widget emits at most one rating. It ends submitted exactly when it emitted one or started submitted. A submitted widget never changes, and every negative rating carries a non-blank comment. |
| `Feedback.FreshWidgetRatesOnce` | src/components/ResultFeedback.tsx:14-16 | From the initial state the user gives at most one rating, and the widget is submitted exactly when one was given. |
| `Login.BeginSubmit` | src/pages/Login.tsx:25-35 | With an empty login or password, the check is not scheduled, the error is the fill-in-all-fields message and loading is off. Otherwise the error is cleared, loading is on and the check is scheduled. |
| `Login.FinishCheck` | src/pages/Login.tsx:37-49 | Loading is off afterwards. Sign-in happens exactly for login "user" with password "user"; it stores the auth flag "true" and the login, targets route "/" and keeps the error. Any other pair gets the wrong-credentials error. |
| `Login.Decide` | src/pages/Login.tsx:20-47 | The verdict is an empty-field error exactly when a field is empty, and success exactly for the fixed pair. Every other pair is a wrong-credentials error. |
| `Login.HandleSubmit` | src/pages/Login.tsx:25-50 | Loading is off when the submission ends. Sign-in happens exactly for the fixed pair, storing the flag and the login and targeting "/", with no error. The fill-in error shows exactly when a field is empty. The wrong-credentials error shows exactly for any other non-empty pair. |
| `Login.SubmitFollowsDecision` | src/pages/Login.tsx:25-50 | A whole submission ends with loading off, with the error and sign-in effects that the decision calls for. |

## Left out

- JSX markup, CSS classes, icons and label wording. Only the guard decisions that choose what is shown are modelled.
- Timers and their delays (600 ms interval, 3 s call, 3 s removal, 1 s login delay). They become explicit events, and the removal timers fire oldest first.
- `Date.now()` and `new Date()`. Ids and millisecond timestamps are parameters, and ids are not assumed unique.
- `ReversePage.ProgressTick`: the tick writes min(next, 90) for a supplied next. The value the interval computes from a stale queue snapshot (ReverseEngineering.tsx:68) is not modelled, and progress is not claimed to grow.
- `Intl.DateTimeFormat` date formatting, `getStatusIcon`/`getStatusText`/`getTypeText`/`getRatingColor` display tables, and the random link/table counts in the results section.
- `localStorage`, `navigate` and `console.log`. A sign-in is returned as a `SignIn` value, and the feedback callback's output is the emitted rating.
- `ReversePage.Failure`: the simulated call (ReverseEngineering.tsx:76) never rejects and nothing else in the `try` block throws, so the catch branch cannot run in the code as written. The failure event over-approximates it.
- The generated requirements text. A success event carries the content as a parameter.
- The modal dialog blocking clicks on the rating buttons behind it. This is a rendering effect.
- `History.DetailsSections`: `result` has type `any` in the source. It is modelled as optional text, truthy when present and non-empty.
- Stage lists, overall-progress formulas, queue positions, wait estimates, a history store with ratings, and ownership checks. None of these exist in these components.
- The static mock content and the purely presentational components of the application.
