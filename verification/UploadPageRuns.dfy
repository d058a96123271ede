/** What holds of the page's upload engine in every state between events. */
module UploadPageRuns {
  import opened UploadPage

  datatype Event =
    | FilesAdded(files: seq<(ItemId, bool)>)
    | HostAnswered(answer: Answer)
    | TimerFired
    | UploadLoaded(ok: bool)                      // status 200, or any other status or a network error
    | RowClicked(id: ItemId)
    | AllCancelled

  predicate FreshFiles(items: Items, files: seq<(ItemId, bool)>)
  {
    && (forall i :: 0 <= i < |files| ==> files[i].0 !in items)
    && (forall i, j :: 0 <= i < j < |files| ==> files[i].0 != files[j].0)
  }

  predicate Enabled(p: Page, e: Event)
  {
    match e
    case FilesAdded(files) => FreshFiles(p.items, files)
    case HostAnswered(_) => p.work.Deciding?
    case TimerFired => p.work.BackingOff?
    case UploadLoaded(_) => p.work.Sending? && p.work.index < |p.work.batch|
    case RowClicked(id) => id in p.uploads
    case AllCancelled => true
  }

  function Handled(p: Page, e: Event): Page
    requires Enabled(p, e)
  {
    match e
    case FilesAdded(files) => Added(p, files)
    case HostAnswered(answer) => Answered(p, answer)
    case TimerFired => Finished(p)
    case UploadLoaded(ok) => UploadEnded(p, if ok then Done else Failed)
    case RowClicked(id) => Clicked(p, id)
    case AllCancelled => CancelledAll(p)
  }

  // ---- The list ----

  predicate Unique(ids: seq<ItemId>)
  {
    forall i, j :: 0 <= i < j < |ids| ==> ids[i] != ids[j]
  }

  /** The list has no duplicates, and every item still to be sent is in it. */
  ghost predicate ListOk(p: Page)
  {
    && Unique(p.uploads)
    && (forall id <- p.uploads :: id in p.items)
    && (forall id :: id in p.items && p.items[id].status.Busy() ==> id in p.uploads)
  }

  function AllPending(uploads: seq<ItemId>, items: Items): seq<ItemId>
  {
    if uploads == [] then []
    else (if StatusOf(items, uploads[0]).Pending() then [uploads[0]] else []) + AllPending(uploads[1..], items)
  }

  /** A batch is the first pending items in list order, as many as fit. */
  lemma {:induction false} FirstPendingIsPrefix(uploads: seq<ItemId>, items: Items, room: nat)
    ensures FirstPending(uploads, items, room) <= AllPending(uploads, items)
    ensures |FirstPending(uploads, items, room)| <= room
    ensures |FirstPending(uploads, items, room)| < room ==>
              FirstPending(uploads, items, room) == AllPending(uploads, items)
    decreases |uploads|
  {
    if uploads != [] && room > 0 {
      if StatusOf(items, uploads[0]).Pending() {
        FirstPendingIsPrefix(uploads[1..], items, room - 1);
      } else {
        FirstPendingIsPrefix(uploads[1..], items, room);
      }
    }
  }

  lemma {:induction false} FirstPendingMembers(uploads: seq<ItemId>, items: Items, room: nat)
    requires Unique(uploads)
    ensures var batch := FirstPending(uploads, items, room);
            && Unique(batch)
            && (forall id <- batch :: id in uploads && StatusOf(items, id).Pending())
            && (room > 0 ==> (batch == [] <==> forall id <- uploads :: !StatusOf(items, id).Pending()))
    decreases |uploads|
  {
    if uploads != [] && room > 0 {
      var first, rest := uploads[0], uploads[1..];
      assert uploads == [first] + rest && first !in rest;
      assert Unique(rest);
      var batch := FirstPending(uploads, items, room);
      if StatusOf(items, first).Pending() {
        FirstPendingMembers(rest, items, room - 1);
        var more := FirstPending(rest, items, room - 1);
        assert batch == [first] + more && first !in more;
        hide FirstPending, StatusOf, Status.Pending;
      } else {
        FirstPendingMembers(rest, items, room);
        assert batch == FirstPending(rest, items, room);
        hide FirstPending, StatusOf, Status.Pending;
      }
    }
  }

  // ---- Invariant ----

  predicate NotUploading(items: Items)
  {
    forall id <- items :: !items[id].status.Uploading?
  }

  /** From `index` on, the batch is made of distinct known items that wait or were cancelled. */
  ghost predicate BatchWaits(items: Items, batch: seq<ItemId>, index: nat)
  {
    && Unique(batch)
    && (forall id <- batch :: id in items)
    && (forall j :: index <= j < |batch| ==> items[batch[j]].status.Pending() || items[batch[j]].status.Cancelled?)
  }

  ghost predicate WorkOk(p: Page)
  {
    && (p.pumping <==> !p.work.Idle?)
    && match p.work
       case Idle => forall id <- p.items :: !p.items[id].status.Busy()
       case Deciding(batch) => NotUploading(p.items) && BatchWaits(p.items, batch, 0)
       case BackingOff(_) => NotUploading(p.items)
       case Sending(_, tokens, batch, index, _) =>
         && index < |batch| && BatchWaits(p.items, batch, index + 1)
         && batch[index] in tokens
         && (forall id <- p.items :: p.items[id].status.Uploading? <==> id == batch[index])
  }

  ghost predicate Inv(p: Page)
  {
    && ListOk(p) && WorkOk(p)
    && BUSY_RETRY_MIN_MS <= p.busyRetryMs <= BUSY_RETRY_MAX_MS
  }

  lemma PumpedOk(p: Page)
    requires ListOk(p) && !p.pumping && p.work.Idle? && NotUploading(p.items)
    ensures ListOk(Pumped(p)) && WorkOk(Pumped(p))
  {
    FirstPendingMembers(p.uploads, p.items, MAX_BATCH_FILES);
  }

  lemma FinishedOk(p: Page)
    requires ListOk(p) && NotUploading(p.items)
    ensures ListOk(Finished(p)) && WorkOk(Finished(p))
  {
    var q := p.(pumping := false, work := Idle);
    assert ListOk(q);
    assert Finished(p) == Pumped(q);
    hide ListOk, WorkOk, Pumped, Finished;
    PumpedOk(q);
  }

  lemma {:induction false} AdvancedOk(
    p: Page, session: SessionId, tokens: map<ItemId, Token>, batch: seq<ItemId>, index: nat, skippedAny: bool)
    requires p.pumping && ListOk(p) && NotUploading(p.items) && BatchWaits(p.items, batch, index)
    ensures ListOk(Advanced(p, session, tokens, batch, index, skippedAny))
    ensures WorkOk(Advanced(p, session, tokens, batch, index, skippedAny))
    decreases |batch| - index
  {
    if index >= |batch| {
      FinishedOk(if skippedAny then p.(requests := p.requests + [CancelSession(session)]) else p);
    } else if StatusOf(p.items, batch[index]).Cancelled? {
      AdvancedOk(p, session, tokens, batch, index + 1, true);
    } else if batch[index] !in tokens {
      AdvancedOk(p.(items := WithStatus(p.items, batch[index], Failed)), session, tokens, batch, index + 1, true);
    } else {
      assert batch[index] in p.items;
    }
  }

  lemma UploadEndedOk(p: Page, status: Status)
    requires ListOk(p) && WorkOk(p) && p.work.Sending? && !status.Busy()
    ensures ListOk(UploadEnded(p, status)) && WorkOk(UploadEnded(p, status))
  {
    var w := p.work;
    assert w.batch[w.index] in p.items;
    var q := p.(items := WithStatus(p.items, w.batch[w.index], status));
    AdvancedOk(q, w.session, w.tokens, w.batch, w.index + 1, w.skippedAny);
  }

  lemma AnsweredOk(p: Page, answer: Answer)
    requires ListOk(p) && WorkOk(p) && p.work.Deciding?
    ensures ListOk(Answered(p, answer)) && WorkOk(Answered(p, answer))
  {
    var batch := p.work.batch;
    match answer
    case HostBusy =>
    case Accepted(session, tokens) =>
      AdvancedOk(p.(busyRetryMs := BUSY_RETRY_MIN_MS), session, tokens, batch, 0, false);
    case Rejected =>
      FinishedOk(p.(items := Marked(p.items, batch, ToFailed), busyRetryMs := BUSY_RETRY_MIN_MS));
    case NoAnswer =>
      FinishedOk(p.(items := Marked(p.items, batch, ToFailed)));
  }

  lemma {:induction false} AddedFilesOk(p: Page, files: seq<(ItemId, bool)>)
    requires ListOk(p) && FreshFiles(p.items, files)
    ensures var q := AddedFiles(p, files);
            && ListOk(q) && q.pumping == p.pumping && q.work == p.work && q.busyRetryMs == p.busyRetryMs
            && q.requests == p.requests && p.items.Keys <= q.items.Keys
            && (forall id <- p.items :: q.items[id] == p.items[id])
            && (forall id :: id in q.items && id !in p.items ==>
                  q.items[id].status.Queued? || q.items[id].status.Failed?)
    decreases |files|
  {
    if files != [] {
      var q := AddedFile(p, files[0].0, files[0].1);
      assert ListOk(q);
      AddedFilesOk(q, files[1..]);
    }
  }

  lemma AddedOk(p: Page, files: seq<(ItemId, bool)>)
    requires ListOk(p) && WorkOk(p) && FreshFiles(p.items, files)
    ensures ListOk(Added(p, files)) && WorkOk(Added(p, files))
  {
    if files != [] {
      AddedFilesOk(p, files);
      if !p.pumping {
        PumpedOk(AddedFiles(p, files));
      }
    }
  }

  lemma CancelledItemOk(p: Page, id: ItemId)
    requires ListOk(p) && WorkOk(p)
    ensures ListOk(CancelledItem(p, id)) && WorkOk(CancelledItem(p, id))
  {
    if StatusOf(p.items, id).Uploading? && Current(p, id) {
      UploadEndedOk(p, Cancelled);
    }
  }

  lemma RetriedItemOk(p: Page, id: ItemId)
    requires ListOk(p) && WorkOk(p) && id in p.uploads
    ensures ListOk(RetriedItem(p, id)) && WorkOk(RetriedItem(p, id))
  {
    var q := p.(items := WithStatus(p.items, id, Queued));
    if RetriedItem(p, id) != p && !p.pumping {
      PumpedOk(q);
    }
  }

  lemma {:induction false} WithoutMembers(uploads: seq<ItemId>, id: ItemId)
    requires Unique(uploads)
    ensures Unique(Without(uploads, id))
    ensures forall i :: i in Without(uploads, id) <==> i in uploads && i != id
    decreases |uploads|
  {
    if uploads != [] {
      assert uploads == [uploads[0]] + uploads[1..];
      WithoutMembers(uploads[1..], id);
      if uploads[0] != id {
        assert Without(uploads, id) == [uploads[0]] + Without(uploads[1..], id);
        assert uploads[0] !in Without(uploads[1..], id);
      }
    }
  }

  lemma RemovedItemOk(p: Page, id: ItemId)
    requires ListOk(p) && WorkOk(p)
    ensures ListOk(RemovedItem(p, id)) && WorkOk(RemovedItem(p, id))
  {
    WithoutMembers(p.uploads, id);
  }

  lemma {:induction false} CancelledUploadingOk(p: Page, uploads: seq<ItemId>)
    requires ListOk(p) && WorkOk(p)
    ensures ListOk(CancelledUploading(p, uploads)) && WorkOk(CancelledUploading(p, uploads))
    decreases |uploads|
  {
    if uploads != [] {
      if StatusOf(p.items, uploads[0]).Uploading? {
        CancelledItemOk(p, uploads[0]);
        CancelledUploadingOk(CancelledItem(p, uploads[0]), uploads[1..]);
      } else {
        CancelledUploadingOk(p, uploads[1..]);
      }
    }
  }

  lemma CancelledAllOk(p: Page)
    requires ListOk(p) && WorkOk(p)
    ensures ListOk(CancelledAll(p)) && WorkOk(CancelledAll(p))
  {
    var q := p.(items := Marked(p.items, p.uploads, ToCancelled));
    assert ListOk(q) && WorkOk(q);
    CancelledUploadingOk(q, p.uploads);
  }

  lemma ClickedOk(p: Page, id: ItemId)
    requires ListOk(p) && WorkOk(p) && id in p.uploads
    ensures ListOk(Clicked(p, id)) && WorkOk(Clicked(p, id))
  {
    CancelledItemOk(p, id);
    RetriedItemOk(p, id);
    RemovedItemOk(p, id);
  }

  // ---- What a step leaves alone ----

  /** A batch announced on the way from `p` to `q` is the last request, and the first pending items of `q`. */
  predicate Announces(p: Page, q: Page)
  {
    && p.requests <= q.requests
    && forall i :: |p.requests| <= i < |q.requests| && q.requests[i].Prepare? ==>
         && i == |q.requests| - 1
         && q.work == Deciding(q.requests[i].batch)
         && q.requests[i].batch != []
         && q.requests[i].batch == FirstPending(q.uploads, q.items, MAX_BATCH_FILES)
  }

  ghost function Busy(p: Page): set<ItemId>
  {
    set id | id in p.items && p.items[id].status.Busy()
  }

  ghost predicate Keeps(p: Page, q: Page)
  {
    && q.busyRetryMs == p.busyRetryMs && q.items.Keys == p.items.Keys
    && (forall id <- p.items :: p.items[id].status.Done? <==> q.items[id].status.Done?)
    && Announces(p, q)
  }

  lemma {:induction false} AdvancedKeeps(
    p: Page, session: SessionId, tokens: map<ItemId, Token>, batch: seq<ItemId>, index: nat, skippedAny: bool)
    requires BatchWaits(p.items, batch, index)
    ensures var q := Advanced(p, session, tokens, batch, index, skippedAny);
            Keeps(p, q) && Busy(q) <= Busy(p)
    decreases |batch| - index
  {
    if index >= |batch| {
    } else if StatusOf(p.items, batch[index]).Cancelled? {
      AdvancedKeeps(p, session, tokens, batch, index + 1, true);
    } else if batch[index] !in tokens {
      var q := p.(items := WithStatus(p.items, batch[index], Failed));
      AdvancedKeeps(q, session, tokens, batch, index + 1, true);
    }
  }

  lemma UploadEndedKeeps(p: Page, status: Status)
    requires Inv(p) && p.work.Sending? && !status.Busy()
    ensures var q := UploadEnded(p, status);
            var id := p.work.batch[p.work.index];
            && q.busyRetryMs == p.busyRetryMs && q.items.Keys == p.items.Keys && Announces(p, q)
            && (forall i <- p.items :: i != id ==> (p.items[i].status.Done? <==> q.items[i].status.Done?))
            && (q.items[id].status.Done? <==> status.Done?)
            && Busy(q) < Busy(p)
  {
    var w := p.work;
    var id := w.batch[w.index];
    var r := p.(items := WithStatus(p.items, id, status));
    assert id in Busy(p) && Busy(r) == Busy(p) - {id};
    AdvancedKeeps(r, w.session, w.tokens, w.batch, w.index + 1, w.skippedAny);
  }

  // ---- Cancelling everything ----

  ghost predicate NonePending(p: Page)
  {
    forall id <- p.items :: !p.items[id].status.Pending()
  }

  /** What is left of a batch when nothing waits any more: the session is given back, nothing else is asked for. */
  lemma {:induction false} QuietBatch(
    p: Page, session: SessionId, tokens: map<ItemId, Token>, batch: seq<ItemId>, index: nat, skippedAny: bool)
    requires ListOk(p) && NonePending(p) && BatchWaits(p.items, batch, index)
    ensures Advanced(p, session, tokens, batch, index, skippedAny)
         == p.(pumping := false, work := Idle,
               requests := if skippedAny || index < |batch| then p.requests + [CancelSession(session)] else p.requests)
    decreases |batch| - index
  {
    if index >= |batch| {
      FirstPendingMembers(p.uploads, p.items, MAX_BATCH_FILES);
    } else {
      assert batch[index] in p.items;
      QuietBatch(p, session, tokens, batch, index + 1, true);
    }
  }

  lemma {:induction false} NoneToCancel(p: Page, list: seq<ItemId>)
    requires NotUploading(p.items)
    ensures CancelledUploading(p, list) == p
    decreases |list|
  {
    if list != [] {
      NoneToCancel(p, list[1..]);
    }
  }

  lemma {:induction false} OneToCancel(p: Page, list: seq<ItemId>)
    requires ListOk(p) && WorkOk(p) && NonePending(p) && p.work.Sending? && p.work.batch[p.work.index] in list
    ensures CancelledUploading(p, list) == UploadEnded(p, Cancelled)
    decreases |list|
  {
    var id := p.work.batch[p.work.index];
    if list[0] == id {
      CurrentCancelled(p);
      NoneToCancel(UploadEnded(p, Cancelled), list[1..]);
    } else {
      OneToCancel(p, list[1..]);
    }
  }

  lemma CurrentCancelled(p: Page)
    requires ListOk(p) && WorkOk(p) && NonePending(p) && p.work.Sending?
    ensures var q := UploadEnded(p, Cancelled);
            && q.work.Idle? && !q.pumping && Busy(q) == {} && NotUploading(q.items)
            && (q.requests == p.requests || q.requests == p.requests + [CancelSession(p.work.session)])
            && q.busyRetryMs == p.busyRetryMs && q.items == WithStatus(p.items, p.work.batch[p.work.index], Cancelled)
  {
    var w := p.work;
    var r := p.(items := WithStatus(p.items, w.batch[w.index], Cancelled));
    QuietBatch(r, w.session, w.tokens, w.batch, w.index + 1, w.skippedAny);
  }

  /**
   * Cancelling everything leaves nothing queued, waiting or uploading. It asks the host for nothing new:
   * at most the session of the running batch is given back.
   */
  lemma CancelAllStopsEverything(p: Page)
    requires Inv(p)
    ensures var q := CancelledAll(p);
            && Busy(q) == {}
            && (q.requests == p.requests
                || (p.work.Sending? && q.requests == p.requests + [CancelSession(p.work.session)]))
            && Keeps(p, q)
  {
    var q := p.(items := Marked(p.items, p.uploads, ToCancelled));
    assert ListOk(q) && WorkOk(q) && NonePending(q);
    if p.work.Sending? {
      assert q.items[p.work.batch[p.work.index]].status.Uploading?;
      OneToCancel(q, q.uploads);
      CurrentCancelled(q);
    } else {
      NoneToCancel(q, q.uploads);
    }
  }

  // ---- Steps ----

  lemma {:induction false} AddedKeeps(p: Page, files: seq<(ItemId, bool)>)
    requires ListOk(p) && FreshFiles(p.items, files)
    ensures var q := Added(p, files);
            && q.busyRetryMs == p.busyRetryMs && p.items.Keys <= q.items.Keys && Announces(p, q)
            && (forall id <- p.items :: q.items[id] == p.items[id])
            && (forall id <- q.items :: id !in p.items ==> !q.items[id].status.Done?)
  {
    AddedFilesOk(p, files);
  }

  lemma AnsweredKeeps(p: Page, answer: Answer)
    requires Inv(p) && p.work.Deciding?
    ensures var q := Answered(p, answer);
            && BUSY_RETRY_MIN_MS <= q.busyRetryMs <= BUSY_RETRY_MAX_MS
            && q.items.Keys == p.items.Keys && Announces(p, q)
            && (forall id <- p.items :: p.items[id].status.Done? <==> q.items[id].status.Done?)
            && Busy(q) <= Busy(p)
  {
    if answer.Accepted? {
      AdvancedKeeps(p.(busyRetryMs := BUSY_RETRY_MIN_MS), answer.session, answer.tokens, p.work.batch, 0, false);
    }
  }

  lemma CancelledItemKeeps(p: Page, id: ItemId)
    requires Inv(p)
    ensures Keeps(p, CancelledItem(p, id))
  {
    if StatusOf(p.items, id).Uploading? && Current(p, id) {
      UploadEndedKeeps(p, Cancelled);
    }
  }

  lemma RetriedItemKeeps(p: Page, id: ItemId)
    requires Inv(p)
    ensures Keeps(p, RetriedItem(p, id))
  {
  }

  lemma ClickedKeeps(p: Page, id: ItemId)
    requires Inv(p)
    ensures Keeps(p, Clicked(p, id))
  {
    hide Inv;
    CancelledItemKeeps(p, id);
    RetriedItemKeeps(p, id);
  }

  lemma InvStep(p: Page, e: Event)
    requires Inv(p) && Enabled(p, e)
    ensures Inv(Handled(p, e))
    ensures Announces(p, Handled(p, e))
  {
    match e
    case FilesAdded(files) =>
      AddedOk(p, files);
      AddedKeeps(p, files);
    case HostAnswered(answer) =>
      AnsweredOk(p, answer);
      AnsweredKeeps(p, answer);
    case TimerFired =>
      FinishedOk(p);
    case UploadLoaded(ok) =>
      UploadEndedOk(p, if ok then Done else Failed);
      UploadEndedKeeps(p, if ok then Done else Failed);
    case RowClicked(id) =>
      ClickedOk(p, id);
      ClickedKeeps(p, id);
    case AllCancelled =>
      CancelledAllOk(p);
      CancelAllStopsEverything(p);
  }

  /** An item becomes done only while it is being uploaded, by an answer 200 to that upload, and stays so. */
  lemma DoneOnlyAfterUpload(p: Page, e: Event, id: ItemId)
    requires Inv(p) && Enabled(p, e) && id in p.items
    ensures id in Handled(p, e).items
    ensures Handled(p, e).items[id].status.Done? <==>
              p.items[id].status.Done?
              || (p.items[id].status.Uploading? && Current(p, id) && e == UploadLoaded(true))
  {
    match e
    case FilesAdded(files) => AddedKeeps(p, files);
    case HostAnswered(answer) => AnsweredKeeps(p, answer);
    case TimerFired =>
    case UploadLoaded(ok) => UploadEndedKeeps(p, if ok then Done else Failed);
    case RowClicked(i) => ClickedKeeps(p, i);
    case AllCancelled => CancelAllStopsEverything(p);
  }

  /** Only an answer changes the back-off: a busy one lengthens it, a decision resets it, a failed request does not. */
  lemma BackOffFollowsAnswers(p: Page, e: Event)
    requires Inv(p) && Enabled(p, e)
    ensures var q := Handled(p, e);
            if e == HostAnswered(HostBusy) then
              && q.work == BackingOff(p.busyRetryMs)
              && q.busyRetryMs == Min(p.busyRetryMs * 1.5, BUSY_RETRY_MAX_MS) >= p.busyRetryMs
            else if e.HostAnswered? && !e.answer.NoAnswer? then q.busyRetryMs == BUSY_RETRY_MIN_MS
            else q.busyRetryMs == p.busyRetryMs
  {
    match e
    case FilesAdded(files) => AddedKeeps(p, files);
    case HostAnswered(answer) =>
      if answer.Accepted? {
        AdvancedKeeps(p.(busyRetryMs := BUSY_RETRY_MIN_MS), answer.session, answer.tokens, p.work.batch, 0, false);
      }
    case TimerFired =>
    case UploadLoaded(ok) => UploadEndedKeeps(p, if ok then Done else Failed);
    case RowClicked(i) => ClickedKeeps(p, i);
    case AllCancelled => CancelAllStopsEverything(p);
  }

  // ---- Runs ----

  predicate Possible(p: Page, run: seq<Event>)
    decreases |run|
  {
    run == [] || (Enabled(p, run[0]) && Possible(Handled(p, run[0]), run[1..]))
  }

  function After(p: Page, run: seq<Event>): Page
    requires Possible(p, run)
    decreases |run|
  {
    if run == [] then p else After(Handled(p, run[0]), run[1..])
  }

  lemma {:induction false} RunKeepsInv(p: Page, run: seq<Event>)
    requires Inv(p) && Possible(p, run)
    ensures Inv(After(p, run))
    decreases |run|
  {
    hide Inv, Handled, Enabled;
    if run != [] {
      InvStep(p, run[0]);
      RunKeepsInv(Handled(p, run[0]), run[1..]);
    }
  }

  /**
   * No upload is ever lost: in every state between events, whatever the user and the host did, an engine
   * that does not pump has nothing left to send, and one that pumps waits for exactly one outside event.
   * At most one item is uploading.
   */
  lemma NothingIsLost(run: seq<Event>)
    requires Possible(START, run)
    ensures var p := After(START, run);
            && (forall id :: id in p.items && p.items[id].status.Busy() ==> id in p.uploads && p.pumping)
            && (p.pumping <==> p.work.Deciding? || p.work.BackingOff? || p.work.Sending?)
            && (forall i, j ::
                  && i in p.items && p.items[i].status.Uploading?
                  && j in p.items && p.items[j].status.Uploading?
                  ==> i == j && Current(p, i))
            && BUSY_RETRY_MIN_MS <= p.busyRetryMs <= BUSY_RETRY_MAX_MS
  {
    RunKeepsInv(START, run);
  }

  /** Every batch ever announced is the first pending items at that moment, in list order, at most fifty. */
  lemma BatchesAreFirstPending(run: seq<Event>, e: Event)
    requires Possible(START, run) && Enabled(After(START, run), e)
    ensures var p := After(START, run);
            var q := Handled(p, e);
            p.requests <= q.requests
            && forall i :: |p.requests| <= i < |q.requests| && q.requests[i].Prepare? ==>
                 var batch := q.requests[i].batch;
                 && i == |q.requests| - 1
                 && 0 < |batch| <= MAX_BATCH_FILES
                 && batch <= AllPending(q.uploads, q.items)
                 && (|batch| < MAX_BATCH_FILES ==> batch == AllPending(q.uploads, q.items))
  {
    RunKeepsInv(START, run);
    BatchStep(After(START, run), e);
  }

  lemma BatchStep(p: Page, e: Event)
    requires Inv(p) && Enabled(p, e)
    ensures var q := Handled(p, e);
            p.requests <= q.requests
            && forall i :: |p.requests| <= i < |q.requests| && q.requests[i].Prepare? ==>
                 var batch := q.requests[i].batch;
                 && i == |q.requests| - 1
                 && 0 < |batch| <= MAX_BATCH_FILES
                 && batch <= AllPending(q.uploads, q.items)
                 && (|batch| < MAX_BATCH_FILES ==> batch == AllPending(q.uploads, q.items))
  {
    var q := Handled(p, e);
    InvStep(p, e);
    FirstPendingIsPrefix(q.uploads, q.items, MAX_BATCH_FILES);
    hide Handled, Enabled;
  }

  // ---- Progress ----

  /** An answer that decides: the user did nothing and the host was not busy. */
  predicate Resolves(e: Event)
  {
    e.UploadLoaded? || (e.HostAnswered? && !e.answer.HostBusy?)
  }

  ghost predicate SomePending(items: Items, batch: seq<ItemId>, index: nat)
  {
    exists j :: index <= j < |batch| && StatusOf(items, batch[j]).Pending()
  }

  ghost function Rank(p: Page): nat
  {
    3 * |Busy(p)| + if !p.work.Deciding? then 0 else if SomePending(p.items, p.work.batch, 0) then 1 else 2
  }

  /** A batch of which something waits either starts an upload or fails the item for want of a token. */
  lemma {:induction false} AdvancedProgress(
    p: Page, session: SessionId, tokens: map<ItemId, Token>, batch: seq<ItemId>, index: nat, skippedAny: bool)
    requires BatchWaits(p.items, batch, index) && SomePending(p.items, batch, index)
    ensures var q := Advanced(p, session, tokens, batch, index, skippedAny);
            q.work.Sending? || Busy(q) < Busy(p)
    decreases |batch| - index
  {
    if StatusOf(p.items, batch[index]).Cancelled? {
      AdvancedProgress(p, session, tokens, batch, index + 1, true);
    } else if batch[index] !in tokens {
      var q := p.(items := WithStatus(p.items, batch[index], Failed));
      assert batch[index] in Busy(p) && Busy(q) == Busy(p) - {batch[index]};
      AdvancedKeeps(q, session, tokens, batch, index + 1, true);
    }
  }

  lemma Smaller(a: set<ItemId>, b: set<ItemId>)
    ensures a <= b ==> |a| <= |b|
    ensures a < b ==> |a| < |b|
  {
    if a <= b {
      assert b == a + (b - a);
    }
  }

  lemma ResolvingStep(p: Page, e: Event)
    requires Inv(p) && Enabled(p, e) && Resolves(e)
    ensures Rank(Handled(p, e)) < Rank(p)
  {
    var q := Handled(p, e);
    Smaller(Busy(q), Busy(p));
    InvStep(p, e);
    match e
    case UploadLoaded(ok) => UploadEndedKeeps(p, if ok then Done else Failed);
    case HostAnswered(answer) => AnsweredProgress(p, answer);
  }

  lemma AnsweredProgress(p: Page, answer: Answer)
    requires Inv(p) && p.work.Deciding? && !answer.HostBusy?
    ensures var q := Answered(p, answer);
            && Busy(q) <= Busy(p)
            && (SomePending(p.items, p.work.batch, 0) ==> Busy(q) < Busy(p) || !q.work.Deciding?)
            && (q.work.Deciding? ==> SomePending(q.items, q.work.batch, 0))
  {
    var batch := p.work.batch;
    var q := Answered(p, answer);
    AnsweredKeeps(p, answer);
    AnsweredOk(p, answer);
    if SomePending(p.items, batch, 0) {
      if answer.Accepted? {
        AdvancedProgress(p.(busyRetryMs := BUSY_RETRY_MIN_MS), answer.session, answer.tokens, batch, 0, false);
      } else {
        var j :| 0 <= j < |batch| && StatusOf(p.items, batch[j]).Pending();
        assert batch[j] in Busy(p) && batch[j] !in Busy(q);
      }
    }
    if q.work.Deciding? {
      FirstPendingMembers(q.uploads, q.items, MAX_BATCH_FILES);
      AnnouncedNow(p, answer);
      assert q.work.batch[0] in q.work.batch;
    }
  }

  lemma AnnouncedNow(p: Page, answer: Answer)
    requires Inv(p) && p.work.Deciding? && !answer.HostBusy? && Answered(p, answer).work.Deciding?
    ensures var q := Answered(p, answer);
            q.work.batch != [] && q.work.batch == FirstPending(q.uploads, q.items, MAX_BATCH_FILES)
  {
    if answer.Accepted? {
      AdvancedAnnounces(p.(busyRetryMs := BUSY_RETRY_MIN_MS), answer.session, answer.tokens, p.work.batch, 0, false);
    }
  }

  lemma {:induction false} AdvancedAnnounces(
    p: Page, session: SessionId, tokens: map<ItemId, Token>, batch: seq<ItemId>, index: nat, skippedAny: bool)
    ensures var q := Advanced(p, session, tokens, batch, index, skippedAny);
            q.work.Deciding? ==> q.work.batch != [] && q.work.batch == FirstPending(q.uploads, q.items, MAX_BATCH_FILES)
    decreases |batch| - index
  {
    if index >= |batch| {
    } else if StatusOf(p.items, batch[index]).Cancelled? {
      AdvancedAnnounces(p, session, tokens, batch, index + 1, true);
    } else if batch[index] !in tokens {
      var q := p.(items := WithStatus(p.items, batch[index], Failed));
      AdvancedAnnounces(q, session, tokens, batch, index + 1, true);
    }
  }

  /**
   * While the user does nothing and the host is not busy, at most three events for each item still to be
   * sent (and two for an announced batch) pass before nothing is left to send.
   */
  lemma {:induction false} QuietRunsEnd(p: Page, run: seq<Event>)
    requires Inv(p) && Possible(p, run) && (forall i :: 0 <= i < |run| ==> Resolves(run[i]))
    ensures |run| <= Rank(p) <= 3 * |Busy(p)| + 2
    decreases |run|
  {
    hide Inv, Handled, Enabled;
    if run != [] {
      assert Resolves(run[0]);
      ResolvingStep(p, run[0]);
      InvStep(p, run[0]);
      QuietRunsEnd(Handled(p, run[0]), run[1..]);
    }
  }
}
