/** What each event does to each item of the upload page, and in which order the items of a batch are sent. */
module UploadPageItems {
  import opened UploadPage
  import opened UploadPageRuns

  // ---- Taking up a batch ----

  /** The item was not cancelled and the host gave it a token. */
  predicate Sendable(items: Items, tokens: map<ItemId, Token>, id: ItemId)
  {
    StatusOf(items, id) != Cancelled && id in tokens
  }

  /** `k` is the first position from `index` on whose item can be sent, or the end of the batch. */
  predicate FirstSendable(items: Items, tokens: map<ItemId, Token>, batch: seq<ItemId>, index: nat, k: nat)
  {
    && index <= k && (k <= |batch| || k == index)
    && (forall j :: index <= j < k ==> !Sendable(items, tokens, batch[j]))
    && (k < |batch| ==> Sendable(items, tokens, batch[k]))
  }

  lemma {:induction false} FirstSendableExists(
    items: Items, tokens: map<ItemId, Token>, batch: seq<ItemId>, index: nat) returns (k: nat)
    ensures FirstSendable(items, tokens, batch, index, k)
  {
    k := index;
    while k < |batch| && !Sendable(items, tokens, batch[k])
      invariant index <= k && (k <= |batch| || k == index)
      invariant forall j :: index <= j < k ==> !Sendable(items, tokens, batch[j])
    {
      k := k + 1;
    }
  }

  /** Among the items from `index` up to `k`. */
  predicate Between(batch: seq<ItemId>, index: nat, k: nat, id: ItemId)
  {
    exists j :: index <= j < k && j < |batch| && batch[j] == id
  }

  /**
   * The items between `index` and `k` that were not cancelled have failed for want of a token, the one at `k` is
   * uploading, and no other has changed.
   */
  ghost predicate ItemsTakenUp(items: Items, after: Items, batch: seq<ItemId>, index: nat, k: nat)
  {
    && after.Keys == items.Keys
    && forall id <- items ::
         && after[id].validName == items[id].validName
         && after[id].status == if k < |batch| && id == batch[k] then Uploading
                                else if Between(batch, index, k, id) && items[id].status != Cancelled then Failed
                                else items[id].status
  }

  /** Behind the requests `before` at most the next batch is announced. */
  predicate PumpsNext(before: seq<Request>, q: Page)
  {
    match q.work
    case Idle => !q.pumping && q.requests == before
    case Deciding(next) => q.pumping && next != [] && q.requests == before + [Prepare(next)]
    case _ => false
  }

  /** The batch goes on at `k`: the item there is posted with its token, or the batch is over. */
  ghost predicate TakenUp(
    p: Page, q: Page, session: SessionId, tokens: map<ItemId, Token>, batch: seq<ItemId>, index: nat, skipped: bool,
    k: nat)
  {
    && q.uploads == p.uploads && q.busyRetryMs == p.busyRetryMs && ItemsTakenUp(p.items, q.items, batch, index, k)
    && if k < |batch| then
         && batch[k] in tokens && q.pumping == p.pumping
         && q.requests == p.requests + [Post(session, batch[k], tokens[batch[k]])]
         && q.work == Sending(session, tokens, batch, k, skipped || k > index)
       else
         PumpsNext(p.requests + (if skipped || index < |batch| then [CancelSession(session)] else []), q)
  }

  lemma FinishedPumps(p: Page)
    ensures var q := Finished(p);
            q.uploads == p.uploads && q.items == p.items && q.busyRetryMs == p.busyRetryMs && PumpsNext(p.requests, q)
  {
  }

  /**
   * `uploadSequentially` posts the first item from `index` on that can be sent. The batch ends when there is none,
   * and the session is given back exactly if an item was skipped.
   */
  lemma {:induction false} TakesUpFirstSendable(
    p: Page, session: SessionId, tokens: map<ItemId, Token>, batch: seq<ItemId>, index: nat, skipped: bool, k: nat)
    requires FirstSendable(p.items, tokens, batch, index, k)
    ensures TakenUp(p, Advanced(p, session, tokens, batch, index, skipped), session, tokens, batch, index, skipped, k)
    decreases |batch| - index
  {
    if index >= |batch| {
      FinishedPumps(if skipped then p.(requests := p.requests + [CancelSession(session)]) else p);
      assert p.requests + [] == p.requests;
      hide Finished;
    } else if index < k {
      var id := batch[index];
      assert !Sendable(p.items, tokens, id);
      var r := if StatusOf(p.items, id) == Cancelled then p else p.(items := WithStatus(p.items, id, Failed));
      StillFirst(p.items, tokens, batch, index, k);
      TakesUpFirstSendable(r, session, tokens, batch, index + 1, true, k);
      var q := Advanced(r, session, tokens, batch, index + 1, true);
      assert q == Advanced(p, session, tokens, batch, index, skipped);
      hide Advanced;
      ItemsTakenUpMore(p.items, r.items, q.items, batch, index, k);
    }
  }

  lemma StillFirst(items: Items, tokens: map<ItemId, Token>, batch: seq<ItemId>, index: nat, k: nat)
    requires FirstSendable(items, tokens, batch, index, k) && index < k && index < |batch|
    ensures var id := batch[index];
            var rest := if StatusOf(items, id) == Cancelled then items else WithStatus(items, id, Failed);
            FirstSendable(rest, tokens, batch, index + 1, k)
  {
    assert !Sendable(items, tokens, batch[index]);
    var rest := if StatusOf(items, batch[index]) == Cancelled then items else WithStatus(items, batch[index], Failed);
    assert forall id :: Sendable(rest, tokens, id) <==> Sendable(items, tokens, id);
    hide Sendable;
  }

  lemma ItemsTakenUpMore(items: Items, rest: Items, after: Items, batch: seq<ItemId>, index: nat, k: nat)
    requires index < k && index < |batch| && ItemsTakenUp(rest, after, batch, index + 1, k)
    requires var id := batch[index];
             rest == if StatusOf(items, id) == Cancelled then items else WithStatus(items, id, Failed)
    ensures ItemsTakenUp(items, after, batch, index, k)
  {
    forall id <- items
      ensures Between(batch, index, k, id) <==> id == batch[index] || Between(batch, index + 1, k, id)
    {
      if id == batch[index] {
        assert Between(batch, index, k, id);
      }
      if Between(batch, index, k, id) && id != batch[index] {
        var j :| index <= j < k && j < |batch| && batch[j] == id;
        assert index + 1 <= j;
      }
    }
    hide Between;
  }

  // ---- The user's events ----

  predicate SameItem(p: Page, q: Page, id: ItemId)
  {
    (id in q.items <==> id in p.items) && (id in p.items ==> q.items[id] == p.items[id])
  }

  /** Nothing but the items may differ. */
  predicate SameButItems(p: Page, q: Page)
  {
    q == p.(items := q.items)
  }

  /** An idle engine announces what is pending; a pumping one goes on as it was. */
  predicate Pumps(p: Page, q: Page)
  {
    && q.uploads == p.uploads && q.items == p.items && q.busyRetryMs == p.busyRetryMs
    && if p.pumping then q == p else PumpsNext(p.requests, q)
  }

  /** New files stand at the end of the list in their order; those with an invalid name have failed. */
  lemma {:induction false} AddedFilesAreListed(p: Page, files: seq<(ItemId, bool)>)
    requires FreshFiles(p.items, files)
    ensures var q := AddedFiles(p, files);
            && |q.uploads| == |p.uploads| + |files| && p.uploads <= q.uploads
            && (forall i :: 0 <= i < |files| ==>
                  && q.uploads[|p.uploads| + i] == files[i].0 && files[i].0 in q.items
                  && q.items[files[i].0].status == (if files[i].1 then Queued else Failed)
                  && q.items[files[i].0].validName == files[i].1)
            && (forall id :: (forall i :: 0 <= i < |files| ==> files[i].0 != id) ==> SameItem(p, q, id))
            && q.pumping == p.pumping && q.work == p.work && q.requests == p.requests && q.busyRetryMs == p.busyRetryMs
    decreases |files|
  {
    if files != [] {
      var r := AddedFile(p, files[0].0, files[0].1);
      var rest := files[1..];
      assert forall i :: 0 <= i < |rest| ==> rest[i] == files[i + 1];
      assert FreshFiles(r.items, rest);
      AddedFilesAreListed(r, rest);
      var q := AddedFiles(r, rest);
      hide AddedFiles;
      forall i | 0 <= i < |files|
        ensures q.uploads[|p.uploads| + i] == files[i].0 && files[i].0 in q.items
        ensures q.items[files[i].0].status == (if files[i].1 then Queued else Failed)
        ensures q.items[files[i].0].validName == files[i].1
      {
        if i > 0 {
          assert rest[i - 1] == files[i];
        } else {
          assert forall j :: 0 <= j < |rest| ==> rest[j].0 != files[0].0;
          assert SameItem(r, q, files[0].0);
        }
      }
      forall id | forall i :: 0 <= i < |files| ==> files[i].0 != id ensures SameItem(p, q, id) {
        assert files[0].0 != id;
        assert SameItem(r, q, id);
      }
    }
  }

  /** Adding files lists them and starts an idle engine. */
  lemma AddingFiles(p: Page, files: seq<(ItemId, bool)>)
    requires Inv(p) && FreshFiles(p.items, files)
    ensures var q := Handled(p, FilesAdded(files));
            && |q.uploads| == |p.uploads| + |files| && p.uploads <= q.uploads
            && (forall i :: 0 <= i < |files| ==>
                  && q.uploads[|p.uploads| + i] == files[i].0 && files[i].0 in q.items
                  && q.items[files[i].0] == Item(if files[i].1 then Queued else Failed, files[i].1))
            && (forall id :: (forall i :: 0 <= i < |files| ==> files[i].0 != id) ==> SameItem(p, q, id))
            && (p.pumping ==> q.work == p.work && q.requests == p.requests)
            && (!p.pumping ==> PumpsNext(p.requests, q))
  {
    AddedFilesAreListed(p, files);
    var r, q := AddedFiles(p, files), Handled(p, FilesAdded(files));
    assert files != [] ==> q.items == r.items && q.uploads == r.uploads;
    forall id | forall i :: 0 <= i < |files| ==> files[i].0 != id ensures SameItem(p, q, id) {
      assert SameItem(p, r, id);
    }
    hide AddedFiles;
  }

  lemma AddingKeeps(p: Page, files: seq<(ItemId, bool)>, id: ItemId)
    requires Inv(p) && FreshFiles(p.items, files) && id in p.items
    ensures SameItem(p, Handled(p, FilesAdded(files)), id)
  {
    AddingFiles(p, files);
    assert forall i :: 0 <= i < |files| ==> files[i].0 != id;
    hide Handled;
  }

  /** The button of a row acts on that row's item, as its status tells. */
  lemma ClickingRow(p: Page, id: ItemId, k: nat)
    requires Inv(p) && id in p.uploads
    requires p.work.Sending? ==>
               FirstSendable(WithStatus(p.items, p.work.batch[p.work.index], Cancelled), p.work.tokens, p.work.batch,
                             p.work.index + 1, k)
    ensures var q := Handled(p, RowClicked(id));
            var w := p.work;
            match p.items[id].status
            case Queued => q == p.(items := p.items[id := p.items[id].(status := Cancelled)])
            case Waiting => q == p.(items := p.items[id := p.items[id].(status := Cancelled)])
            case Uploading =>
              && w.Sending? && w.batch[w.index] == id
              && TakenUp(p.(items := p.items[id := p.items[id].(status := Cancelled)]), q,
                         w.session, w.tokens, w.batch, w.index + 1, w.skippedAny, k)
            case Done => q == p.(uploads := q.uploads) && Removed(p.uploads, q.uploads, id)
            case _ =>
              if p.items[id].validName then Pumps(p.(items := p.items[id := p.items[id].(status := Queued)]), q)
              else q == p.(uploads := q.uploads) && Removed(p.uploads, q.uploads, id)
  {
    if p.items[id].status.Uploading? {
      var w := p.work;
      var r := p.(items := WithStatus(p.items, id, Cancelled));
      TakesUpFirstSendable(r, w.session, w.tokens, w.batch, w.index + 1, w.skippedAny, k);
      hide Advanced, TakenUp, FirstSendable;
    } else {
      WithoutIsRemoved(p.uploads, id);
      hide Advanced, FirstPending;
    }
  }

  /** One item left the list; the others keep their order. */
  predicate Removed(uploads: seq<ItemId>, after: seq<ItemId>, id: ItemId)
  {
    exists i :: 0 <= i < |uploads| && uploads[i] == id && after == uploads[..i] + uploads[i + 1..]
  }

  lemma {:induction false} WithoutIsRemoved(uploads: seq<ItemId>, id: ItemId)
    requires id in uploads
    ensures Removed(uploads, Without(uploads, id), id)
    decreases |uploads|
  {
    if uploads[0] == id {
      assert uploads[..0] + uploads[1..] == Without(uploads, id);
    } else {
      WithoutIsRemoved(uploads[1..], id);
      hide Without;
      RemovedBehind(uploads, Without(uploads[1..], id), id);
    }
  }

  lemma RemovedBehind(uploads: seq<ItemId>, after: seq<ItemId>, id: ItemId)
    requires uploads != [] && Removed(uploads[1..], after, id)
    ensures Removed(uploads, [uploads[0]] + after, id)
  {
    var rest := uploads[1..];
    var i :| 0 <= i < |rest| && rest[i] == id && after == rest[..i] + rest[i + 1..];
    assert uploads[i + 1] == id;
    assert [uploads[0]] + after == uploads[..i + 1] + uploads[i + 2..];
  }

  /** Cancelling everything cancels what waits or uploads and leaves all other items as they were. */
  lemma CancellingAll(p: Page)
    requires Inv(p)
    ensures var q := Handled(p, AllCancelled);
            && q.uploads == p.uploads && q.items.Keys == p.items.Keys
            && forall id <- p.items ::
                 && q.items[id].validName == p.items[id].validName
                 && q.items[id].status == if p.items[id].status in {Queued, Waiting, Uploading} then Cancelled
                                          else p.items[id].status
  {
    var r := p.(items := Marked(p.items, p.uploads, ToCancelled));
    assert ListOk(r) && WorkOk(r) && NonePending(r);
    if p.work.Sending? {
      assert r.items[p.work.batch[p.work.index]].status.Uploading?;
      OneToCancel(r, r.uploads);
      CurrentCancelled(r);
      CancelKeepsList(r);
      hide CancelledUploading, UploadEnded;
    } else {
      NoneToCancel(r, r.uploads);
    }
  }

  lemma CancelKeepsList(p: Page)
    requires ListOk(p) && WorkOk(p) && NonePending(p) && p.work.Sending?
    ensures UploadEnded(p, Cancelled).uploads == p.uploads
  {
    var w := p.work;
    var r := p.(items := WithStatus(p.items, w.batch[w.index], Cancelled));
    QuietBatch(r, w.session, w.tokens, w.batch, w.index + 1, w.skippedAny);
    hide Advanced;
  }

  // ---- The host's events ----

  /** A busy host leaves the batch waiting; a refusal or a failed request fails what was not cancelled. */
  lemma HostRefuses(p: Page, answer: Answer)
    requires Inv(p) && p.work.Deciding? && !answer.Accepted?
    ensures var q := Handled(p, HostAnswered(answer));
            && q.uploads == p.uploads && q.items.Keys == p.items.Keys
            && (forall id <- p.items ::
                  && q.items[id].validName == p.items[id].validName
                  && q.items[id].status == if id !in p.work.batch || p.items[id].status == Cancelled
                                           then p.items[id].status
                                           else if answer == HostBusy then Waiting else Failed)
            && if answer == HostBusy then q.work == BackingOff(p.busyRetryMs) && q.requests == p.requests
               else PumpsNext(p.requests, q)
  {
    assert BatchWaits(p.items, p.work.batch, 0);
    forall id <- p.work.batch ensures id in p.items && (p.items[id].status.Pending() || p.items[id].status.Cancelled?) {
      var j :| 0 <= j < |p.work.batch| && p.work.batch[j] == id;
    }
    hide FirstPending;
  }

  /** An accepted batch is taken up from its beginning. */
  lemma HostAccepts(p: Page, session: SessionId, tokens: map<ItemId, Token>, k: nat)
    requires Inv(p) && p.work.Deciding? && FirstSendable(p.items, tokens, p.work.batch, 0, k)
    ensures TakenUp(p.(busyRetryMs := BUSY_RETRY_MIN_MS), Handled(p, HostAnswered(Accepted(session, tokens))),
                    session, tokens, p.work.batch, 0, false, k)
  {
    hide TakenUp, FirstSendable, Advanced;
    TakesUpFirstSendable(p.(busyRetryMs := BUSY_RETRY_MIN_MS), session, tokens, p.work.batch, 0, false, k);
  }

  /** When an upload ended, its item is done or failed, and the batch goes on behind it. */
  lemma UploadIsOver(p: Page, ok: bool, k: nat)
    requires Inv(p) && p.work.Sending?
    requires FirstSendable(WithStatus(p.items, p.work.batch[p.work.index], if ok then Done else Failed), p.work.tokens,
                           p.work.batch, p.work.index + 1, k)
    ensures var w := p.work;
            && w.index < |w.batch| && w.batch[w.index] in p.items
            && var id := w.batch[w.index];
               TakenUp(p.(items := p.items[id := p.items[id].(status := if ok then Done else Failed)]),
                       Handled(p, UploadLoaded(ok)), w.session, w.tokens, w.batch, w.index + 1, w.skippedAny, k)
  {
    var w := p.work;
    hide TakenUp, FirstSendable, Advanced;
    assert w.batch[w.index] in w.batch;
    var r := p.(items := WithStatus(p.items, w.batch[w.index], if ok then Done else Failed));
    TakesUpFirstSendable(r, w.session, w.tokens, w.batch, w.index + 1, w.skippedAny, k);
  }

  /** The host gave no token for an item of the batch. */
  predicate NoTokenFor(p: Page, e: Event, id: ItemId)
  {
    || (p.work.Deciding? && id in p.work.batch && e.HostAnswered? && e.answer.Accepted? && id !in e.answer.tokens)
    || (p.work.Sending? && id in p.work.batch && id !in p.work.tokens)
  }

  lemma SkippedHasNoToken(
    p: Page, q: Page, tokens: map<ItemId, Token>, batch: seq<ItemId>, index: nat, k: nat, id: ItemId)
    requires FirstSendable(p.items, tokens, batch, index, k) && ItemsTakenUp(p.items, q.items, batch, index, k)
    requires id in p.items && p.items[id].status.Pending() && q.items[id].status == Failed
    ensures id in batch && id !in tokens
  {
    assert Between(batch, index, k, id);
    var j :| index <= j < k && j < |batch| && batch[j] == id;
    assert !Sendable(p.items, tokens, batch[j]);
  }

  /** An item still to be sent fails only with a refusal of its batch, or for want of a token. */
  lemma FailsOnlyWithoutToken(p: Page, e: Event, id: ItemId)
    requires Inv(p) && Enabled(p, e) && id in p.items && p.items[id].status.Pending()
    requires id in Handled(p, e).items && Handled(p, e).items[id].status == Failed
    ensures || (p.work.Deciding? && id in p.work.batch && (e == HostAnswered(Rejected) || e == HostAnswered(NoAnswer)))
            || NoTokenFor(p, e, id)
  {
    var w, q := p.work, Handled(p, e);
    match e
    case FilesAdded(files) =>
      AddingKeeps(p, files, id);
    case TimerFired => TimerResumes(p);
    case AllCancelled => CancellingAll(p);
    case HostAnswered(answer) =>
      if answer.Accepted? {
        var k := FirstSendableExists(p.items, answer.tokens, w.batch, 0);
        HostAccepts(p, answer.session, answer.tokens, k);
        SkippedHasNoToken(p, q, answer.tokens, w.batch, 0, k, id);
      } else {
        HostRefuses(p, answer);
      }
    case UploadLoaded(ok) =>
      var r := WithStatus(p.items, w.batch[w.index], if ok then Done else Failed);
      var k := FirstSendableExists(r, w.tokens, w.batch, w.index + 1);
      BatchFacts(p);
      UploadIsOver(p, ok, k);
      SkippedHasNoToken(p.(items := r), q, w.tokens, w.batch, w.index + 1, k, id);
    case RowClicked(row) => FailsByClick(p, row, id);
  }

  lemma FailsByClick(p: Page, row: ItemId, id: ItemId)
    requires Inv(p) && row in p.uploads && id in p.items && p.items[id].status.Pending()
    requires id in Handled(p, RowClicked(row)).items && Handled(p, RowClicked(row)).items[id].status == Failed
    ensures p.work.Sending? && id in p.work.batch && id !in p.work.tokens
  {
    var w, q := p.work, Handled(p, RowClicked(row));
    ListedItems(p);
    var k := 0;
    if w.Sending? {
      BatchFacts(p);
      k := FirstSendableExists(WithStatus(p.items, w.batch[w.index], Cancelled), w.tokens, w.batch, w.index + 1);
    }
    ClickingRow(p, row, k);
    hide Handled, Inv;
    if p.items[row].status.Uploading? {
      var r := p.(items := WithStatus(p.items, row, Cancelled));
      SkippedHasNoToken(r, q, w.tokens, w.batch, w.index + 1, k, id);
    }
  }

  /** The timer changes no item. */
  lemma TimerResumes(p: Page)
    requires Inv(p) && p.work.BackingOff?
    ensures var q := Handled(p, TimerFired);
            q.uploads == p.uploads && q.items == p.items && PumpsNext(p.requests, q)
  {
    FinishedPumps(p);
  }

  // ---- A whole batch ----

  /** The user leaves the batch alone. */
  predicate Undisturbed(e: Event, batch: seq<ItemId>)
  {
    e.FilesAdded? || e.UploadLoaded? || (e.RowClicked? && e.id !in batch)
  }

  /** Uploads that ended, well or not. */
  function Loads(run: seq<Event>): nat
  {
    if run == [] then 0 else Loads(run[..|run| - 1]) + if run[|run| - 1].UploadLoaded? then 1 else 0
  }

  function Posts(session: SessionId, tokens: map<ItemId, Token>, batch: seq<ItemId>): (posts: seq<Request>)
    requires forall id <- batch :: id in tokens
    ensures |posts| == |batch|
    ensures forall i :: 0 <= i < |batch| ==> posts[i] == Post(session, batch[i], tokens[batch[i]])
  {
    seq(|batch|, i requires 0 <= i < |batch| => Post(session, batch[i], tokens[batch[i]]))
  }

  /** The item at `n` is being uploaded, those before it were posted in order, those behind it still can be. */
  ghost predicate SentUpTo(
    before: seq<Request>, q: Page, session: SessionId, tokens: map<ItemId, Token>, batch: seq<ItemId>, n: nat)
    requires forall id <- batch :: id in tokens
  {
    && Inv(q) && n < |batch| && q.work == Sending(session, tokens, batch, n, false)
    && q.requests == before + Posts(session, tokens, batch[..n + 1])
    && forall j :: n < j < |batch| ==> batch[j] in q.items && q.items[batch[j]].status != Cancelled
  }

  lemma BatchStarts(p: Page, session: SessionId, tokens: map<ItemId, Token>)
    requires Inv(p) && p.work.Deciding? && p.work.batch != []
    requires forall id <- p.work.batch :: id in tokens && StatusOf(p.items, id) != Cancelled
    ensures SentUpTo(p.requests, Handled(p, HostAnswered(Accepted(session, tokens))), session, tokens, p.work.batch, 0)
  {
    var batch, e := p.work.batch, HostAnswered(Accepted(session, tokens));
    var q := Handled(p, e);
    assert batch[0] in batch;
    HostAccepts(p, session, tokens, 0);
    InvStep(p, e);
    assert Unique(batch) && BatchWaits(p.items, batch, 0);
    hide Handled, Inv;
    assert batch[..1] == [batch[0]];
    assert Posts(session, tokens, batch[..1]) == [Post(session, batch[0], tokens[batch[0]])];
    forall j | 0 < j < |batch| ensures batch[j] in q.items && q.items[batch[j]].status != Cancelled {
      assert batch[j] in batch && batch[j] in p.items;
    }
  }

  lemma NextIsPosted(
    before: seq<Request>, p: Page, ok: bool, session: SessionId, tokens: map<ItemId, Token>, batch: seq<ItemId>, n: nat)
    requires (forall id <- batch :: id in tokens) && SentUpTo(before, p, session, tokens, batch, n)
    ensures var q := Handled(p, UploadLoaded(ok));
            if n + 1 < |batch| then SentUpTo(before, q, session, tokens, batch, n + 1)
            else PumpsNext(before + Posts(session, tokens, batch), q)
  {
    var q := Handled(p, UploadLoaded(ok));
    var status := if ok then Done else Failed;
    assert Unique(batch) && batch[n] in p.items by { BatchFacts(p); }
    UploadIsOver(p, ok, n + 1);
    InvStep(p, UploadLoaded(ok));
    hide Handled, Inv;
    assert p.requests + [] == p.requests;
    if n + 1 < |batch| {
      assert batch[..n + 2] == batch[..n + 1] + [batch[n + 1]];
      assert Posts(session, tokens, batch[..n + 2])
          == Posts(session, tokens, batch[..n + 1]) + [Post(session, batch[n + 1], tokens[batch[n + 1]])];
      forall j | n + 1 < j < |batch| ensures batch[j] in q.items && q.items[batch[j]].status != Cancelled {
        assert !Between(batch, n + 1, n + 1, batch[j]);
      }
    } else {
      assert batch[..n + 1] == batch;
    }
  }

  lemma BatchFacts(p: Page)
    requires Inv(p) && p.work.Sending?
    ensures Unique(p.work.batch) && p.work.index < |p.work.batch| && p.work.batch[p.work.index] in p.items
    ensures p.pumping && p.items[p.work.batch[p.work.index]].status.Uploading?
  {
  }

  lemma OthersLeaveBatch(
    before: seq<Request>, p: Page, e: Event, session: SessionId, tokens: map<ItemId, Token>, batch: seq<ItemId>, n: nat)
    requires (forall id <- batch :: id in tokens) && SentUpTo(before, p, session, tokens, batch, n)
    requires Enabled(p, e) && Undisturbed(e, batch) && !e.UploadLoaded?
    ensures SentUpTo(before, Handled(p, e), session, tokens, batch, n)
  {
    var q := Handled(p, e);
    BatchFacts(p);
    InvStep(p, e);
    if e.FilesAdded? {
      AddingFiles(p, e.files);
      forall j | n < j < |batch| ensures SameItem(p, q, batch[j]) {
        AddingKeeps(p, e.files, batch[j]);
      }
    } else {
      var r := WithStatus(p.items, p.work.batch[p.work.index], Cancelled);
      var k := FirstSendableExists(r, p.work.tokens, p.work.batch, p.work.index + 1);
      assert forall j :: 0 <= j < |batch| ==> batch[j] in batch;
      assert e.id in p.items by { ListedItems(p); }
      ClickingRow(p, e.id, k);
    }
    hide Handled, Inv, TakenUp, PumpsNext;
  }

  lemma ListedItems(p: Page)
    requires Inv(p)
    ensures forall id <- p.uploads :: id in p.items
  {
  }

  lemma {:induction false} LastEvent(p: Page, run: seq<Event>)
    requires Possible(p, run) && run != []
    ensures var front, e := run[..|run| - 1], run[|run| - 1];
            && Possible(p, front) && Enabled(After(p, front), e)
            && After(p, run) == Handled(After(p, front), e)
    decreases |run|
  {
    hide Handled, Enabled;
    var front := run[..|run| - 1];
    if |run| == 1 {
      assert front == [] && run[1..] == [];
    } else {
      LastEvent(Handled(p, run[0]), run[1..]);
      assert run[1..][..|run| - 2] == front[1..] && front[0] == run[0];
    }
  }

  /** After `loads` uploads of the batch are over, the last of them just now. */
  ghost predicate Posting(
    before: seq<Request>, q: Page, session: SessionId, tokens: map<ItemId, Token>, batch: seq<ItemId>, loads: nat,
    justNow: bool)
    requires forall id <- batch :: id in tokens
  {
    && (loads < |batch| ==> SentUpTo(before, q, session, tokens, batch, loads))
    && (justNow && loads == |batch| ==> PumpsNext(before + Posts(session, tokens, batch), q))
  }

  lemma PostingNext(
    before: seq<Request>, p: Page, e: Event, session: SessionId, tokens: map<ItemId, Token>, batch: seq<ItemId>,
    loads: nat, justNow: bool)
    requires (forall id <- batch :: id in tokens) && Posting(before, p, session, tokens, batch, loads, justNow)
    requires Enabled(p, e) && Undisturbed(e, batch)
    ensures Posting(before, Handled(p, e), session, tokens, batch, loads + if e.UploadLoaded? then 1 else 0,
                    e.UploadLoaded?)
  {
    hide Handled, Enabled, SentUpTo, PumpsNext, Posts;
    if loads < |batch| {
      if e.UploadLoaded? {
        NextIsPosted(before, p, e.ok, session, tokens, batch, loads);
      } else {
        OthersLeaveBatch(before, p, e, session, tokens, batch, loads);
      }
    }
  }

  predicate LoadedLast(run: seq<Event>)
  {
    run != [] && run[|run| - 1].UploadLoaded?
  }

  lemma {:induction false} PostingAfter(
    before: seq<Request>, p: Page, session: SessionId, tokens: map<ItemId, Token>, batch: seq<ItemId>,
    run: seq<Event>)
    requires (forall id <- batch :: id in tokens) && Posting(before, p, session, tokens, batch, 0, false)
    requires Possible(p, run) && forall i :: 0 <= i < |run| ==> Undisturbed(run[i], batch)
    ensures Posting(before, After(p, run), session, tokens, batch, Loads(run), LoadedLast(run))
    decreases |run|
  {
    hide *;
    if run == [] {
      NoLoads();
      NothingHappened(p);
    } else {
      var front, e := run[..|run| - 1], run[|run| - 1];
      LastEvent(p, run);
      LoadsNext(run);
      PostingAfter(before, p, session, tokens, batch, front);
      PostingNext(before, After(p, front), e, session, tokens, batch, Loads(front), LoadedLast(front));
    }
  }

  /**
   * A batch whose files all got tokens, and that the user leaves alone, is posted in order, one file when the one
   * before it is over, however that ended; then the engine goes on to what is pending. The session is not given
   * back.
   */
  lemma BatchIsPostedInOrder(p: Page, session: SessionId, tokens: map<ItemId, Token>, run: seq<Event>)
    requires Inv(p) && p.work.Deciding? && p.work.batch != []
    requires forall id <- p.work.batch :: id in tokens && StatusOf(p.items, id) != Cancelled
    requires Possible(Handled(p, HostAnswered(Accepted(session, tokens))), run)
    requires forall i :: 0 <= i < |run| ==> Undisturbed(run[i], p.work.batch)
    ensures var batch := p.work.batch;
            var q := After(Handled(p, HostAnswered(Accepted(session, tokens))), run);
            && (Loads(run) < |batch| ==>
                  && q.work == Sending(session, tokens, batch, Loads(run), false)
                  && q.requests == p.requests + Posts(session, tokens, batch[..Loads(run) + 1]))
            && (run != [] && run[|run| - 1].UploadLoaded? && Loads(run) == |batch| ==>
                  PumpsNext(p.requests + Posts(session, tokens, batch), q))
  {
    assert Enabled(p, HostAnswered(Accepted(session, tokens)));
    hide *;
    var a := Handled(p, HostAnswered(Accepted(session, tokens)));
    BatchStarts(p, session, tokens);
    PostingStarts(p.requests, a, session, tokens, p.work.batch);
    PostingAfter(p.requests, a, session, tokens, p.work.batch, run);
    PostingMeans(p.requests, After(a, run), session, tokens, p.work.batch, Loads(run), LoadedLast(run));
    LoadedLastMeans(run);
  }

  lemma PostingStarts(
    before: seq<Request>, q: Page, session: SessionId, tokens: map<ItemId, Token>, batch: seq<ItemId>)
    requires (forall id <- batch :: id in tokens) && SentUpTo(before, q, session, tokens, batch, 0)
    ensures Posting(before, q, session, tokens, batch, 0, false)
  {
    hide SentUpTo;
  }

  lemma PostingMeans(
    before: seq<Request>, q: Page, session: SessionId, tokens: map<ItemId, Token>, batch: seq<ItemId>, loads: nat,
    justNow: bool)
    requires (forall id <- batch :: id in tokens) && Posting(before, q, session, tokens, batch, loads, justNow)
    ensures loads < |batch| ==>
              && q.work == Sending(session, tokens, batch, loads, false)
              && q.requests == before + Posts(session, tokens, batch[..loads + 1])
    ensures justNow && loads == |batch| ==> PumpsNext(before + Posts(session, tokens, batch), q)
  {
    hide Inv, Posts, PumpsNext;
  }

  lemma LoadedLastMeans(run: seq<Event>)
    ensures LoadedLast(run) <==> run != [] && run[|run| - 1].UploadLoaded?
  {
  }

  lemma NoLoads()
    ensures Loads([]) == 0 && !LoadedLast([])
  {
  }

  lemma LoadsNext(run: seq<Event>)
    requires run != []
    ensures Loads(run) == Loads(run[..|run| - 1]) + if run[|run| - 1].UploadLoaded? then 1 else 0
    ensures LoadedLast(run) == run[|run| - 1].UploadLoaded?
  {
  }

  lemma NothingHappened(p: Page)
    ensures Possible(p, []) && After(p, []) == p
  {
  }
}
