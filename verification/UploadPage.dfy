/** The upload engine of the web page: event callbacks over the list of selected files. */
module UploadPage {

  type ItemId = nat
  type SessionId = nat
  type Token = nat

  const MAX_BATCH_FILES := 50
  const BUSY_RETRY_MIN_MS: real := 1000.0
  const BUSY_RETRY_MAX_MS: real := 5000.0

  datatype Status = Queued | Waiting | Uploading | Done | Failed | Cancelled
  {
    predicate Pending()
    {
      Queued? || Waiting?
    }

    predicate Busy()
    {
      Pending() || Uploading?
    }
  }

  datatype Item = Item(status: Status, validName: bool)

  type Items = map<ItemId, Item>

  /** What the page is waiting for while it pumps. */
  datatype Work =
    | Idle
    | Deciding(batch: seq<ItemId>)                // the host decides on the announced batch
    | BackingOff(delayMs: real)                   // the host was busy: a timer runs
    | Sending(session: SessionId, tokens: map<ItemId, Token>, batch: seq<ItemId>, index: nat, skippedAny: bool)

  /** What the page sends to the host. */
  datatype Request =
    | Prepare(batch: seq<ItemId>)
    | Post(session: SessionId, item: ItemId, token: Token)
    | CancelSession(session: SessionId)

  datatype Page = Page(
    uploads: seq<ItemId>, items: Items, pumping: bool, work: Work, busyRetryMs: real, requests: seq<Request>)

  const START := Page([], map[], false, Idle, BUSY_RETRY_MIN_MS, [])

  function StatusOf(items: Items, id: ItemId): Status
  {
    if id in items then items[id].status else Cancelled
  }

  function WithStatus(items: Items, id: ItemId, status: Status): Items
  {
    if id in items then items[id := items[id].(status := status)] else items
  }

  /** The first items that are pending, at most `room`. */
  function FirstPending(uploads: seq<ItemId>, items: Items, room: nat): seq<ItemId>
  {
    if uploads == [] || room == 0 then []
    else if StatusOf(items, uploads[0]).Pending() then [uploads[0]] + FirstPending(uploads[1..], items, room - 1)
    else FirstPending(uploads[1..], items, room)
  }

  function Pumped(p: Page): Page
  {
    var batch := FirstPending(p.uploads, p.items, MAX_BATCH_FILES);
    if p.pumping || batch == [] then p
    else p.(pumping := true, work := Deciding(batch), requests := p.requests + [Prepare(batch)])
  }

  function Finished(p: Page): Page
  {
    Pumped(p.(pumping := false, work := Idle))
  }

  /** `uploadSequentially` from `index`: skips what cannot be sent, starts the next upload or ends the batch. */
  function Advanced(
    p: Page, session: SessionId, tokens: map<ItemId, Token>, batch: seq<ItemId>, index: nat, skippedAny: bool): Page
    decreases |batch| - index
  {
    if index >= |batch| then
      Finished(if skippedAny then p.(requests := p.requests + [CancelSession(session)]) else p)
    else
      var id := batch[index];
      if StatusOf(p.items, id).Cancelled? then
        Advanced(p, session, tokens, batch, index + 1, true)
      else if id !in tokens then
        Advanced(p.(items := WithStatus(p.items, id, Failed)), session, tokens, batch, index + 1, true)
      else
        p.(items := WithStatus(p.items, id, Uploading),
           work := Sending(session, tokens, batch, index, skippedAny),
           requests := p.requests + [Post(session, id, tokens[id])])
  }

  /** Applies `change` to the items of a batch. */
  function Marked(items: Items, batch: seq<ItemId>, change: Status -> Status): Items
  {
    map id | id in items :: if id in batch then items[id].(status := change(items[id].status)) else items[id]
  }

  function ToWaiting(s: Status): Status
  {
    if s.Pending() then Waiting else s
  }

  function ToFailed(s: Status): Status
  {
    if s.Cancelled? then s else Failed
  }

  function ToCancelled(s: Status): Status
  {
    if s.Pending() then Cancelled else s
  }

  /** The host's answer to an announced batch. */
  datatype Answer =
    | HostBusy                                                    // 409
    | Accepted(session: SessionId, tokens: map<ItemId, Token>)    // 200 with tokens
    | Rejected                                                    // any other status, or no tokens
    | NoAnswer                                                    // the request failed

  function Min(a: real, b: real): real
  {
    if a < b then a else b
  }

  function Answered(p: Page, answer: Answer): Page
    requires p.work.Deciding?
  {
    var batch := p.work.batch;
    match answer
    case HostBusy =>
      p.(items := Marked(p.items, batch, ToWaiting), work := BackingOff(p.busyRetryMs),
         busyRetryMs := Min(p.busyRetryMs * 1.5, BUSY_RETRY_MAX_MS))
    case Accepted(session, tokens) =>
      Advanced(p.(busyRetryMs := BUSY_RETRY_MIN_MS), session, tokens, batch, 0, false)
    case Rejected =>
      Finished(p.(items := Marked(p.items, batch, ToFailed), busyRetryMs := BUSY_RETRY_MIN_MS))
    case NoAnswer =>
      Finished(p.(items := Marked(p.items, batch, ToFailed)))
  }

  /** The current upload ends with `status`; the batch goes on. */
  function UploadEnded(p: Page, status: Status): Page
    requires p.work.Sending? && p.work.index < |p.work.batch|
  {
    var w := p.work;
    Advanced(p.(items := WithStatus(p.items, w.batch[w.index], status)),
             w.session, w.tokens, w.batch, w.index + 1, w.skippedAny)
  }

  function AddedFile(p: Page, id: ItemId, validName: bool): Page
  {
    p.(uploads := p.uploads + [id], items := p.items[id := Item(if validName then Queued else Failed, validName)])
  }

  function AddedFiles(p: Page, files: seq<(ItemId, bool)>): Page
    decreases |files|
  {
    if files == [] then p else AddedFiles(AddedFile(p, files[0].0, files[0].1), files[1..])
  }

  function Added(p: Page, files: seq<(ItemId, bool)>): Page
  {
    if files == [] then p else Pumped(AddedFiles(p, files))
  }

  /** The item whose upload is running. */
  predicate Current(p: Page, id: ItemId)
  {
    p.work.Sending? && p.work.index < |p.work.batch| && p.work.batch[p.work.index] == id
  }

  function CancelledItem(p: Page, id: ItemId): Page
  {
    var status := StatusOf(p.items, id);
    if status.Uploading? && Current(p, id) then UploadEnded(p, Cancelled)     // abort: the callback goes on
    else if status.Pending() then p.(items := WithStatus(p.items, id, Cancelled))
    else p
  }

  function RetriedItem(p: Page, id: ItemId): Page
  {
    var status := StatusOf(p.items, id);
    if !status.Failed? && !status.Cancelled? then p
    else if id !in p.items || !p.items[id].validName then p
    else Pumped(p.(items := WithStatus(p.items, id, Queued)))
  }

  function Without(uploads: seq<ItemId>, id: ItemId): seq<ItemId>
  {
    if uploads == [] then []
    else if uploads[0] == id then uploads[1..]
    else [uploads[0]] + Without(uploads[1..], id)
  }

  function RemovedItem(p: Page, id: ItemId): Page
  {
    if StatusOf(p.items, id).Busy() then p else p.(uploads := Without(p.uploads, id))
  }

  /** The button of a row. */
  function Clicked(p: Page, id: ItemId): Page
  {
    var status := StatusOf(p.items, id);
    if id !in p.items then p
    else if status.Failed? || status.Cancelled? then
      if p.items[id].validName then RetriedItem(p, id) else RemovedItem(p, id)
    else if status.Done? then RemovedItem(p, id)
    else CancelledItem(p, id)
  }

  function CancelledUploading(p: Page, uploads: seq<ItemId>): Page
    decreases |uploads|
  {
    if uploads == [] then p
    else if StatusOf(p.items, uploads[0]).Uploading? then
      CancelledUploading(CancelledItem(p, uploads[0]), uploads[1..])
    else CancelledUploading(p, uploads[1..])
  }

  function CancelledAll(p: Page): Page
  {
    CancelledUploading(p.(items := Marked(p.items, p.uploads, ToCancelled)), p.uploads)
  }

  // ---- The engine in place ----

  class UploadEngine {
    var uploads: seq<ItemId>
    var items: Items
    var pumping: bool
    var work: Work
    var busyRetryMs: real
    var requests: seq<Request>

    function State(): Page
      reads this
    {
      Page(uploads, items, pumping, work, busyRetryMs, requests)
    }

    constructor ()
      ensures State() == START
    {
      uploads, items, pumping, work, busyRetryMs, requests := [], map[], false, Idle, BUSY_RETRY_MIN_MS, [];
    }

    method Pump()
      modifies this
      ensures State() == Pumped(old(State()))
    {
      if pumping {
        return;
      }
      var batch := [];
      var i := 0;
      assert uploads[0..] == uploads;
      while i < |uploads| && |batch| < MAX_BATCH_FILES
        invariant 0 <= i <= |uploads| && |batch| <= MAX_BATCH_FILES
        invariant FirstPending(uploads, items, MAX_BATCH_FILES)
               == batch + FirstPending(uploads[i..], items, MAX_BATCH_FILES - |batch|)
      {
        assert uploads[i..][0] == uploads[i] && uploads[i..][1..] == uploads[i + 1..];
        if StatusOf(items, uploads[i]).Pending() {
          batch := batch + [uploads[i]];
        }
        i := i + 1;
      }
      assert FirstPending(uploads[i..], items, MAX_BATCH_FILES - |batch|) == [];
      assert batch + [] == batch;
      if batch == [] {
        return;
      }
      pumping := true;
      work := Deciding(batch);
      requests := requests + [Prepare(batch)];
    }

    method FinishPump()
      modifies this
      ensures State() == Finished(old(State()))
    {
      pumping := false;
      work := Idle;
      Pump();
    }

    method UploadSequentially(
      session: SessionId, tokens: map<ItemId, Token>, batch: seq<ItemId>, index: nat, skippedAny: bool)
      modifies this
      ensures State() == Advanced(old(State()), session, tokens, batch, index, skippedAny)
      decreases |batch| - index
    {
      if index >= |batch| {
        if skippedAny {
          requests := requests + [CancelSession(session)];
        }
        FinishPump();
        return;
      }
      var id := batch[index];
      if StatusOf(items, id).Cancelled? || id !in tokens {
        if id !in tokens && !StatusOf(items, id).Cancelled? {
          items := WithStatus(items, id, Failed);
        }
        UploadSequentially(session, tokens, batch, index + 1, true);
        return;
      }
      items := WithStatus(items, id, Uploading);
      work := Sending(session, tokens, batch, index, skippedAny);
      requests := requests + [Post(session, id, tokens[id])];
    }

    /** Changes the statuses of a batch one after the other. */
    method Mark(batch: seq<ItemId>, change: Status -> Status)
      requires forall s :: change(change(s)) == change(s)
      modifies this`items
      ensures items == Marked(old(items), batch, change)
    {
      var i := 0;
      while i < |batch|
        invariant 0 <= i <= |batch|
        invariant items == Marked(old(items), batch[..i], change)
      {
        assert batch[..i + 1] == batch[..i] + [batch[i]];
        items := WithStatus(items, batch[i], change(StatusOf(items, batch[i])));
        i := i + 1;
      }
      assert batch[..i] == batch;
    }

    method OnPrepareAnswer(answer: Answer)
      requires work.Deciding?
      modifies this
      ensures State() == Answered(old(State()), answer)
    {
      var batch := work.batch;
      match answer {
        case HostBusy =>
          Mark(batch, ToWaiting);
          var delay := busyRetryMs;
          busyRetryMs := Min(busyRetryMs * 1.5, BUSY_RETRY_MAX_MS);
          work := BackingOff(delay);
        case Accepted(session, tokens) =>
          busyRetryMs := BUSY_RETRY_MIN_MS;
          UploadSequentially(session, tokens, batch, 0, false);
        case Rejected =>
          busyRetryMs := BUSY_RETRY_MIN_MS;
          Mark(batch, ToFailed);
          FinishPump();
        case NoAnswer =>
          Mark(batch, ToFailed);
          FinishPump();
      }
    }

    /** `onload`, `onerror` and `onabort` of the current upload. */
    method OnUploadEnd(status: Status)
      requires work.Sending? && work.index < |work.batch|
      modifies this
      ensures State() == UploadEnded(old(State()), status)
    {
      var w := work;
      items := WithStatus(items, w.batch[w.index], status);
      UploadSequentially(w.session, w.tokens, w.batch, w.index + 1, w.skippedAny);
    }

    method AddFiles(files: seq<(ItemId, bool)>)
      modifies this
      ensures State() == Added(old(State()), files)
    {
      if files == [] {
        return;
      }
      var i := 0;
      assert files[0..] == files;
      while i < |files|
        invariant 0 <= i <= |files|
        invariant AddedFiles(State(), files[i..]) == AddedFiles(old(State()), files)
      {
        assert files[i..][0] == files[i] && files[i..][1..] == files[i + 1..];
        var (id, validName) := files[i];
        items := items[id := Item(if validName then Queued else Failed, validName)];
        uploads := uploads + [id];
        i := i + 1;
      }
      Pump();
    }

    method CancelItem(id: ItemId)
      modifies this
      ensures State() == CancelledItem(old(State()), id)
    {
      var status := StatusOf(items, id);
      if status.Uploading? && Current(State(), id) {
        OnUploadEnd(Cancelled);
        return;
      }
      if status.Pending() {
        items := WithStatus(items, id, Cancelled);
      }
    }

    method RetryItem(id: ItemId)
      modifies this
      ensures State() == RetriedItem(old(State()), id)
    {
      var status := StatusOf(items, id);
      if status != Failed && status != Cancelled {
        return;
      }
      if id !in items || !items[id].validName {
        return;
      }
      items := WithStatus(items, id, Queued);
      Pump();
    }

    method RemoveItem(id: ItemId)
      modifies this
      ensures State() == RemovedItem(old(State()), id)
    {
      if StatusOf(items, id).Busy() {
        return;
      }
      uploads := Without(uploads, id);
    }

    method CancelAll()
      modifies this
      ensures State() == CancelledAll(old(State()))
    {
      Mark(uploads, ToCancelled);
      var list := uploads;
      var j := 0;
      assert list[0..] == list;
      while j < |list|
        invariant 0 <= j <= |list|
        invariant CancelledUploading(State(), list[j..]) == CancelledAll(old(State()))
      {
        assert list[j..][0] == list[j] && list[j..][1..] == list[j + 1..];
        if StatusOf(items, list[j]).Uploading? {
          CancelItem(list[j]);
        }
        j := j + 1;
      }
    }
  }
}
