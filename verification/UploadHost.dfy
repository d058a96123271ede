/**
 * The host's upload protocol as a state machine: requests, drop guards and cancels interleave freely,
 * and each block under the lock of the slot is one step.
 */
module UploadHost {
  import opened Bytes
  import opened UploadSlot

  type RequestId = nat
  type UploadId = nat

  datatype Reason = ReasonFinished | ReasonCancelled

  datatype Event =
    | SessionEnd(id: SessionId, reason: Reason)
    | FileUpload(id: SessionId, file: FileId)
    | CancelReceived(id: SessionId)

  /** Where a request that claimed the slot stands. */
  datatype Phase =
    | Announcing                                  // telling the application about the abandoned session; no guard yet
    | Deciding(id: SessionId)                     // guard armed: asking the application, or about to activate
    | Clearing(id: SessionId)                     // guard disarmed, waiting for the lock to clear the slot
    | Cleaning(id: SessionId)                     // dropped with the guard armed: a spawned task waits for the lock
    | Stuck                                       // dropped without an armed guard: nobody will clear the slot
  {
    predicate HasId()
    {
      !Announcing? && !Stuck?
    }
  }

  /** Where an accepted upload stands. */
  datatype Upload =
    | Transferring(id: SessionId, file: FileId)                  // guard armed
    | Finishing(id: SessionId, file: FileId, success: bool)      // guard disarmed, waiting for the lock
    | Aborting(id: SessionId, file: FileId)                      // dropped: a spawned task waits for the lock

  datatype Why = AllFinal | Abandoned | BySender | ByApplication
  {
    function Announced(): Option<Reason>
    {
      match this
      case AllFinal => Some(ReasonFinished)
      case Abandoned | BySender => Some(ReasonCancelled)
      case ByApplication => None
    }
  }

  /** A session that left the slot: its last state and the reason. */
  datatype Closed = Closed(session: Session, why: Why)

  datatype State = State(
    slot: Slot,
    requests: map<RequestId, Phase>,
    uploads: map<UploadId, Upload>,
    outbox: multiset<Event>,                      // emitted after the lock is released, not sent yet
    sent: multiset<Event>,
    usedIds: set<SessionId>,                      // history
    closed: map<SessionId, Closed>,               // history
    issued: multiset<Event>,                      // history: everything ever put in the outbox
    lostUploads: set<(SessionId, FileId)>)        // history: uploads dropped after their guard was disarmed

  const START := State(NoSession, map[], map[], multiset{}, multiset{}, {}, map[], multiset{}, {})

  datatype Action =
    | Claim(request: RequestId, now: nat, newId: SessionId)
    | Arm(request: RequestId, newId: SessionId)
    | DropRequest(request: RequestId)
    | Refuse(request: RequestId)                  // declined, or nothing accepted
    | Clear(request: RequestId)
    | Activate(request: RequestId, ip: Ip, tokens: map<FileId, Token>, now: nat)
    | BeginUpload(upload: UploadId, id: SessionId, file: FileId, token: Token, ip: Ip, now: nat)
    | EndTransfer(upload: UploadId, success: bool)
    | DropUpload(upload: UploadId)
    | Finalize(upload: UploadId, now: nat)
    | Cancel(id: SessionId, ip: Ip)
    | CancelByApp(id: SessionId)
    | Deliver(event: Event)
    | Lose(event: Event)                          // the sending future is dropped

  predicate Enabled(s: State, a: Action)
  {
    match a
    case Claim(r, now, newId) => r !in s.requests && Claimable(s.slot, now).Some? && newId !in s.usedIds
    case Arm(r, newId) => r in s.requests && s.requests[r].Announcing? && newId !in s.usedIds
    case DropRequest(r) => r in s.requests && !s.requests[r].Cleaning? && !s.requests[r].Stuck?
    case Refuse(r) => r in s.requests && s.requests[r].Deciding?
    case Clear(r) => r in s.requests && (s.requests[r].Clearing? || s.requests[r].Cleaning?)
    case Activate(r, ip, tokens, now) => r in s.requests && s.requests[r].Deciding? && tokens != map[]
    case BeginUpload(u, id, file, token, ip, now) => u !in s.uploads && MayUpload(s.slot, id, file, token, ip)
    case EndTransfer(u, success) => u in s.uploads && s.uploads[u].Transferring?
    case DropUpload(u) => u in s.uploads && !s.uploads[u].Aborting?
    case Finalize(u, now) => u in s.uploads && !s.uploads[u].Transferring?
    case Cancel(id, ip) => true
    case CancelByApp(id) => true
    case Deliver(e) => e in s.outbox
    case Lose(e) => e in s.outbox
  }

  function NewFiles(tokens: map<FileId, Token>): map<FileId, SessionFile>
  {
    map f | f in tokens :: SessionFile(tokens[f], Pending)
  }

  /** The active session leaves the slot, which becomes `slot`. */
  function Close(s: State, last: Session, why: Why, slot: Slot): State
  {
    s.(slot := slot, closed := s.closed[last.id := Closed(last, why)])
  }

  /** The step without the event it emits. */
  function Effect(s: State, a: Action): State
    requires Enabled(s, a)
  {
    match a
    case Claim(r, now, newId) =>
      var abandoned := Claimable(s.slot, now).value;
      if abandoned.Some? then
        Close(s, abandoned.value, Abandoned, PendingSession).(requests := s.requests[r := Announcing])
      else
        s.(slot := PendingSession, requests := s.requests[r := Deciding(newId)], usedIds := s.usedIds + {newId})
    case Arm(r, newId) =>
      s.(requests := s.requests[r := Deciding(newId)], usedIds := s.usedIds + {newId})
    case DropRequest(r) =>
      s.(requests := s.requests[r := if s.requests[r].Deciding? then Cleaning(s.requests[r].id) else Stuck])
    case Refuse(r) =>
      s.(requests := s.requests[r := Clearing(s.requests[r].id)])
    case Clear(r) =>
      s.(slot := Cleared(s.slot), requests := s.requests - {r})
    case Activate(r, ip, tokens, now) =>
      s.(slot := ActiveSession(Session(s.requests[r].id, ip, NewFiles(tokens), now)), requests := s.requests - {r})
    case BeginUpload(u, id, file, token, ip, now) =>
      s.(slot := Begun(s.slot, file, now), uploads := s.uploads[u := Transferring(id, file)])
    case EndTransfer(u, success) =>
      s.(uploads := s.uploads[u := Finishing(s.uploads[u].id, s.uploads[u].file, success)])
    case DropUpload(u) =>
      var upload := s.uploads[u];
      if upload.Transferring? then s.(uploads := s.uploads[u := Aborting(upload.id, upload.file)])
      else s.(uploads := s.uploads - {u}, lostUploads := s.lostUploads + {(upload.id, upload.file)})
    case Finalize(u, now) =>
      var upload := s.uploads[u];
      var success := upload.Finishing? && upload.success;
      var (slot, ended) := Finalized(s.slot, upload.id, upload.file, success, now);
      var rest := s.(uploads := s.uploads - {u});
      if ended then Close(rest, Settled(s.slot.session, upload.file, success, now), AllFinal, slot)
      else rest.(slot := slot)
    case Cancel(id, ip) =>
      if MayCancel(s.slot, id, ip) then Close(s, s.slot.session, BySender, NoSession) else s
    case CancelByApp(id) =>
      if s.slot.Holds(id) then Close(s, s.slot.session, ByApplication, NoSession) else s
    case Deliver(e) => s.(outbox := s.outbox - multiset{e}, sent := s.sent + multiset{e})
    case Lose(e) => s.(outbox := s.outbox - multiset{e})
  }

  /** The event a step emits. */
  function Emitted(s: State, a: Action): Option<Event>
    requires Enabled(s, a)
  {
    match a
    case Claim(r, now, newId) =>
      if s.slot.ActiveSession? then Some(SessionEnd(s.slot.session.id, ReasonCancelled)) else None
    case BeginUpload(u, id, file, token, ip, now) => Some(FileUpload(id, file))
    case Finalize(u, now) =>
      var upload := s.uploads[u];
      var success := upload.Finishing? && upload.success;
      if Finalized(s.slot, upload.id, upload.file, success, now).1
      then Some(SessionEnd(upload.id, ReasonFinished)) else None
    case Cancel(id, ip) =>
      Some(if MayCancel(s.slot, id, ip) then SessionEnd(id, ReasonCancelled) else CancelReceived(id))
    case _ => None
  }

  function Emit(s: State, e: Option<Event>): State
  {
    if e.None? then s
    else s.(outbox := s.outbox + multiset{e.value}, issued := s.issued + multiset{e.value})
  }

  function Next(s: State, a: Action): State
    requires Enabled(s, a)
  {
    Emit(Effect(s, a), Emitted(s, a))
  }

  // ---- Invariant ----

  /** The slot is pending exactly while one request holds it. */
  ghost predicate OneHolder(s: State)
  {
    && (s.slot.PendingSession? <==> s.requests != map[])
    && (forall q, r :: q in s.requests && r in s.requests ==> q == r)
  }

  /** Ids name one session each. */
  ghost predicate IdsFresh(s: State)
  {
    && s.closed.Keys <= s.usedIds
    && (forall i <- s.closed :: s.closed[i].session.id == i)
    && (forall r :: r in s.requests && s.requests[r].HasId() ==>
          s.requests[r].id in s.usedIds && s.requests[r].id !in s.closed)
    && (s.slot.ActiveSession? ==> s.slot.session.id in s.usedIds && s.slot.session.id !in s.closed)
  }

  /** An active session still has a file to receive. */
  predicate ActiveIsOpen(s: State)
  {
    s.slot.ActiveSession? ==> !s.slot.session.IsComplete()
  }

  /** Exactly one end is issued for a closed session, none when the application cancelled it. */
  ghost predicate EndsMatch(s: State)
  {
    && (forall i, reason :: s.issued[SessionEnd(i, reason)]
          == if i in s.closed && s.closed[i].why.Announced() == Some(reason) then 1 else 0)
    && (forall i <- s.closed :: s.closed[i].why.AllFinal? ==> s.closed[i].session.IsComplete())
  }

  ghost predicate SentWasIssued(s: State)
  {
    s.outbox + s.sent <= s.issued
  }

  /** What is known of a session that was ever active. */
  function Known(s: State, id: SessionId): Option<Session>
  {
    if s.slot.Holds(id) then Some(s.slot.session)
    else if id in s.closed then Some(s.closed[id].session)
    else None
  }

  predicate Started(s: State, id: SessionId, file: FileId)
  {
    var known := Known(s, id);
    known.Some? && file in known.value.files && !known.value.files[file].status.Pending?
  }

  /** One upload is announced for each file that left its pending state. */
  ghost predicate UploadsMatch(s: State)
  {
    forall i, f :: s.issued[FileUpload(i, f)] == if Started(s, i, f) then 1 else 0
  }

  predicate SameFile(a: Upload, b: Upload)
  {
    a.id == b.id && a.file == b.file
  }

  /** Each upload has a started file of its own, in progress while its session is active. */
  ghost predicate UploadsDiffer(s: State)
  {
    && (forall u <- s.uploads :: Started(s, s.uploads[u].id, s.uploads[u].file))
    && (forall u, v :: u in s.uploads && v in s.uploads && SameFile(s.uploads[u], s.uploads[v]) ==> u == v)
    && (forall u <- s.uploads :: s.slot.Holds(s.uploads[u].id) ==>
          s.slot.session.files[s.uploads[u].file].status.InProgress?)
  }

  /** Some upload will settle the file. */
  ghost predicate Served(s: State, id: SessionId, file: FileId)
  {
    exists u :: u in s.uploads && s.uploads[u].id == id && s.uploads[u].file == file
  }

  /** Every file in progress of the active session is served, or its upload was lost. */
  ghost predicate ProgressServed(s: State)
  {
    s.slot.ActiveSession? ==>
      forall f <- s.slot.session.files :: s.slot.session.files[f].status.InProgress? ==>
        (s.slot.session.id, f) in s.lostUploads || Served(s, s.slot.session.id, f)
  }

  ghost predicate Inv(s: State)
  {
    && OneHolder(s) && IdsFresh(s) && ActiveIsOpen(s) && EndsMatch(s) && SentWasIssued(s)
    && UploadsMatch(s) && UploadsDiffer(s) && ProgressServed(s)
  }

  // ---- Every step keeps it ----

  lemma OneHolderStep(s: State, a: Action)
    requires OneHolder(s) && Enabled(s, a)
    ensures OneHolder(Effect(s, a))
  {
    if a.Claim? || a.Clear? || a.Activate? {
      HolderChanges(s, a);
    } else {
      HolderStays(s, a);
      hide Effect, Enabled;
    }
  }

  lemma HolderChanges(s: State, a: Action)
    requires OneHolder(s) && Enabled(s, a) && (a.Claim? || a.Clear? || a.Activate?)
    ensures OneHolder(Effect(s, a))
  {
    if !a.Claim? {
      assert s.requests - {a.request} == map[];
    }
  }

  lemma HolderStays(s: State, a: Action)
    requires Enabled(s, a) && !a.Claim? && !a.Clear? && !a.Activate?
    ensures var t := Effect(s, a);
            t.requests.Keys == s.requests.Keys && (t.slot.PendingSession? <==> s.slot.PendingSession?)
  {
    if a.Finalize? {
      FinalizeLeavesPending(s, a.upload, a.now);
    }
    hide Finalized;
  }

  lemma FinalizeLeavesPending(s: State, u: UploadId, now: nat)
    requires Enabled(s, Finalize(u, now))
    ensures var t := Effect(s, Finalize(u, now));
            t.requests == s.requests && (t.slot.PendingSession? <==> s.slot.PendingSession?)
  {
  }

  lemma ActiveIsOpenStep(s: State, a: Action)
    requires ActiveIsOpen(s) && Enabled(s, a)
    ensures ActiveIsOpen(Effect(s, a))
  {
    if a.Activate? {
      var f :| f in a.tokens;
      assert NewFiles(a.tokens)[f].status.Pending?;
    }
    if a.BeginUpload? {
      assert Begun(s.slot, a.file, a.now).session.files[a.file].status.InProgress?;
    }
  }

  /** The session a step takes out of the slot. */
  function Ending(s: State, a: Action): Option<Closed>
    requires Enabled(s, a)
  {
    match a
    case Claim(_, now, _) => if s.slot.ActiveSession? then Some(Closed(s.slot.session, Abandoned)) else None
    case Finalize(u, now) =>
      var upload := s.uploads[u];
      var success := upload.Finishing? && upload.success;
      if Finalized(s.slot, upload.id, upload.file, success, now).1
      then Some(Closed(Settled(s.slot.session, upload.file, success, now), AllFinal)) else None
    case Cancel(id, ip) => if MayCancel(s.slot, id, ip) then Some(Closed(s.slot.session, BySender)) else None
    case CancelByApp(id) => if s.slot.Holds(id) then Some(Closed(s.slot.session, ByApplication)) else None
    case _ => None
  }

  /** The step closes the session it takes out of the slot, and no other. */
  predicate ClosesItsSession(s: State, a: Action)
    requires Enabled(s, a)
  {
    var e, t := Ending(s, a), Effect(s, a);
    && t.closed == (if e.Some? then s.closed[e.value.session.id := e.value] else s.closed)
    && (e.Some? ==> s.slot.Holds(e.value.session.id) && !t.slot.ActiveSession?)
  }

  lemma EndingStep(s: State, a: Action)
    requires Enabled(s, a)
    ensures ClosesItsSession(s, a)
  {
    hide ClosesItsSession, Enabled;
    match a
    case Claim(r, now, newId) => ClaimCloses(s, r, now, newId);
    case Finalize(u, now) => FinalizeCloses(s, u, now);
    case Cancel(id, ip) => CancelCloses(s, id, ip);
    case CancelByApp(id) => CancelByAppCloses(s, id);
    case _ => OthersCloseNothing(s, a);
  }

  lemma ClaimCloses(s: State, r: RequestId, now: nat, newId: SessionId)
    requires Enabled(s, Claim(r, now, newId))
    ensures ClosesItsSession(s, Claim(r, now, newId))
  {
    assert Claimable(s.slot, now) == Some(if s.slot.ActiveSession? then Some(s.slot.session) else None);
    hide Claimable;
  }

  lemma FinalizeCloses(s: State, u: UploadId, now: nat)
    requires Enabled(s, Finalize(u, now))
    ensures ClosesItsSession(s, Finalize(u, now))
  {
    hide Session.IsComplete;
  }

  lemma CancelCloses(s: State, id: SessionId, ip: Ip)
    ensures ClosesItsSession(s, Cancel(id, ip))
  {
  }

  lemma CancelByAppCloses(s: State, id: SessionId)
    ensures ClosesItsSession(s, CancelByApp(id))
  {
  }

  lemma OthersCloseNothing(s: State, a: Action)
    requires Enabled(s, a) && !a.Claim? && !a.Finalize? && !a.Cancel? && !a.CancelByApp?
    ensures ClosesItsSession(s, a)
  {
  }

  lemma EndedAsFinished(s: State, a: Action)
    requires Enabled(s, a) && Ending(s, a).Some? && Ending(s, a).value.why.AllFinal?
    ensures Ending(s, a).value.session.IsComplete()
  {
  }

  lemma EndingIsAnnounced(s: State, a: Action, i: SessionId, reason: Reason)
    requires Enabled(s, a)
    ensures Emitted(s, a) == Some(SessionEnd(i, reason))
       <==> var e := Ending(s, a);
            e.Some? && e.value.session.id == i && e.value.why.Announced() == Some(reason)
  {
  }

  /** A request has the id it had, or one that was never used. */
  lemma RequestAfter(s: State, a: Action, r: RequestId)
    requires Enabled(s, a) && r in Effect(s, a).requests
    ensures var t := Effect(s, a);
            t.requests[r].HasId() ==>
              || (r in s.requests && s.requests[r].HasId() && t.requests[r].id == s.requests[r].id)
              || (t.requests[r].id !in s.usedIds && t.requests[r].id in t.usedIds)
  {
  }

  lemma UsedIdsGrow(s: State, a: Action)
    requires Enabled(s, a)
    ensures s.usedIds <= Effect(s, a).usedIds
  {
  }

  lemma IdsFreshStep(s: State, a: Action)
    requires OneHolder(s) && IdsFresh(s) && Enabled(s, a)
    ensures IdsFresh(Effect(s, a))
  {
    var t := Effect(s, a);
    EndingStep(s, a);
    UsedIdsGrow(s, a);
    forall r | r in t.requests && t.requests[r].HasId()
      ensures t.requests[r].id in t.usedIds && t.requests[r].id !in t.closed
    {
      RequestAfter(s, a, r);
      hide Effect, Ending, Enabled;
    }
    if t.slot.ActiveSession? {
      SessionStays(s, a, t.slot.session.id);
      if a.Activate? {
        assert s.requests[a.request].HasId();
      }
    }
    hide Effect, Ending, Enabled;
  }

  /** A session is closed by exactly the steps that say so, with the event they emit. */
  lemma ClosedStep(s: State, a: Action)
    requires OneHolder(s) && IdsFresh(s) && Enabled(s, a)
    ensures s.closed.Keys <= Effect(s, a).closed.Keys
    ensures forall i <- s.closed :: Effect(s, a).closed[i] == s.closed[i]
    ensures forall i :: i in Effect(s, a).closed && i !in s.closed ==>
              && s.slot.Holds(i) && !Effect(s, a).slot.Holds(i)
              && (Effect(s, a).closed[i].why.AllFinal? ==> Effect(s, a).closed[i].session.IsComplete())
    ensures forall i, reason :: Emitted(s, a) == Some(SessionEnd(i, reason))
              <==> i in Effect(s, a).closed && i !in s.closed && Effect(s, a).closed[i].why.Announced() == Some(reason)
  {
    EndingStep(s, a);
    if Ending(s, a).Some? && Ending(s, a).value.why.AllFinal? {
      EndedAsFinished(s, a);
    }
    forall i, reason
      ensures Emitted(s, a) == Some(SessionEnd(i, reason))
         <==> i in Effect(s, a).closed && i !in s.closed && Effect(s, a).closed[i].why.Announced() == Some(reason)
    {
      EndingIsAnnounced(s, a, i, reason);
      hide Effect, Emitted, Ending, Enabled;
    }
    hide Effect, Emitted, Ending, Enabled, Session.IsComplete;
  }

  /** Most steps touch neither the active session nor the closed ones. */
  lemma QuietStep(s: State, a: Action, i: SessionId)
    requires Enabled(s, a)
    requires !a.Finalize? && !a.BeginUpload? && !a.Activate? && Ending(s, a).None?
    ensures Known(Effect(s, a), i) == Known(s, i)
    ensures Emitted(s, a).None? || Emitted(s, a).value.CancelReceived?
  {
  }

  /** Emitting only adds to the outbox and the issued events. */
  lemma EmitKeeps(t: State, e: Option<Event>)
    ensures var n := Emit(t, e);
            && n.slot == t.slot && n.requests == t.requests && n.uploads == t.uploads && n.usedIds == t.usedIds
            && n.closed == t.closed && n.lostUploads == t.lostUploads && n.sent == t.sent
    ensures forall f :: Emit(t, e).issued[f] == t.issued[f] + (if e == Some(f) then 1 else 0)
    ensures SentWasIssued(t) ==> SentWasIssued(Emit(t, e))
  {
  }

  lemma OutboxStep(s: State, a: Action)
    requires Enabled(s, a)
    ensures Effect(s, a).issued == s.issued
    ensures SentWasIssued(s) ==> SentWasIssued(Effect(s, a))
  {
  }

  lemma EndsMatchStep(s: State, a: Action)
    requires OneHolder(s) && IdsFresh(s) && EndsMatch(s) && Enabled(s, a)
    ensures EndsMatch(Next(s, a))
  {
    ClosedStep(s, a);
    OutboxStep(s, a);
    EmitKeeps(Effect(s, a), Emitted(s, a));
    hide Effect, Emitted, Emit, IdsFresh, OneHolder, SentWasIssued, Enabled, Session.IsComplete;
    var t, n := Effect(s, a), Next(s, a);
    assert n.closed == t.closed;
    forall i, reason
      ensures n.issued[SessionEnd(i, reason)]
           == if i in n.closed && n.closed[i].why.Announced() == Some(reason) then 1 else 0
    {
      assert s.issued[SessionEnd(i, reason)]
          == if i in s.closed && s.closed[i].why.Announced() == Some(reason) then 1 else 0;
      hide EndsMatch, Why.Announced;
    }
    hide Why.Announced;
  }

  lemma StartedByFinalize(s: State, u: UploadId, now: nat, i: SessionId, f: FileId)
    requires IdsFresh(s) && Enabled(s, Finalize(u, now))
    ensures Started(Effect(s, Finalize(u, now)), i, f) <==> Started(s, i, f)
  {
  }

  lemma StartedByBegin(s: State, a: Action, i: SessionId, f: FileId)
    requires IdsFresh(s) && a.BeginUpload? && Enabled(s, a)
    ensures Started(Effect(s, a), i, f) <==> Started(s, i, f) || (i, f) == (a.id, a.file)
    ensures !Started(s, a.id, a.file)
  {
  }

  lemma StartedByActivate(s: State, a: Action, i: SessionId, f: FileId)
    requires OneHolder(s) && IdsFresh(s) && a.Activate? && Enabled(s, a)
    ensures Started(Effect(s, a), i, f) <==> Started(s, i, f)
  {
  }

  /** A known file only leaves its pending state by the step that announces it. */
  lemma StartedStep(s: State, a: Action, i: SessionId, f: FileId)
    requires OneHolder(s) && IdsFresh(s) && Enabled(s, a)
    ensures Started(Effect(s, a), i, f) <==> Started(s, i, f) || Emitted(s, a) == Some(FileUpload(i, f))
    ensures Emitted(s, a) == Some(FileUpload(i, f)) ==> !Started(s, i, f)
  {
    if a.Finalize? {
      StartedByFinalize(s, a.upload, a.now, i, f);
    } else if a.BeginUpload? {
      StartedByBegin(s, a, i, f);
    } else if a.Activate? {
      StartedByActivate(s, a, i, f);
    } else if Ending(s, a).Some? {
      StartedByEnding(s, a, i, f);
    } else {
      QuietStep(s, a, i);
      hide Effect, Emitted, Known, Ending, Enabled;
    }
  }

  lemma StartedByEnding(s: State, a: Action, i: SessionId, f: FileId)
    requires OneHolder(s) && IdsFresh(s) && Enabled(s, a) && !a.Finalize? && Ending(s, a).Some?
    ensures Started(Effect(s, a), i, f) <==> Started(s, i, f)
    ensures Emitted(s, a) != Some(FileUpload(i, f))
  {
    EndingStep(s, a);
    assert Ending(s, a).value.session == s.slot.session;
    assert Emitted(s, a).None? || !Emitted(s, a).value.FileUpload?;
    hide Effect, Emitted, Ending, Enabled;
  }

  lemma UploadsMatchStep(s: State, a: Action)
    requires OneHolder(s) && IdsFresh(s) && UploadsMatch(s) && Enabled(s, a)
    ensures UploadsMatch(Next(s, a))
  {
    OutboxStep(s, a);
    EmitKeeps(Effect(s, a), Emitted(s, a));
    hide Effect, Emitted, Emit, IdsFresh, OneHolder, SentWasIssued, Enabled;
    forall i, f
      ensures Next(s, a).issued[FileUpload(i, f)] == if Started(Next(s, a), i, f) then 1 else 0
    {
      StartedStep(s, a, i, f);
      assert Started(Next(s, a), i, f) <==> Started(Effect(s, a), i, f);
    }
  }

  /** How a step changes the uploads: at most one is added, renamed in phase, or removed. */
  lemma UploadsStep(s: State, a: Action, u: UploadId)
    requires Enabled(s, a) && u in Effect(s, a).uploads
    ensures var t := Effect(s, a);
            || (u in s.uploads && SameFile(s.uploads[u], t.uploads[u]))
            || (u !in s.uploads && a.BeginUpload? && u == a.upload
                && t.uploads[u].id == a.id && t.uploads[u].file == a.file)
  {
  }

  /** A file in progress stays in progress while its session is active, until its upload settles it. */
  lemma InProgressStep(s: State, a: Action, id: SessionId, f: FileId)
    requires OneHolder(s) && IdsFresh(s) && Enabled(s, a)
    requires s.slot.Holds(id) && f in s.slot.session.files && s.slot.session.files[f].status.InProgress?
    requires a.Finalize? ==> !(s.uploads[a.upload].id == id && s.uploads[a.upload].file == f)
    requires Effect(s, a).slot.Holds(id)
    ensures f in Effect(s, a).slot.session.files && Effect(s, a).slot.session.files[f].status.InProgress?
  {
  }

  lemma SessionStays(s: State, a: Action, id: SessionId)
    requires OneHolder(s) && IdsFresh(s) && Enabled(s, a) && Effect(s, a).slot.Holds(id)
    ensures s.slot.Holds(id) || (a.Activate? && id !in s.closed && !s.slot.ActiveSession?)
  {
  }

  lemma UploadsDifferStep(s: State, a: Action)
    requires OneHolder(s) && IdsFresh(s) && UploadsDiffer(s) && Enabled(s, a)
    ensures UploadsDiffer(Effect(s, a))
  {
    var t := Effect(s, a);
    forall u | u in t.uploads
      ensures Started(t, t.uploads[u].id, t.uploads[u].file)
    {
      UploadsStep(s, a, u);
      StartedStep(s, a, t.uploads[u].id, t.uploads[u].file);
    }
    forall u, v | u in t.uploads && v in t.uploads && SameFile(t.uploads[u], t.uploads[v])
      ensures u == v
    {
      UploadsStep(s, a, u);
      UploadsStep(s, a, v);
      StartedStep(s, a, t.uploads[u].id, t.uploads[u].file);
      hide Effect, IdsFresh, OneHolder, Started;
    }
    forall u | u in t.uploads && t.slot.Holds(t.uploads[u].id)
      ensures t.slot.session.files[t.uploads[u].file].status.InProgress?
    {
      UploadInProgress(s, a, u);
    }
  }

  lemma UploadInProgress(s: State, a: Action, u: UploadId)
    requires OneHolder(s) && IdsFresh(s) && UploadsDiffer(s) && Enabled(s, a)
    requires u in Effect(s, a).uploads && Effect(s, a).slot.Holds(Effect(s, a).uploads[u].id)
    ensures var t := Effect(s, a);
            t.uploads[u].file in t.slot.session.files && t.slot.session.files[t.uploads[u].file].status.InProgress?
  {
    UploadsStep(s, a, u);
    if u in s.uploads {
      var id, f := s.uploads[u].id, s.uploads[u].file;
      assert Started(s, id, f);
      SessionStays(s, a, id);
      assert s.slot.Holds(id);
      if a.Finalize? {
        assert a.upload != u;
        assert !SameFile(s.uploads[a.upload], s.uploads[u]);
      }
      InProgressStep(s, a, id, f);
    }
  }

  lemma ServedStep(s: State, a: Action, id: SessionId, f: FileId)
    requires Enabled(s, a) && Served(s, id, f)
    requires a.Finalize? ==> !(s.uploads[a.upload].id == id && s.uploads[a.upload].file == f)
    ensures Served(Effect(s, a), id, f) || (id, f) in Effect(s, a).lostUploads
  {
    var u :| u in s.uploads && s.uploads[u].id == id && s.uploads[u].file == f;
    if u in Effect(s, a).uploads {
      assert Effect(s, a).uploads[u].id == id && Effect(s, a).uploads[u].file == f;
    }
  }

  /** A file is in progress because it was, or because this step began its upload. */
  lemma ProgressComesFrom(s: State, a: Action, f: FileId)
    requires OneHolder(s) && IdsFresh(s) && Enabled(s, a) && Effect(s, a).slot.ActiveSession?
    requires f in Effect(s, a).slot.session.files && Effect(s, a).slot.session.files[f].status.InProgress?
    ensures var id := Effect(s, a).slot.session.id;
            || (a.BeginUpload? && a.id == id && a.file == f)
            || (s.slot.Holds(id) && f in s.slot.session.files && s.slot.session.files[f].status.InProgress?
                && (a.Finalize? ==> !(s.uploads[a.upload].id == id && s.uploads[a.upload].file == f)))
    ensures s.lostUploads <= Effect(s, a).lostUploads
  {
  }

  lemma ProgressServedStep(s: State, a: Action)
    requires OneHolder(s) && IdsFresh(s) && ProgressServed(s) && Enabled(s, a)
    ensures ProgressServed(Effect(s, a))
  {
    var t := Effect(s, a);
    if t.slot.ActiveSession? {
      var id := t.slot.session.id;
      forall f | f in t.slot.session.files && t.slot.session.files[f].status.InProgress?
        ensures (id, f) in t.lostUploads || Served(t, id, f)
      {
        ProgressComesFrom(s, a, f);
        if a.BeginUpload? && a.id == id && a.file == f {
          assert t.uploads[a.upload] == Transferring(id, f);
        } else {
          hide Effect, IdsFresh, OneHolder;
          if (id, f) !in s.lostUploads {
            ServedStep(s, a, id, f);
          }
        }
      }
    }
  }

  lemma InvStart()
    ensures Inv(START)
  {
  }

  lemma InvStep(s: State, a: Action)
    requires Inv(s) && Enabled(s, a)
    ensures Inv(Next(s, a))
  {
    OneHolderStep(s, a);
    IdsFreshStep(s, a);
    ActiveIsOpenStep(s, a);
    EndsMatchStep(s, a);
    OutboxStep(s, a);
    UploadsMatchStep(s, a);
    UploadsDifferStep(s, a);
    ProgressServedStep(s, a);
    EmitKeeps(Effect(s, a), Emitted(s, a));
    EmitInv(Effect(s, a), Emitted(s, a));
  }

  lemma EmitInv(t: State, e: Option<Event>)
    requires OneHolder(t) && IdsFresh(t) && ActiveIsOpen(t) && UploadsDiffer(t) && ProgressServed(t)
    ensures var n := Emit(t, e);
            OneHolder(n) && IdsFresh(n) && ActiveIsOpen(n) && UploadsDiffer(n) && ProgressServed(n)
  {
    EmitKeeps(t, e);
    var n := Emit(t, e);
    assert forall i, f :: Started(n, i, f) == Started(t, i, f);
    assert forall i, f :: Served(n, i, f) == Served(t, i, f);
  }
}
