/** The single upload session slot of the host, and the blocks that handlers run under its lock. */
module UploadSlot {
  import opened Bytes

  type SessionId = nat
  type FileId = nat
  type Token = nat
  type Ip = nat

  const ABANDONED_SESSION_AFTER := 60

  datatype FileStatus = Pending | InProgress | Finished | Failed
  {
    predicate Final()
    {
      Finished? || Failed?
    }
  }

  datatype SessionFile = SessionFile(token: Token, status: FileStatus)

  datatype Session = Session(id: SessionId, senderIp: Ip, files: map<FileId, SessionFile>, lastActivity: nat)
  {
    predicate IsComplete()
    {
      forall f <- files :: files[f].status.Final()
    }

    predicate IsAbandoned(now: nat)
    {
      && (forall f <- files :: !files[f].status.InProgress?)
      && now >= lastActivity + ABANDONED_SESSION_AFTER
    }

    function WithStatus(f: FileId, status: FileStatus): Session
      requires f in files
    {
      this.(files := files[f := files[f].(status := status)])
    }
  }

  datatype Slot = NoSession | PendingSession | ActiveSession(session: Session)
  {
    predicate Holds(id: SessionId)
    {
      ActiveSession? && session.id == id
    }
  }

  // ---- What the blocks do to the slot ----

  /** `None` when another session blocks the claim; else the abandoned session that is replaced, if any. */
  function Claimable(slot: Slot, now: nat): Option<Option<Session>>
  {
    match slot
    case NoSession => Some(None)
    case PendingSession => None
    case ActiveSession(session) => if session.IsAbandoned(now) then Some(Some(session)) else None
  }

  function Cleared(slot: Slot): Slot
  {
    if slot.PendingSession? then NoSession else slot
  }

  predicate MayUpload(slot: Slot, id: SessionId, file: FileId, token: Token, ip: Ip)
  {
    && slot.Holds(id) && slot.session.senderIp == ip
    && file in slot.session.files
    && slot.session.files[file] == SessionFile(token, Pending)
  }

  function Begun(slot: Slot, file: FileId, now: nat): Slot
    requires slot.ActiveSession? && file in slot.session.files
  {
    ActiveSession(slot.session.WithStatus(file, InProgress).(lastActivity := now))
  }

  /** The session after an upload attempt of one file. */
  function Settled(session: Session, file: FileId, success: bool, now: nat): Session
  {
    var touched := session.(lastActivity := now);
    if file in session.files && session.files[file].status.InProgress?
    then touched.WithStatus(file, if success then Finished else Failed)
    else touched
  }

  /** The slot after `finalize_file`, and whether this ended the session. */
  function Finalized(slot: Slot, id: SessionId, file: FileId, success: bool, now: nat): (Slot, bool)
  {
    if !slot.Holds(id) then (slot, false)
    else
      var session := Settled(slot.session, file, success, now);
      if session.IsComplete() then (NoSession, true) else (ActiveSession(session), false)
  }

  /** One upload attempt of `file` settles that file, if it is in progress, and touches no other. */
  predicate SettlesOne(before: Session, after: Session, file: FileId, success: bool, now: nat)
  {
    && after.id == before.id && after.senderIp == before.senderIp && after.lastActivity == now
    && after.files.Keys == before.files.Keys
    && forall f <- before.files ::
         && after.files[f].token == before.files[f].token
         && if f == file && before.files[f].status.InProgress?
            then if success then after.files[f].status.Finished? else after.files[f].status.Failed?
            else after.files[f].status == before.files[f].status
  }

  /** Settling the file leaves none to wait for. */
  predicate LastOne(session: Session, file: FileId)
  {
    forall f <- session.files ::
      var status := session.files[f].status;
      status.Finished? || status.Failed? || (f == file && status.InProgress?)
  }

  lemma CompleteAfterLast(before: Session, after: Session, file: FileId, success: bool, now: nat)
    requires SettlesOne(before, after, file, success, now)
    ensures after.IsComplete() <==> LastOne(before, file)
  {
    if after.IsComplete() {
      forall f <- before.files
        ensures var status := before.files[f].status;
                status.Finished? || status.Failed? || (f == file && status.InProgress?)
      {
        assert after.files[f].status.Final();
      }
    }
  }

  predicate MayCancel(slot: Slot, id: SessionId, ip: Ip)
  {
    slot.Holds(id) && slot.session.senderIp == ip
  }

  // ---- The blocks in place ----

  class V2State {
    var session: Slot

    constructor ()
      ensures session == NoSession
    {
      session := NoSession;
    }

    /** Claims the slot for a new request. */
    method ClaimSlot(now: nat) returns (claimed: bool, abandoned: Option<SessionId>)
      modifies this
      ensures claimed <==> Claimable(old(session), now).Some?
      ensures session == if claimed then PendingSession else old(session)
      ensures abandoned.Some? <==> claimed && old(session).ActiveSession?
      ensures abandoned.Some? ==> abandoned.value == old(session).session.id
      ensures claimed <==> match old(session)
                           case NoSession => true
                           case PendingSession => false
                           case ActiveSession(a) =>
                             (forall f <- a.files :: a.files[f].status != InProgress) && now >= a.lastActivity + 60
    {
      abandoned := None;
      match session {
        case NoSession =>
        case ActiveSession(active) =>
          if !active.IsAbandoned(now) {
            return false, None;
          }
          abandoned := Some(active.id);
        case PendingSession =>
          return false, None;
      }
      session := PendingSession;
      claimed := true;
    }

    method ClearPending()
      modifies this
      ensures session == Cleared(old(session))
      ensures session == if old(session) == PendingSession then NoSession else old(session)
    {
      if session.PendingSession? {
        session := NoSession;
      }
    }

    /** Writes the new session whatever the slot holds. */
    method Activate(active: Session)
      modifies this
      ensures session == ActiveSession(active)
    {
      session := ActiveSession(active);
    }

    /** Checks an upload request and marks its file as in progress. */
    method BeginUpload(id: SessionId, file: FileId, token: Token, ip: Ip, now: nat) returns (ok: bool)
      modifies this
      ensures ok <==> MayUpload(old(session), id, file, token, ip)
      ensures session == if ok then Begun(old(session), file, now) else old(session)
      ensures ok <==>
                && old(session).ActiveSession? && old(session).session.id == id && old(session).session.senderIp == ip
                && file in old(session).session.files
                && old(session).session.files[file] == SessionFile(token, Pending)
      ensures ok ==>
                var before := old(session).session;
                session == ActiveSession(
                  Session(id, ip, before.files[file := SessionFile(token, InProgress)], now))
    {
      if !session.ActiveSession? {
        return false;
      }
      var active := session.session;
      if active.id != id || active.senderIp != ip {
        return false;
      }
      if file !in active.files {
        return false;
      }
      if active.files[file].token != token || active.files[file].status != Pending {
        return false;
      }
      active := active.WithStatus(file, InProgress);
      active := active.(lastActivity := now);
      session := ActiveSession(active);
      ok := true;
    }

    /** Settles one file after its upload; the last one frees the slot and tells so. */
    method FinalizeFile(id: SessionId, file: FileId, success: bool, now: nat) returns (ended: bool)
      modifies this
      ensures (session, ended) == Finalized(old(session), id, file, success, now)
      ensures !(old(session).ActiveSession? && old(session).session.id == id) ==> session == old(session) && !ended
      ensures old(session).ActiveSession? && old(session).session.id == id ==>
                && ended == LastOne(old(session).session, file)
                && if ended then session == NoSession
                   else session.ActiveSession? && SettlesOne(old(session).session, session.session, file, success, now)
    {
      if !session.ActiveSession? {
        return false;
      }
      var active := session.session;
      if active.id != id {
        return false;
      }
      active := active.(lastActivity := now);
      if file in active.files && active.files[file].status == InProgress {
        active := active.WithStatus(file, if success then Finished else Failed);
      }
      assert SettlesOne(old(session).session, active, file, success, now);
      CompleteAfterLast(old(session).session, active, file, success, now);
      if active.IsComplete() {
        session := NoSession;
        ended := true;
      } else {
        session := ActiveSession(active);
        ended := false;
      }
    }

    /** The sender cancels its session. */
    method Cancel(id: SessionId, ip: Ip) returns (cancelled: bool)
      modifies this
      ensures cancelled <==> MayCancel(old(session), id, ip)
      ensures cancelled <==>
                old(session).ActiveSession? && old(session).session.id == id && old(session).session.senderIp == ip
      ensures session == if cancelled then NoSession else old(session)
    {
      cancelled := session.ActiveSession? && session.session.id == id && session.session.senderIp == ip;
      if cancelled {
        session := NoSession;
      }
    }

    /** The application cancels a session; no event follows. */
    method CancelV2Session(id: SessionId) returns (cancelled: bool)
      modifies this
      ensures cancelled <==> old(session).ActiveSession? && old(session).session.id == id
      ensures session == if cancelled then NoSession else old(session)
    {
      cancelled := session.ActiveSession? && session.session.id == id;
      if cancelled {
        session := NoSession;
      }
    }
  }
}
