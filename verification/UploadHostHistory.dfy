/**
 * What a run of the host tells about its sessions: who may upload what, how each file ended, and when a
 * session may be replaced.
 */
module UploadHostHistory {
  import opened Bytes
  import opened UploadSlot
  import opened UploadHost
  import opened UploadHostRuns
  import opened UploadHostLost

  // ---- States along a run ----

  function StateAt(s: State, run: seq<Action>, i: nat): State
    requires Possible(s, run) && i <= |run|
    decreases i
  {
    if i == 0 then s else StateAt(Next(s, run[0]), run[1..], i - 1)
  }

  lemma {:induction false} StepAt(s: State, run: seq<Action>, i: nat)
    requires Possible(s, run) && i < |run|
    ensures Enabled(StateAt(s, run, i), run[i]) && StateAt(s, run, i + 1) == Next(StateAt(s, run, i), run[i])
    decreases i
  {
    hide Next, Enabled;
    if i > 0 {
      StepAt(Next(s, run[0]), run[1..], i - 1);
    } else {
      assert StateAt(Next(s, run[0]), run[1..], 0) == Next(s, run[0]);
    }
  }

  lemma {:induction false} StateAtEnd(s: State, run: seq<Action>)
    requires Possible(s, run)
    ensures StateAt(s, run, |run|) == After(s, run)
    decreases |run|
  {
    hide Next, Enabled;
    if run != [] {
      StateAtEnd(Next(s, run[0]), run[1..]);
    }
  }

  /** The state before step `i` of a run from the start. */
  function Before(run: seq<Action>, i: nat): State
    requires Possible(START, run) && i <= |run|
  {
    StateAt(START, run, i)
  }

  lemma NothingAtStart(id: SessionId, file: FileId)
    ensures Known(START, id).None? && !Started(START, id, file) && id !in START.closed
    ensures START.slot.NoSession? && !START.slot.Holds(id) && forall b :: !HasStatus(START, id, file, FinalStatus(b))
  {
  }

  lemma StepBefore(run: seq<Action>, i: nat)
    requires Possible(START, run) && i < |run|
    ensures Enabled(Before(run, i), run[i]) && Before(run, i + 1) == Next(Before(run, i), run[i])
  {
    hide StateAt, Possible, Next, Enabled;
    StepAt(START, run, i);
  }

  lemma {:induction false} InvAt(run: seq<Action>, i: nat)
    requires Possible(START, run) && i <= |run|
    ensures Inv(Before(run, i)) && LostStayUnserved(Before(run, i))
    decreases i
  {
    hide *;
    if i == 0 {
      StartAndEnd(run);
      InvStart();
      NoneLostAtStart();
    } else {
      InvAt(run, i - 1);
      StepBefore(run, i - 1);
      InvStep(Before(run, i - 1), run[i - 1]);
      LostStayUnservedStep(Before(run, i - 1), run[i - 1]);
    }
  }

  lemma NoneLostAtStart()
    ensures LostStayUnserved(START)
  {
  }

  lemma StartAndEnd(run: seq<Action>)
    requires Possible(START, run)
    ensures Before(run, 0) == START && Before(run, |run|) == After(START, run)
  {
    hide Possible, After;
    StateAtEnd(START, run);
  }

  // ---- Who may upload ----

  /** Step `k` opens the session for the device at `ip` with these tokens. */
  predicate OpenedAt(run: seq<Action>, k: nat, id: SessionId, ip: Ip, tokens: map<FileId, Token>)
    requires Possible(START, run) && k < |run|
  {
    && run[k].Activate? && run[k].ip == ip && run[k].tokens == tokens
    && run[k].request in Before(run, k).requests && Before(run, k).requests[run[k].request] == Deciding(id)
  }

  /** Some step opened the session for the device at `ip` with this token for the file. */
  ghost predicate OpenedWith(run: seq<Action>, id: SessionId, ip: Ip, file: FileId, token: Token)
    requires Possible(START, run)
  {
    exists k, tokens :: 0 <= k < |run| && OpenedAt(run, k, id, ip, tokens) && file in tokens && tokens[file] == token
  }

  predicate BegunAt(run: seq<Action>, k: nat, id: SessionId, file: FileId)
    requires k < |run|
  {
    run[k].BeginUpload? && run[k].id == id && run[k].file == file
  }

  predicate Issued(session: Session, ip: Ip, tokens: map<FileId, Token>)
  {
    && session.senderIp == ip && session.files.Keys == tokens.Keys
    && forall f <- tokens :: session.files[f].token == tokens[f]
  }

  /** What is known of a session is what opened it. */
  ghost predicate KnownAsOpened(run: seq<Action>, i: nat, id: SessionId)
    requires Possible(START, run) && i <= |run|
  {
    var known := Known(Before(run, i), id);
    && (known.Some? ==> exists k, ip, tokens :: 0 <= k < i && OpenedAt(run, k, id, ip, tokens))
    && (forall k, ip, tokens :: 0 <= k < i && OpenedAt(run, k, id, ip, tokens) ==>
          known.Some? && Issued(known.value, ip, tokens))
  }

  lemma KnownByActivate(s: State, a: Action, id: SessionId)
    requires OneHolder(s) && IdsFresh(s) && Enabled(s, a) && a.Activate? && s.requests[a.request] == Deciding(id)
    ensures Known(s, id).None? && Known(Next(s, a), id).Some? && Issued(Known(Next(s, a), id).value, a.ip, a.tokens)
  {
    assert s.requests[a.request].HasId();
  }

  /** A session becomes known by its own activation only. */
  lemma NotKnownBefore(s: State, a: Action, id: SessionId)
    requires OneHolder(s) && IdsFresh(s) && Enabled(s, a) && Known(s, id).None? && Known(Next(s, a), id).Some?
    ensures a.Activate? && s.requests[a.request] == Deciding(id)
  {
    EmitKeeps(Effect(s, a), Emitted(s, a));
    hide Emit, Emitted;
    if !a.Finalize? && !a.BeginUpload? && !a.Activate? && Ending(s, a).None? {
      QuietStep(s, a, id);
    } else if !a.Activate? && Ending(s, a).Some? {
      EndingStep(s, a);
    }
    hide Ending;
  }

  lemma {:induction false} AlwaysAsOpened(run: seq<Action>, i: nat, id: SessionId)
    requires Possible(START, run) && i <= |run|
    ensures KnownAsOpened(run, i, id)
    decreases i
  {
    hide *;
    if i == 0 {
      StartAndEnd(run);
      NothingAtStart(id, 0);
      AsOpenedAtStart(run, id);
    } else {
      AlwaysAsOpened(run, i - 1, id);
      InvAt(run, i - 1);
      StepBefore(run, i - 1);
      OpenedStep(Before(run, i - 1), run[i - 1], id);
      AsOpenedStep(run, i, id);
    }
  }

  lemma AsOpenedAtStart(run: seq<Action>, id: SessionId)
    requires Possible(START, run) && Known(Before(run, 0), id).None?
    ensures KnownAsOpened(run, 0, id)
  {
    hide Possible, Before, Known;
  }

  /** One step of a session: it is opened now, or stays as it was opened. */
  ghost predicate StaysOrOpens(s: State, a: Action, id: SessionId)
    requires Enabled(s, a)
  {
    var t := Next(s, a);
    if a.Activate? && s.requests[a.request] == Deciding(id) then
      Known(s, id).None? && Known(t, id).Some? && Issued(Known(t, id).value, a.ip, a.tokens)
    else if Known(s, id).Some? then
      && Known(t, id).Some?
      && forall ip, tokens :: Issued(Known(s, id).value, ip, tokens) ==> Issued(Known(t, id).value, ip, tokens)
    else Known(t, id).None?
  }

  lemma OpenedStep(s: State, a: Action, id: SessionId)
    requires Inv(s) && Enabled(s, a)
    ensures StaysOrOpens(s, a, id)
  {
    hide Next, Known, Inv;
    assert OneHolder(s) && IdsFresh(s) by { InvParts(s); }
    if a.Activate? && s.requests[a.request] == Deciding(id) {
      KnownByActivate(s, a, id);
    } else if Known(s, id).Some? {
      FilesMoveStep(s, a, id);
    } else if Known(Next(s, a), id).Some? {
      NotKnownBefore(s, a, id);
    }
  }

  lemma InvParts(s: State)
    requires Inv(s)
    ensures OneHolder(s) && IdsFresh(s)
  {
  }

  lemma AsOpenedStep(run: seq<Action>, i: nat, id: SessionId)
    requires Possible(START, run) && 0 < i <= |run| && KnownAsOpened(run, i - 1, id)
    requires Enabled(Before(run, i - 1), run[i - 1]) && Before(run, i) == Next(Before(run, i - 1), run[i - 1])
    requires StaysOrOpens(Before(run, i - 1), run[i - 1], id)
    ensures KnownAsOpened(run, i, id)
  {
    hide Next, Known, Issued, StateAt, Possible;
    var s, a := Before(run, i - 1), run[i - 1];
    hide Before;
    if a.Activate? && s.requests[a.request] == Deciding(id) {
      assert OpenedAt(run, i - 1, id, a.ip, a.tokens);
    }
    forall k, ip, tokens | 0 <= k < i && OpenedAt(run, k, id, ip, tokens)
      ensures Known(Before(run, i), id).Some? && Issued(Known(Before(run, i), id).value, ip, tokens)
    {
      if k < i - 1 {
        assert Known(s, id).Some? && Issued(Known(s, id).value, ip, tokens);
      }
    }
  }

  ghost predicate BegunBefore(run: seq<Action>, i: nat, id: SessionId, file: FileId)
    requires i <= |run|
  {
    exists k :: 0 <= k < i && BegunAt(run, k, id, file)
  }

  lemma NoneBegunAtStart(run: seq<Action>, id: SessionId, file: FileId)
    ensures !BegunBefore(run, 0, id, file)
  {
  }

  lemma BegunBeforeNext(run: seq<Action>, i: nat, id: SessionId, file: FileId)
    requires i < |run|
    ensures BegunBefore(run, i + 1, id, file) <==> BegunBefore(run, i, id, file) || BegunAt(run, i, id, file)
  {
    hide BegunAt;
    if k :| 0 <= k < i + 1 && BegunAt(run, k, id, file) {
      assert k < i || k == i;
    }
  }

  /** A file left its pending state exactly if an upload of it began. */
  lemma {:induction false} StartedWhenBegun(run: seq<Action>, i: nat, id: SessionId, file: FileId)
    requires Possible(START, run) && i <= |run|
    ensures Started(Before(run, i), id, file) <==> BegunBefore(run, i, id, file)
    decreases i
  {
    hide *;
    if i == 0 {
      StartAndEnd(run);
      NothingAtStart(id, file);
      NoneBegunAtStart(run, id, file);
    } else {
      BegunBeforeNext(run, i - 1, id, file);
      StartedWhenBegun(run, i - 1, id, file);
      InvAt(run, i - 1);
      StepBefore(run, i - 1);
      StartedNext(Before(run, i - 1), run[i - 1], id, file);
      BegunAtStep(run, i - 1, id, file);
    }
  }

  lemma BegunAtStep(run: seq<Action>, k: nat, id: SessionId, file: FileId)
    requires k < |run|
    ensures BegunAt(run, k, id, file) <==> run[k].BeginUpload? && run[k].id == id && run[k].file == file
  {
  }

  lemma StartedNext(s: State, a: Action, id: SessionId, file: FileId)
    requires Inv(s) && Enabled(s, a)
    ensures Started(Next(s, a), id, file)
       <==> Started(s, id, file) || (a.BeginUpload? && a.id == id && a.file == file)
  {
    InvParts(s);
    hide Inv, Effect, Emitted, Enabled, Started;
    StartedStep(s, a, id, file);
    StartedByEmit(Effect(s, a), Emitted(s, a), id, file);
    UploadEmitted(s, a, id, file);
  }

  lemma StartedByEmit(t: State, e: Option<Event>, id: SessionId, file: FileId)
    ensures Started(Emit(t, e), id, file) <==> Started(t, id, file)
  {
    EmitKeeps(t, e);
    hide Emit;
  }

  lemma UploadEmitted(s: State, a: Action, id: SessionId, file: FileId)
    requires Enabled(s, a)
    ensures Emitted(s, a) == Some(FileUpload(id, file)) <==> a.BeginUpload? && a.id == id && a.file == file
  {
    hide Finalized, MayCancel, Claimable, MayUpload;
  }

  /**
   * An upload of a file is accepted if and only if the session is the active one, was opened for the same
   * device with this token for this file, and no upload of the file was accepted before. The application is
   * told of exactly those.
   */
  lemma UploadsAreAuthorised(
    run: seq<Action>, u: UploadId, id: SessionId, file: FileId, token: Token, ip: Ip, now: nat)
    requires Possible(START, run) && u !in After(START, run).uploads
    ensures var s := After(START, run);
            Enabled(s, BeginUpload(u, id, file, token, ip, now))
            <==> && s.slot.Holds(id)
                 && OpenedWith(run, id, ip, file, token) && !BegunBefore(run, |run|, id, file)
    ensures After(START, run).issued[FileUpload(id, file)]
         == if BegunBefore(run, |run|, id, file) then 1 else 0
  {
    hide *;
    StartAndEnd(run);
    InvAt(run, |run|);
    AlwaysAsOpened(run, |run|, id);
    StartedWhenBegun(run, |run|, id, file);
    UploadIssued(After(START, run), id, file);
    WhoMayUpload(run, u, id, file, token, ip, now);
  }

  lemma UploadIssued(s: State, id: SessionId, file: FileId)
    requires Inv(s)
    ensures s.issued[FileUpload(id, file)] == if Started(s, id, file) then 1 else 0
  {
    assert UploadsMatch(s);
    hide Started;
  }

  lemma WhoMayUpload(run: seq<Action>, u: UploadId, id: SessionId, file: FileId, token: Token, ip: Ip, now: nat)
    requires Possible(START, run) && u !in Before(run, |run|).uploads && KnownAsOpened(run, |run|, id)
    ensures var s := Before(run, |run|);
            Enabled(s, BeginUpload(u, id, file, token, ip, now))
            <==> && s.slot.Holds(id) && OpenedWith(run, id, ip, file, token) && !Started(s, id, file)
  {
    var s := Before(run, |run|);
    hide Possible, Before, OpenedAt;
    if s.slot.Holds(id) {
      assert Known(s, id) == Some(s.slot.session);
      var k, i, tokens :| 0 <= k < |run| && OpenedAt(run, k, id, i, tokens);
      assert Issued(s.slot.session, i, tokens);
      if s.slot.session.senderIp == ip {
        assert OpenedAt(run, k, id, ip, tokens);
      }
    }
  }

  // ---- How files end ----

  predicate IsUploadOf(s: State, u: UploadId, id: SessionId, file: FileId)
  {
    u in s.uploads && s.uploads[u].id == id && s.uploads[u].file == file
  }

  /** The step finalizes an upload of the file, while its session is active. */
  predicate Settles(s: State, a: Action, id: SessionId, file: FileId, success: bool)
  {
    && a.Finalize? && IsUploadOf(s, a.upload, id, file) && s.slot.Holds(id)
    && success == (s.uploads[a.upload] == Finishing(id, file, true))
  }

  predicate SettledAt(run: seq<Action>, k: nat, id: SessionId, file: FileId, success: bool)
    requires Possible(START, run) && k < |run|
  {
    Settles(Before(run, k), run[k], id, file, success)
  }

  ghost predicate SettledBefore(run: seq<Action>, i: nat, id: SessionId, file: FileId, success: bool)
    requires Possible(START, run) && i <= |run|
  {
    exists k :: 0 <= k < i && SettledAt(run, k, id, file, success)
  }

  lemma NoneSettledAtStart(run: seq<Action>, id: SessionId, file: FileId, success: bool)
    requires Possible(START, run)
    ensures !SettledBefore(run, 0, id, file, success)
  {
    hide Possible;
  }

  lemma SettledBeforeNext(run: seq<Action>, i: nat, id: SessionId, file: FileId, success: bool)
    requires Possible(START, run) && i < |run|
    ensures SettledBefore(run, i + 1, id, file, success)
       <==> SettledBefore(run, i, id, file, success) || Settles(Before(run, i), run[i], id, file, success)
  {
    hide Possible, Before, Settles;
    if Settles(Before(run, i), run[i], id, file, success) {
      assert SettledAt(run, i, id, file, success);
    }
    if k :| 0 <= k < i + 1 && SettledAt(run, k, id, file, success) {
      assert k < i || k == i;
    }
  }

  predicate HasStatus(s: State, id: SessionId, file: FileId, status: FileStatus)
  {
    var known := Known(s, id);
    known.Some? && file in known.value.files && known.value.files[file].status == status
  }

  /** The status that success or failure stands for. */
  function FinalStatus(success: bool): FileStatus
  {
    if success then Finished else Failed
  }

  lemma SettledNext(s: State, u: UploadId, now: nat, id: SessionId, file: FileId, success: bool)
    requires Inv(s) && Enabled(s, Finalize(u, now)) && IsUploadOf(s, u, id, file) && s.slot.Holds(id)
    ensures HasStatus(Next(s, Finalize(u, now)), id, file, FinalStatus(success))
       <==> success == (s.uploads[u] == Finishing(id, file, true))
  {
    assert UploadsDiffer(s) && Started(s, id, file);
    assert s.slot.session.files[file].status.InProgress?;
    SettledEffect(s, u, now, id, file);
    EmitKeeps(Effect(s, Finalize(u, now)), Emitted(s, Finalize(u, now)));
    hide Inv, Effect, Emitted, Emit;
  }

  lemma SettledEffect(s: State, u: UploadId, now: nat, id: SessionId, file: FileId)
    requires IdsFresh(s) && Enabled(s, Finalize(u, now)) && IsUploadOf(s, u, id, file) && s.slot.Holds(id)
    requires file in s.slot.session.files && s.slot.session.files[file].status.InProgress?
    ensures HasStatus(Effect(s, Finalize(u, now)), id, file, FinalStatus(s.uploads[u] == Finishing(id, file, true)))
  {
    hide Session.IsComplete;
  }

  /** Any other step leaves a final status as it is, and gives none. */
  lemma NotSettledNext(s: State, a: Action, id: SessionId, file: FileId, status: FileStatus)
    requires Inv(s) && Enabled(s, a) && status.Final()
    requires !(a.Finalize? && IsUploadOf(s, a.upload, id, file) && s.slot.Holds(id))
    ensures HasStatus(Next(s, a), id, file, status) <==> HasStatus(s, id, file, status)
  {
    hide Next, Inv;
    if Known(s, id).Some? {
      FilesMoveStep(s, a, id);
      if file in Known(s, id).value.files {
        NotFinalByOthers(s, a, id, file);
      }
    } else if Known(Next(s, a), id).Some? {
      InvParts(s);
      NotKnownBefore(s, a, id);
      OpenedPending(s, a, id);
    }
  }

  lemma OpenedPending(s: State, a: Action, id: SessionId)
    requires Enabled(s, a) && a.Activate? && s.requests[a.request] == Deciding(id)
    ensures var known := Known(Next(s, a), id);
            known.Some? && forall f <- known.value.files :: known.value.files[f].status.Pending?
  {
  }

  lemma NotFinalByOthers(s: State, a: Action, id: SessionId, file: FileId)
    requires Inv(s) && Enabled(s, a) && Known(s, id).Some? && file in Known(s, id).value.files
    requires !(a.Finalize? && IsUploadOf(s, a.upload, id, file) && s.slot.Holds(id))
    requires Known(Next(s, a), id).Some? && file in Known(Next(s, a), id).value.files
    ensures Known(s, id).value.files[file].status == Known(Next(s, a), id).value.files[file].status
         || (Known(s, id).value.files[file].status.Pending?
             && Known(Next(s, a), id).value.files[file].status.InProgress?)
  {
    InvParts(s);
    EmitKeeps(Effect(s, a), Emitted(s, a));
    assert Known(Next(s, a), id) == Known(Effect(s, a), id);
    hide Emit, Emitted, Next;
    EffectOfOthers(s, a, id, file);
  }

  lemma EffectOfOthers(s: State, a: Action, id: SessionId, file: FileId)
    requires OneHolder(s) && IdsFresh(s) && Enabled(s, a) && Known(s, id).Some? && file in Known(s, id).value.files
    requires !(a.Finalize? && IsUploadOf(s, a.upload, id, file) && s.slot.Holds(id))
    requires Known(Effect(s, a), id).Some? && file in Known(Effect(s, a), id).value.files
    ensures Known(s, id).value.files[file].status == Known(Effect(s, a), id).value.files[file].status
         || (Known(s, id).value.files[file].status.Pending?
             && Known(Effect(s, a), id).value.files[file].status.InProgress?)
  {
    if a.Finalize? {
      FinalizeOfOther(s, a.upload, a.now, id, file);
    } else if a.BeginUpload? || a.Activate? {
      hide Session.IsComplete;
    } else if Ending(s, a).Some? {
      EndingStep(s, a);
      assert Ending(s, a).value.session == s.slot.session;
      hide Effect, Ending, Enabled;
    } else {
      QuietStep(s, a, id);
      hide Effect, Ending, Enabled;
    }
  }

  lemma FinalizeOfOther(s: State, u: UploadId, now: nat, id: SessionId, file: FileId)
    requires IdsFresh(s) && Enabled(s, Finalize(u, now)) && Known(s, id).Some? && file in Known(s, id).value.files
    requires !(IsUploadOf(s, u, id, file) && s.slot.Holds(id))
    ensures var t := Effect(s, Finalize(u, now));
            && Known(t, id).Some? && file in Known(t, id).value.files
            && Known(t, id).value.files[file].status == Known(s, id).value.files[file].status
  {
    hide Session.IsComplete;
  }

  lemma {:induction false} StatusWhenSettled(run: seq<Action>, i: nat, id: SessionId, file: FileId, success: bool)
    requires Possible(START, run) && i <= |run|
    ensures HasStatus(Before(run, i), id, file, FinalStatus(success))
       <==> SettledBefore(run, i, id, file, success)
    decreases i
  {
    hide *;
    if i == 0 {
      StartAndEnd(run);
      NothingAtStart(id, file);
      NoneSettledAtStart(run, id, file, success);
    } else {
      SettledBeforeNext(run, i - 1, id, file, success);
      StatusWhenSettled(run, i - 1, id, file, success);
      InvAt(run, i - 1);
      StepBefore(run, i - 1);
      StatusNext(Before(run, i - 1), run[i - 1], id, file, success);
    }
  }

  lemma StatusNext(s: State, a: Action, id: SessionId, file: FileId, success: bool)
    requires Inv(s) && Enabled(s, a)
    ensures HasStatus(Next(s, a), id, file, FinalStatus(success))
       <==> HasStatus(s, id, file, FinalStatus(success)) || Settles(s, a, id, file, success)
  {
    hide Inv, Next, Enabled, HasStatus;
    if a.Finalize? && IsUploadOf(s, a.upload, id, file) && s.slot.Holds(id) {
      SettledNext(s, a.upload, a.now, id, file, success);
      NotFinalYet(s, a.upload, id, file);
    } else {
      NotSettledNext(s, a, id, file, FinalStatus(success));
    }
  }

  lemma NotFinalYet(s: State, u: UploadId, id: SessionId, file: FileId)
    requires Inv(s) && IsUploadOf(s, u, id, file) && s.slot.Holds(id)
    ensures !HasStatus(s, id, file, Finished) && !HasStatus(s, id, file, Failed)
  {
    assert s.slot.session.files[file].status.InProgress?;
  }

  // ---- How uploads end ----

  /** The step ends the transfer of the upload with this result; a dropped one has none. */
  predicate EndsTransfer(s: State, a: Action, u: UploadId, id: SessionId, file: FileId, success: bool)
  {
    && u in s.uploads && s.uploads[u] == Transferring(id, file)
    && (a == EndTransfer(u, success) || (a == DropUpload(u) && !success))
  }

  /** Step `k` ends the transfer of the file with this result, or drops it. */
  predicate TransferredAt(run: seq<Action>, k: nat, u: UploadId, id: SessionId, file: FileId, success: bool)
    requires Possible(START, run) && k < |run|
  {
    EndsTransfer(Before(run, k), run[k], u, id, file, success)
  }

  predicate Succeeded(upload: Upload)
  {
    upload.Finishing? && upload.success
  }

  lemma UploadNext(s: State, a: Action, u: UploadId)
    requires Enabled(s, a) && u in Effect(s, a).uploads && !Effect(s, a).uploads[u].Transferring?
    ensures var n := Effect(s, a).uploads[u];
            (u in s.uploads && n == s.uploads[u]) || EndsTransfer(s, a, u, n.id, n.file, Succeeded(n))
  {
    hide Finalized, Begun, MayUpload, MayCancel, Claimable, Cleared;
  }

  lemma {:induction false} UploadWasTransferring(run: seq<Action>, i: nat, u: UploadId)
    requires Possible(START, run) && i <= |run|
    requires u in Before(run, i).uploads && !Before(run, i).uploads[u].Transferring?
    ensures var upload := Before(run, i).uploads[u];
            var success := Succeeded(upload);
            exists j :: 0 <= j < i && TransferredAt(run, j, u, upload.id, upload.file, success)
    decreases i
  {
    if i == 0 {
      StartAndEnd(run);
    } else {
      hide Next, Enabled, Before, Possible;
      StepBefore(run, i - 1);
      var s, a, n := Before(run, i - 1), run[i - 1], i - 1;
      var upload := Before(run, i).uploads[u];
      SameUploads(s, a);
      UploadNext(s, a, u);
      if u in s.uploads && s.uploads[u] == upload {
        UploadWasTransferring(run, i - 1, u);
      } else {
        assert TransferredAt(run, n, u, upload.id, upload.file, Succeeded(upload));
      }
    }
  }

  lemma SameUploads(s: State, a: Action)
    requires Enabled(s, a)
    ensures Next(s, a).uploads == Effect(s, a).uploads
  {
    EmitKeeps(Effect(s, a), Emitted(s, a));
    hide Effect, Emitted, Emit;
  }

  /**
   * Step `j` ends the transfer of the file by upload `u`, and the later step `k` settles the file with that
   * result while its session is active. A transfer that is dropped ends without success.
   */
  ghost predicate Ended(run: seq<Action>, id: SessionId, file: FileId, success: bool)
    requires Possible(START, run)
  {
    exists j, k, u :: 0 <= j < k < |run| && TransferredAt(run, j, u, id, file, success)
                   && run[k].Finalize? && run[k].upload == u
                   && IsUploadOf(Before(run, k), u, id, file) && Before(run, k).slot.Holds(id)
                   && (Before(run, k).uploads[u] == Finishing(id, file, true) <==> success)
  }

  /**
   * In every run: a file is finished if and only if the transfer of an upload of it succeeded and this was
   * settled while the session was active; it is failed if and only if one that failed or was dropped was. So
   * no file is reported as received that was not.
   */
  lemma FileOutcome(run: seq<Action>, id: SessionId, file: FileId)
    requires Possible(START, run)
    ensures HasStatus(After(START, run), id, file, Finished) <==> Ended(run, id, file, true)
    ensures HasStatus(After(START, run), id, file, Failed) <==> Ended(run, id, file, false)
  {
    StartAndEnd(run);
    StatusWhenSettled(run, |run|, id, file, true);
    StatusWhenSettled(run, |run|, id, file, false);
    EndedWhenSettled(run, id, file, true);
    EndedWhenSettled(run, id, file, false);
    hide StateAt, Possible, After, HasStatus, Ended, SettledBefore;
  }

  lemma EndedWhenSettled(run: seq<Action>, id: SessionId, file: FileId, success: bool)
    requires Possible(START, run)
    ensures Ended(run, id, file, success) <==> SettledBefore(run, |run|, id, file, success)
  {
    if k :| 0 <= k < |run| && SettledAt(run, k, id, file, success) {
      var u := run[k].upload;
      StepBefore(run, k);
      assert !Before(run, k).uploads[u].Transferring?;
      hide Before, Possible;
      UploadWasTransferring(run, k, u);
      var upload := Before(run, k).uploads[u];
      var j :| 0 <= j < k && TransferredAt(run, j, u, upload.id, upload.file, Succeeded(upload));
    }
    if Ended(run, id, file, success) {
      hide Before, Possible;
      var j, k, u :| 0 <= j < k < |run| && TransferredAt(run, j, u, id, file, success)
                  && run[k].Finalize? && run[k].upload == u
                  && IsUploadOf(Before(run, k), u, id, file) && Before(run, k).slot.Holds(id)
                  && (Before(run, k).uploads[u] == Finishing(id, file, true) <==> success);
      assert SettledAt(run, k, id, file, success);
    }
  }

  // ---- When a session may be replaced ----

  /** The step is activity of the session. */
  predicate Touches(s: State, a: Action, id: SessionId)
    requires Enabled(s, a)
  {
    match a
    case Activate(r, _, _, _) => s.requests[r] == Deciding(id)
    case BeginUpload(_, i, _, _, _, _) => i == id
    case Finalize(u, _) => s.uploads[u].id == id && s.slot.Holds(id)
    case _ => false
  }

  /** The time of the last activity among the first `i` steps. */
  function LastTouch(run: seq<Action>, i: nat, id: SessionId): nat
    requires Possible(START, run) && i <= |run|
    decreases i
  {
    if i == 0 then 0
    else
      StepBefore(run, i - 1);
      if Touches(Before(run, i - 1), run[i - 1], id) then run[i - 1].now else LastTouch(run, i - 1, id)
  }

  lemma TouchNext(s: State, a: Action, id: SessionId)
    requires OneHolder(s) && IdsFresh(s) && Enabled(s, a) && Effect(s, a).slot.Holds(id)
    ensures if Touches(s, a, id) then Effect(s, a).slot.session.lastActivity == a.now
            else s.slot.Holds(id) && Effect(s, a).slot.session.lastActivity == s.slot.session.lastActivity
  {
    if a.Finalize? {
      TouchByFinalize(s, a.upload, a.now, id);
    } else if a.BeginUpload? || a.Activate? {
      hide OneHolder, IdsFresh, Session.IsComplete;
    } else {
      SessionStays(s, a, id);
      hide OneHolder, IdsFresh, Session.IsComplete;
    }
  }

  lemma TouchByFinalize(s: State, u: UploadId, now: nat, id: SessionId)
    requires Enabled(s, Finalize(u, now)) && Effect(s, Finalize(u, now)).slot.Holds(id)
    ensures s.slot.Holds(id)
    ensures Effect(s, Finalize(u, now)).slot.session.lastActivity
         == if s.uploads[u].id == id then now else s.slot.session.lastActivity
  {
    hide Session.IsComplete;
  }

  lemma {:induction false} TouchedLast(run: seq<Action>, i: nat, id: SessionId)
    requires Possible(START, run) && i <= |run| && Before(run, i).slot.Holds(id)
    ensures Before(run, i).slot.session.lastActivity == LastTouch(run, i, id)
    decreases i
  {
    hide *;
    if i == 0 {
      StartAndEnd(run);
      NothingAtStart(id, 0);
    } else {
      StepBefore(run, i - 1);
      LastTouchNext(run, i - 1, id);
      var s, a := Before(run, i - 1), run[i - 1];
      InvAt(run, i - 1);
      InvParts(s);
      SameSlot(s, a);
      assert Effect(s, a).slot.Holds(id);
      TouchNext(s, a, id);
      if !Touches(s, a, id) {
        TouchedLast(run, i - 1, id);
      }
    }
  }

  lemma LastTouchNext(run: seq<Action>, i: nat, id: SessionId)
    requires Possible(START, run) && i < |run| && Enabled(Before(run, i), run[i])
    ensures LastTouch(run, i + 1, id)
         == if Touches(Before(run, i), run[i], id) then run[i].now else LastTouch(run, i, id)
  {
    hide Possible, Before, Enabled, Touches;
  }

  lemma SameSlot(s: State, a: Action)
    requires Enabled(s, a)
    ensures Next(s, a).slot == Effect(s, a).slot
  {
    EmitKeeps(Effect(s, a), Emitted(s, a));
    hide Effect, Emitted, Emit;
  }

  /** An upload of the session runs, or was lost before it settled its file. */
  ghost predicate IsReceiving(s: State, id: SessionId)
  {
    || (exists u :: u in s.uploads && s.uploads[u].id == id)
    || (exists f :: (id, f) in s.lostUploads)
  }

  lemma ReceivingMeansProgress(s: State)
    requires Inv(s) && LostStayUnserved(s) && s.slot.ActiveSession?
    ensures IsReceiving(s, s.slot.session.id)
       <==> exists f <- s.slot.session.files :: s.slot.session.files[f].status.InProgress?
  {
    var session := s.slot.session;
    var id := session.id;
    assert UploadsDiffer(s) && ProgressServed(s);
    hide OneHolder, IdsFresh, EndsMatch, UploadsMatch, SentWasIssued;
    if u :| u in s.uploads && s.uploads[u].id == id {
      assert Started(s, id, s.uploads[u].file);
      assert session.files[s.uploads[u].file].status.InProgress?;
    }
    if f :| (id, f) in s.lostUploads {
      assert Started(s, id, f) && session.files[f].status.InProgress?;
    }
    if f :| f in session.files && session.files[f].status.InProgress? && (id, f) !in s.lostUploads {
      assert Served(s, id, f);
    }
  }

  /**
   * In every run: a new request gets the slot if and only if it is free, or its session receives nothing and
   * saw no activity for 60 seconds. So no running upload is ever pushed aside.
   */
  lemma ReplacedOnlyWhenIdle(run: seq<Action>, r: RequestId, now: nat, newId: SessionId)
    requires Possible(START, run) && r !in After(START, run).requests && newId !in After(START, run).usedIds
    ensures var s := After(START, run);
            Enabled(s, Claim(r, now, newId))
            <==> || s.slot.NoSession?
                 || (s.slot.ActiveSession? && !IsReceiving(s, s.slot.session.id)
                     && now >= LastTouch(run, |run|, s.slot.session.id) + 60)
  {
    var s := After(START, run);
    StartAndEnd(run);
    InvAt(run, |run|);
    if s.slot.ActiveSession? {
      ReceivingMeansProgress(s);
      TouchedLast(run, |run|, s.slot.session.id);
    }
    hide Inv, StateAt, Possible, After, LostStayUnserved, IsReceiving, LastTouch;
  }

  // ---- Events on their way ----

  lemma KeptNext(s: State, a: Action)
    requires Enabled(s, a) && !a.Lose?
    ensures s.outbox + s.sent == s.issued ==> Next(s, a).outbox + Next(s, a).sent == Next(s, a).issued
  {
    KeptByEffect(s, a);
    KeptByEmit(Effect(s, a), Emitted(s, a));
    hide Effect, Emitted, Emit;
  }

  lemma KeptByEffect(s: State, a: Action)
    requires Enabled(s, a) && !a.Lose?
    ensures var t := Effect(s, a);
            t.outbox + t.sent == s.outbox + s.sent && t.issued == s.issued
  {
    hide Finalized, Claimable, MayUpload, MayCancel, Begun, Cleared;
  }

  lemma KeptByEmit(t: State, e: Option<Event>)
    ensures t.outbox + t.sent == t.issued ==> Emit(t, e).outbox + Emit(t, e).sent == Emit(t, e).issued
  {
  }

  /** While no sending future is dropped, every event emitted was sent or is about to be. */
  lemma {:induction false} EventsAreKept(run: seq<Action>, i: nat)
    requires Possible(START, run) && i <= |run| && forall k :: 0 <= k < i ==> !run[k].Lose?
    ensures Before(run, i).outbox + Before(run, i).sent == Before(run, i).issued
    decreases i
  {
    hide *;
    if i == 0 {
      StartAndEnd(run);
      NothingEmitted();
    } else {
      EventsAreKept(run, i - 1);
      StepBefore(run, i - 1);
      KeptNext(Before(run, i - 1), run[i - 1]);
    }
  }

  lemma NothingEmitted()
    ensures START.outbox + START.sent == START.issued
  {
  }

  // ---- What is announced of an end ----

  /** How often an end of the session was announced. */
  function EndsOf(s: State, id: SessionId): nat
  {
    s.issued[SessionEnd(id, ReasonFinished)] + s.issued[SessionEnd(id, ReasonCancelled)]
  }

  /**
   * Every session that leaves the slot is announced once, as finished exactly if all its files were final and
   * it was not cancelled first, unless the application cancelled it; no other session is announced.
   */
  lemma EveryEndIsAnnounced(run: seq<Action>, id: SessionId)
    requires Possible(START, run)
    ensures var s := After(START, run);
            if Known(s, id).Some? && !s.slot.Holds(id) then
              var c := s.closed[id];
              && EndsOf(s, id) == (if c.why == ByApplication then 0 else 1)
              && (s.issued[SessionEnd(id, ReasonFinished)] == 1 <==> c.why == AllFinal)
              && (c.why == AllFinal <==> c.session.IsComplete())
            else EndsOf(s, id) == 0
  {
    StartAndEnd(run);
    InvAt(run, |run|);
    ClosedCompleteAt(run, |run|, id);
    var s := After(START, run);
    assert EndsMatch(s) && IdsFresh(s);
    hide OneHolder, UploadsMatch, UploadsDiffer, ProgressServed, SentWasIssued;
    hide After, StateAt, Possible, Session.IsComplete, LostStayUnserved;
  }

  /** A cancel by the sender's device ends its active session; any other cancel is only passed on. */
  lemma CancelIsAnswered(s: State, id: SessionId, ip: Ip)
    ensures Enabled(s, Cancel(id, ip))
    ensures var t := Next(s, Cancel(id, ip));
            var hit := s.slot.ActiveSession? && s.slot.session.id == id && s.slot.session.senderIp == ip;
            && t.slot == (if hit then NoSession else s.slot)
            && t.issued == s.issued + multiset{if hit then SessionEnd(id, ReasonCancelled) else CancelReceived(id)}
            && t.requests == s.requests && t.uploads == s.uploads
  {
  }

  /** A session that was cancelled or replaced still had a file to receive. */
  lemma {:induction false} ClosedCompleteAt(run: seq<Action>, i: nat, id: SessionId)
    requires Possible(START, run) && i <= |run|
    ensures var s := Before(run, i);
            id in s.closed && s.closed[id].session.IsComplete() ==> s.closed[id].why.AllFinal?
    decreases i
  {
    hide *;
    if i == 0 {
      StartAndEnd(run);
      NothingAtStart(id, 0);
    } else {
      StepBefore(run, i - 1);
      InvAt(run, i - 1);
      ClosedCompleteAt(run, i - 1, id);
      if id in Before(run, i).closed {
        ClosedNext(Before(run, i - 1), run[i - 1], id);
      }
    }
  }

  lemma ClosedNext(s: State, a: Action, id: SessionId)
    requires Inv(s) && Enabled(s, a) && id in Next(s, a).closed
    ensures || (id in s.closed && Next(s, a).closed[id] == s.closed[id])
            || Next(s, a).closed[id].why.AllFinal? || !Next(s, a).closed[id].session.IsComplete()
  {
    EndingStep(s, a);
    EmitKeeps(Effect(s, a), Emitted(s, a));
    hide Emit, Emitted;
    var e := Ending(s, a);
    if e.Some? && e.value.session.id == id && !e.value.why.AllFinal? {
      assert e.value.session == s.slot.session;
      assert ActiveIsOpen(s);
    }
    hide Effect, Ending, Session.IsComplete;
  }
}
