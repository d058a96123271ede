/** Uploads dropped after disarming their guard: which files can still be settled, and which sessions can end. */
module UploadHostLost {
  import opened Bytes
  import opened UploadSlot
  import opened UploadHost
  import opened UploadHostRuns

  // ---- Lost uploads ----

  /** A lost upload leaves its file in progress for as long as its session is active. */
  ghost predicate LostStayUnserved(s: State)
  {
    forall l <- s.lostUploads ::
      && Started(s, l.0, l.1) && !Served(s, l.0, l.1)
      && (s.slot.Holds(l.0) ==> s.slot.session.files[l.1].status.InProgress?)
  }

  lemma LostAfter(s: State, a: Action, id: SessionId, f: FileId)
    requires Enabled(s, a) && (id, f) in Effect(s, a).lostUploads && (id, f) !in s.lostUploads
    ensures a.DropUpload? && s.uploads[a.upload].Finishing? && Effect(s, a).uploads == s.uploads - {a.upload}
    ensures s.uploads[a.upload].id == id && s.uploads[a.upload].file == f && Effect(s, a).slot == s.slot
  {
  }

  lemma UnservedStays(s: State, a: Action, id: SessionId, f: FileId)
    requires Inv(s) && Enabled(s, a) && Started(s, id, f) && !Served(s, id, f)
    ensures !Served(Effect(s, a), id, f)
  {
    var t := Effect(s, a);
    if a.BeginUpload? {
      StartedByBegin(s, a, id, f);
    }
    forall u <- t.uploads ensures !(t.uploads[u].id == id && t.uploads[u].file == f) {
      UploadsStep(s, a, u);
      hide Effect, Enabled, Inv;
      assert u in s.uploads ==> !(s.uploads[u].id == id && s.uploads[u].file == f);
    }
  }

  lemma LostStep(s: State, a: Action, id: SessionId, f: FileId)
    requires Inv(s) && LostStayUnserved(s) && Enabled(s, a) && (id, f) in Effect(s, a).lostUploads
    ensures var t := Effect(s, a);
            && Started(t, id, f) && !Served(t, id, f)
            && (t.slot.Holds(id) ==> t.slot.session.files[f].status.InProgress?)
  {
    var t := Effect(s, a);
    if (id, f) in s.lostUploads {
      LostStaysLost(s, a, id, f);
    } else {
      LostAfter(s, a, id, f);
      LostNow(s, a, id, f);
    }
  }

  lemma LostStaysLost(s: State, a: Action, id: SessionId, f: FileId)
    requires Inv(s) && LostStayUnserved(s) && Enabled(s, a) && (id, f) in s.lostUploads
    ensures var t := Effect(s, a);
            && Started(t, id, f) && !Served(t, id, f)
            && (t.slot.Holds(id) ==> t.slot.session.files[f].status.InProgress?)
  {
    var t := Effect(s, a);
    assert Started(s, id, f) && !Served(s, id, f);
    StartedStep(s, a, id, f);
    UnservedStays(s, a, id, f);
    if t.slot.Holds(id) {
      SessionStays(s, a, id);
      assert s.slot.Holds(id);
      if a.Finalize? {
        assert !(s.uploads[a.upload].id == id && s.uploads[a.upload].file == f);
      }
      InProgressStep(s, a, id, f);
    }
  }

  lemma LostNow(s: State, a: Action, id: SessionId, f: FileId)
    requires Inv(s) && Enabled(s, a) && a.DropUpload? && s.uploads[a.upload].Finishing?
    requires s.uploads[a.upload].id == id && s.uploads[a.upload].file == f
    requires Effect(s, a).uploads == s.uploads - {a.upload} && Effect(s, a).slot == s.slot
    ensures var t := Effect(s, a);
            && Started(t, id, f) && !Served(t, id, f)
            && (t.slot.Holds(id) ==> t.slot.session.files[f].status.InProgress?)
  {
    var t := Effect(s, a);
    StartedStep(s, a, id, f);
    assert Started(s, id, f);
    OnlyServer(s, a.upload);
  }

  lemma OnlyServer(s: State, u: UploadId)
    requires UploadsDiffer(s) && u in s.uploads
    ensures forall v <- s.uploads :: v != u ==>
              !(s.uploads[v].id == s.uploads[u].id && s.uploads[v].file == s.uploads[u].file)
  {
    forall v | v in s.uploads && v != u
      ensures !(s.uploads[v].id == s.uploads[u].id && s.uploads[v].file == s.uploads[u].file)
    {
      assert SameFile(s.uploads[v], s.uploads[u]) ==> u == v;
    }
  }

  lemma LostStayUnservedStep(s: State, a: Action)
    requires Inv(s) && LostStayUnserved(s) && Enabled(s, a)
    ensures LostStayUnserved(Next(s, a))
  {
    var t := Effect(s, a);
    forall l <- t.lostUploads
      ensures Started(t, l.0, l.1) && !Served(t, l.0, l.1)
      ensures t.slot.Holds(l.0) ==> t.slot.session.files[l.1].status.InProgress?
    {
      hide Effect, Inv, Enabled, LostStayUnserved, Started, Served;
      LostStep(s, a, l.0, l.1);
    }
    hide Effect, Emitted, Inv, Enabled;
    EmitKeepsLost(t, Emitted(s, a));
  }

  lemma EmitKeepsLost(t: State, e: Option<Event>)
    requires LostStayUnserved(t)
    ensures LostStayUnserved(Emit(t, e))
  {
    EmitKeeps(t, e);
    var n := Emit(t, e);
    hide Emit;
    forall l <- n.lostUploads ensures Started(n, l.0, l.1) && !Served(n, l.0, l.1) {
      assert Started(t, l.0, l.1) && !Served(t, l.0, l.1);
    }
  }

  lemma {:induction false} RunKeepsLost(s: State, run: seq<Action>)
    requires Inv(s) && LostStayUnserved(s) && Possible(s, run)
    ensures LostStayUnserved(After(s, run))
    decreases |run|
  {
    hide Inv, LostStayUnserved, Next, Enabled;
    if run != [] {
      InvStep(s, run[0]);
      LostStayUnservedStep(s, run[0]);
      RunKeepsLost(Next(s, run[0]), run[1..]);
    }
  }

  // ---- Settling ----

  /** Some continuation gives the file its final status. */
  ghost predicate CanBeSettled(s: State, id: SessionId, f: FileId)
  {
    exists later :: Possible(s, later) && IsFinal(After(s, later), id, f)
  }

  predicate IsFinal(s: State, id: SessionId, f: FileId)
  {
    Known(s, id).Some? && f in Known(s, id).value.files && Known(s, id).value.files[f].status.Final()
  }

  lemma SettledByFinalize(s: State, u: UploadId, now: nat)
    requires Inv(s) && Enabled(s, Finalize(u, now)) && s.slot.Holds(s.uploads[u].id)
    ensures IsFinal(Next(s, Finalize(u, now)), s.uploads[u].id, s.uploads[u].file)
  {
    var id, f := s.uploads[u].id, s.uploads[u].file;
    assert Started(s, id, f) && s.slot.session.files[f].status.InProgress?;
    EmitKeeps(Effect(s, Finalize(u, now)), Emitted(s, Finalize(u, now)));
    FinalizeSettles(s, u, now);
    hide Effect, Emitted, Emit;
  }

  lemma FinalizeSettles(s: State, u: UploadId, now: nat)
    requires IdsFresh(s) && Enabled(s, Finalize(u, now)) && s.slot.Holds(s.uploads[u].id)
    requires s.uploads[u].file in s.slot.session.files
    requires s.slot.session.files[s.uploads[u].file].status.InProgress?
    ensures IsFinal(Effect(s, Finalize(u, now)), s.uploads[u].id, s.uploads[u].file)
  {
    hide Session.IsComplete;
  }

  lemma ServedCanBeSettled(s: State, id: SessionId, f: FileId)
    requires Inv(s) && s.slot.Holds(id) && Served(s, id, f)
    ensures CanBeSettled(s, id, f)
  {
    var u :| u in s.uploads && s.uploads[u].id == id && s.uploads[u].file == f;
    hide Next, Inv, IsFinal;
    if s.uploads[u].Transferring? {
      SettledAfterTransfer(s, u);
    } else {
      SettledByFinalize(s, u, 0);
      RunOfOne(s, Finalize(u, 0));
    }
  }

  lemma SettledAfterTransfer(s: State, u: UploadId)
    requires Inv(s) && u in s.uploads && s.uploads[u].Transferring? && s.slot.Holds(s.uploads[u].id)
    ensures CanBeSettled(s, s.uploads[u].id, s.uploads[u].file)
  {
    var a := EndTransfer(u, true);
    assert Enabled(s, a);
    InvStep(s, a);
    TransferEnds(s, u);
    var t := Next(s, a);
    assert Enabled(t, Finalize(u, 0));
    hide Next, Inv, Enabled, IsFinal;
    SettledByFinalize(t, u, 0);
    RunOfOne(t, Finalize(u, 0));
    Prepend(s, a, [Finalize(u, 0)]);
  }

  lemma TransferEnds(s: State, u: UploadId)
    requires Enabled(s, EndTransfer(u, true))
    ensures var t := Next(s, EndTransfer(u, true));
            t.slot == s.slot && u in t.uploads && SameFile(t.uploads[u], s.uploads[u]) && t.uploads[u].Finishing?
  {
  }

  /**
   * A file in progress of an active session can still be settled if and only if its upload was not dropped
   * after disarming its guard.
   */
  lemma SettledUnlessLost(run: seq<Action>, id: SessionId, f: FileId)
    requires Possible(START, run) && After(START, run).slot.Holds(id)
    requires f in After(START, run).slot.session.files
    requires After(START, run).slot.session.files[f].status.InProgress?
    ensures var s := After(START, run);
            CanBeSettled(s, id, f) <==> (id, f) !in s.lostUploads
  {
    ReachableInv(run);
    InvStart();
    RunKeepsLost(START, run);
    var s := After(START, run);
    if (id, f) in s.lostUploads {
      forall later | Possible(s, later) ensures !IsFinal(After(s, later), id, f) {
        LostForever(s, later, id, f);
      }
    } else {
      assert Served(s, id, f);
      ServedCanBeSettled(s, id, f);
    }
  }

  /** The file of a lost upload is known, and not final whether its session is active or closed. */
  ghost predicate LostNotFinal(s: State, id: SessionId, f: FileId)
  {
    (id, f) in s.lostUploads && Started(s, id, f) && !IsFinal(s, id, f)
  }

  lemma LostNotFinalStep(s: State, a: Action, id: SessionId, f: FileId)
    requires Inv(s) && LostStayUnserved(s) && Enabled(s, a) && LostNotFinal(s, id, f)
    ensures LostNotFinal(Next(s, a), id, f)
  {
    var t := Next(s, a);
    LostGrows(s, a);
    LostStayUnservedStep(s, a);
    InvStep(s, a);
    assert Started(t, id, f);
    if s.slot.Holds(id) {
      if Ending(s, a).Some? {
        EndsOnlyByCancel(s, a, id, f);
        EndingStep(s, a);
        EmitKeeps(Effect(s, a), Emitted(s, a));
        assert t.closed[id].session == s.slot.session;
      } else {
        HeldUnlessEnding(s, a, id);
      }
    } else {
      ClosedStays(s, a, id);
    }
    hide Next, Effect, Emitted, Ending, Enabled;
  }

  /** A lost upload rules out every end but a cancel. */
  lemma EndsOnlyByCancel(s: State, a: Action, id: SessionId, f: FileId)
    requires Inv(s) && LostStayUnserved(s) && Enabled(s, a) && s.slot.Holds(id) && (id, f) in s.lostUploads
    requires Ending(s, a).Some?
    ensures (a.Cancel? || a.CancelByApp?) && a.id == id && Ending(s, a).value.session == s.slot.session
  {
    assert Started(s, id, f) && !Served(s, id, f) && s.slot.session.files[f].status.InProgress?;
    if a.Finalize? {
      assert !(s.uploads[a.upload].id == id && s.uploads[a.upload].file == f);
      NotCompletedBy(s, a.upload, a.now, f);
    }
    hide Inv, LostStayUnserved, Effect;
  }

  /** Settling another file does not complete a session with a file in progress. */
  lemma NotCompletedBy(s: State, u: UploadId, now: nat, f: FileId)
    requires Enabled(s, Finalize(u, now)) && s.slot.ActiveSession? && f in s.slot.session.files
    requires s.slot.session.files[f].status.InProgress?
    requires !(s.uploads[u].id == s.slot.session.id && s.uploads[u].file == f)
    ensures Ending(s, Finalize(u, now)).None?
  {
    var upload := s.uploads[u];
    if s.slot.Holds(upload.id) {
      var success := upload.Finishing? && upload.success;
      var settled := Settled(s.slot.session, upload.file, success, now);
      assert f in settled.files && settled.files[f] == s.slot.session.files[f];
    }
  }

  lemma HeldUnlessEnding(s: State, a: Action, id: SessionId)
    requires OneHolder(s) && Enabled(s, a) && s.slot.Holds(id) && Ending(s, a).None?
    ensures Next(s, a).slot.Holds(id)
  {
    EmitKeeps(Effect(s, a), Emitted(s, a));
    hide Emit, Emitted, Session.IsComplete;
  }

  lemma LostGrows(s: State, a: Action)
    requires Enabled(s, a)
    ensures s.lostUploads <= Next(s, a).lostUploads
  {
    EmitKeeps(Effect(s, a), Emitted(s, a));
    hide Emit, Emitted;
  }

  lemma {:induction false} LostForever(s: State, run: seq<Action>, id: SessionId, f: FileId)
    requires Inv(s) && LostStayUnserved(s) && Possible(s, run) && LostNotFinal(s, id, f)
    ensures LostNotFinal(After(s, run), id, f)
    decreases |run|
  {
    if run != [] {
      LostNotFinalStep(s, run[0], id, f);
      InvStep(s, run[0]);
      LostStayUnservedStep(s, run[0]);
      hide Inv, Next, Enabled, LostStayUnserved, LostNotFinal;
      LostForever(Next(s, run[0]), run[1..], id, f);
    }
  }

  /** With a lost upload only a cancel takes the session out of the slot. */
  lemma {:induction false} LostSessionStays(s: State, run: seq<Action>, id: SessionId, f: FileId)
    requires Inv(s) && LostStayUnserved(s) && Possible(s, run) && s.slot.Holds(id) && (id, f) in s.lostUploads
    requires forall a <- run :: !(a.Cancel? && a.id == id) && !(a.CancelByApp? && a.id == id)
    ensures After(s, run).slot.Holds(id)
    decreases |run|
  {
    if run != [] {
      assert run[0] in run && forall a <- run[1..] :: a in run;
      LostSessionStep(s, run[0], id, f);
      InvStep(s, run[0]);
      LostStayUnservedStep(s, run[0]);
      LostGrows(s, run[0]);
      hide Inv, Next, Enabled, LostStayUnserved;
      LostSessionStays(Next(s, run[0]), run[1..], id, f);
    }
  }

  lemma LostSessionStep(s: State, a: Action, id: SessionId, f: FileId)
    requires Inv(s) && LostStayUnserved(s) && Enabled(s, a) && s.slot.Holds(id) && (id, f) in s.lostUploads
    requires !(a.Cancel? && a.id == id) && !(a.CancelByApp? && a.id == id)
    ensures Next(s, a).slot.Holds(id)
  {
    if Ending(s, a).Some? {
      EndsOnlyByCancel(s, a, id, f);
    } else {
      HeldUnlessEnding(s, a, id);
    }
    hide *;
  }

  // ---- What a dropped upload leaves behind ----

  predicate Finalizes(a: Action, u: UploadId)
  {
    a.Finalize? && a.upload == u
  }

  lemma FinalizeRemoves(s: State, u: UploadId, now: nat)
    requires Enabled(s, Finalize(u, now))
    ensures Effect(s, Finalize(u, now)).uploads == s.uploads - {u}
  {
    hide Finalized, Settled;
  }

  lemma OthersKeepAborting(s: State, a: Action, u: UploadId)
    requires Enabled(s, a) && u in s.uploads && s.uploads[u].Aborting? && !a.Finalize?
    ensures u in Effect(s, a).uploads && Effect(s, a).uploads[u] == s.uploads[u]
  {
    hide Claimable, Begun, Cleared, MayCancel;
  }

  lemma AbortingStays(s: State, a: Action, u: UploadId)
    requires Enabled(s, a) && u in s.uploads && s.uploads[u].Aborting? && !Finalizes(a, u)
    ensures u in Next(s, a).uploads && Next(s, a).uploads[u] == s.uploads[u]
  {
    EmitKeeps(Effect(s, a), Emitted(s, a));
    if a.Finalize? {
      FinalizeRemoves(s, a.upload, a.now);
    } else {
      OthersKeepAborting(s, a, u);
    }
    hide Emit, Emitted, Effect, Enabled;
  }

  /** Nothing takes the cleanup of an armed upload guard away. */
  lemma {:induction false} CleanupStays(s: State, run: seq<Action>, u: UploadId)
    requires Possible(s, run) && u in s.uploads && s.uploads[u].Aborting? && forall a <- run :: !Finalizes(a, u)
    ensures u in After(s, run).uploads && After(s, run).uploads[u] == s.uploads[u]
    decreases |run|
  {
    hide Next, Enabled;
    if run != [] {
      assert run[0] in run && forall a <- run[1..] :: a in run;
      AbortingStays(s, run[0], u);
      CleanupStays(Next(s, run[0]), run[1..], u);
    }
  }

  lemma DroppedUpload(s: State, u: UploadId)
    requires Enabled(s, DropUpload(u))
    ensures var t := Next(s, DropUpload(u));
            var id, f := s.uploads[u].id, s.uploads[u].file;
            && t.slot == s.slot && t.closed == s.closed
            && if s.uploads[u].Transferring? then u in t.uploads && t.uploads[u] == Aborting(id, f)
               else (id, f) in t.lostUploads
  {
  }

  /**
   * An upload that is dropped with its guard armed leaves a cleanup that nothing can prevent and that gives
   * the file its final status while its session is active; dropped otherwise, its file never gets one.
   */
  lemma DroppedUploadIsSettledIfArmed(run: seq<Action>, u: UploadId, later: seq<Action>, now: nat)
    requires Possible(START, run) && Enabled(After(START, run), DropUpload(u))
    requires Possible(Next(After(START, run), DropUpload(u)), later)
    requires After(START, run).uploads[u].Transferring? ==> forall a <- later :: !Finalizes(a, u)
    ensures var s := After(START, run);
            var t := After(Next(s, DropUpload(u)), later);
            var id, f := s.uploads[u].id, s.uploads[u].file;
            if s.uploads[u].Transferring? then
              && Enabled(t, Finalize(u, now))
              && (t.slot.Holds(id) ==> IsFinal(Next(t, Finalize(u, now)), id, f))
            else s.slot.Holds(id) ==> !IsFinal(t, id, f)
  {
    ReachableInv(run);
    InvStart();
    RunKeepsLost(START, run);
    var s := After(START, run);
    var dropped := Next(s, DropUpload(u));
    var id, f := s.uploads[u].id, s.uploads[u].file;
    InvStep(s, DropUpload(u));
    LostStayUnservedStep(s, DropUpload(u));
    RunKeepsInv(dropped, later);
    DroppedUpload(s, u);
    if s.uploads[u].Transferring? {
      CleanupStays(dropped, later, u);
      AbortedIsSettled(After(dropped, later), u, now);
      hide *;
    } else if s.slot.Holds(id) {
      LostIsNotFinal(dropped, id, f);
      hide *;
      LostForever(dropped, later, id, f);
      LostMeansNotFinal(After(dropped, later), id, f);
    }
  }

  lemma AbortedIsSettled(s: State, u: UploadId, now: nat)
    requires Inv(s) && u in s.uploads && s.uploads[u].Aborting?
    ensures Enabled(s, Finalize(u, now))
    ensures s.slot.Holds(s.uploads[u].id) ==>
              IsFinal(Next(s, Finalize(u, now)), s.uploads[u].id, s.uploads[u].file)
  {
    assert Enabled(s, Finalize(u, now));
    hide Inv, Next, IsFinal, Enabled;
    if s.slot.Holds(s.uploads[u].id) {
      SettledByFinalize(s, u, now);
    }
  }

  lemma LostIsNotFinal(s: State, id: SessionId, f: FileId)
    requires LostStayUnserved(s) && (id, f) in s.lostUploads && s.slot.Holds(id)
    ensures LostNotFinal(s, id, f)
  {
    assert Started(s, id, f) && s.slot.session.files[f].status.InProgress?;
  }

  lemma LostMeansNotFinal(s: State, id: SessionId, f: FileId)
    requires LostNotFinal(s, id, f)
    ensures !IsFinal(s, id, f)
  {
  }

  /** With a lost upload a session never finishes and is never replaced as abandoned: only a cancel ends it. */
  lemma LostSessionEndsOnlyByCancel(run: seq<Action>, later: seq<Action>, id: SessionId, f: FileId)
    requires Possible(START, run) && Possible(After(START, run), later)
    requires After(START, run).slot.Holds(id) && (id, f) in After(START, run).lostUploads
    requires forall a <- later :: !(a.Cancel? && a.id == id) && !(a.CancelByApp? && a.id == id)
    ensures After(After(START, run), later).slot.Holds(id)
  {
    ReachableInv(run);
    InvStart();
    RunKeepsLost(START, run);
    hide Inv, LostStayUnserved;
    LostSessionStays(After(START, run), later, id, f);
  }

  /** The upload is dropped between disarming its guard and getting the lock. */
  const UPLOAD_LOST: seq<Action> :=
    [ Claim(0, 0, 1), Activate(0, 0, map[5 := 7], 0), BeginUpload(0, 1, 5, 7, 0, 0), EndTransfer(0, true),
      DropUpload(0) ]

  lemma UploadBegins(s: State)
    requires s.uploads == map[] && s.slot == ActiveSession(Session(1, 0, NewFiles(map[5 := 7]), 0))
    ensures Enabled(s, UPLOAD_LOST[2])
    ensures var t := Next(s, UPLOAD_LOST[2]); t.uploads == map[0 := Transferring(1, 5)] && t.slot.Holds(1)
  {
    assert NewFiles(map[5 := 7])[5] == SessionFile(7, Pending);
  }

  lemma FinishIsDropped(s: State)
    requires s.uploads == map[0 := Transferring(1, 5)]
    ensures Enabled(s, UPLOAD_LOST[3])
    ensures var t := Next(s, UPLOAD_LOST[3]);
            && Enabled(t, UPLOAD_LOST[4])
            && (1, 5) in Next(t, UPLOAD_LOST[4]).lostUploads && Next(t, UPLOAD_LOST[4]).slot == s.slot
  {
    var t := Next(s, UPLOAD_LOST[3]);
    assert t.uploads == map[0 := Finishing(1, 5, true)] && t.slot == s.slot;
  }

  lemma UploadIsLost(s: State)
    requires s.uploads == map[] && s.slot == ActiveSession(Session(1, 0, NewFiles(map[5 := 7]), 0))
    ensures Possible(s, UPLOAD_LOST[2..])
    ensures var t := After(s, UPLOAD_LOST[2..]); t.slot.Holds(1) && (1, 5) in t.lostUploads
  {
    hide Next, Enabled;
    var run := UPLOAD_LOST;
    UploadBegins(s);
    var s1 := Next(s, run[2]);
    FinishIsDropped(s1);
    var s2 := Next(s1, run[3]);
    RunOfOne(s2, run[4]);
    Prepend(s1, run[3], [run[4]]);
    Prepend(s, run[2], [run[3]] + [run[4]]);
    assert run[2..] == [run[2]] + ([run[3]] + [run[4]]);
  }

  lemma UploadsCanBeLost()
    ensures Possible(START, UPLOAD_LOST)
    ensures var s := After(START, UPLOAD_LOST); s.slot.Holds(1) && (1, 5) in s.lostUploads
  {
    hide Next, Enabled;
    var run := UPLOAD_LOST;
    OneSessionOpens();
    var s1 := Next(START, run[0]);
    var s2 := Next(s1, run[1]);
    UploadIsLost(s2);
    Prepend(s1, run[1], run[2..]);
    Prepend(START, run[0], [run[1]] + run[2..]);
    assert run == [run[0]] + ([run[1]] + run[2..]);
  }
}
