/** What holds over every run of the host's upload protocol. */
module UploadHostRuns {
  import opened UploadSlot
  import opened UploadHost

  // ---- Runs ----

  predicate Possible(s: State, run: seq<Action>)
    decreases |run|
  {
    run == [] || (Enabled(s, run[0]) && Possible(Next(s, run[0]), run[1..]))
  }

  function After(s: State, run: seq<Action>): State
    requires Possible(s, run)
    decreases |run|
  {
    if run == [] then s else After(Next(s, run[0]), run[1..])
  }

  lemma {:induction false} RunKeepsInv(s: State, run: seq<Action>)
    requires Inv(s) && Possible(s, run)
    ensures Inv(After(s, run))
    decreases |run|
  {
    hide Inv, Next, Enabled;
    if run != [] {
      InvStep(s, run[0]);
      RunKeepsInv(Next(s, run[0]), run[1..]);
    }
  }

  lemma ReachableInv(run: seq<Action>)
    requires Possible(START, run)
    ensures Inv(After(START, run))
  {
    InvStart();
    RunKeepsInv(START, run);
  }

  // ---- Mutual exclusion on the slot ----

  /**
   * Whatever interleaving led here: a request between claim and release is alone, and the slot is its own
   * pending session. So activating overwrites no session, and clearing frees no other request's claim.
   */
  lemma SlotBelongsToItsRequest(run: seq<Action>, r: RequestId)
    requires Possible(START, run) && r in After(START, run).requests
    ensures var s := After(START, run);
            && s.slot == PendingSession && s.requests.Keys == {r}
            && (forall now :: Claimable(s.slot, now).None?)
            && (Enabled(s, Clear(r)) ==> Next(s, Clear(r)).slot == NoSession && Next(s, Clear(r)).requests == map[])
  {
    ReachableInv(run);
    Alone(After(START, run), r);
  }

  lemma Alone(s: State, r: RequestId)
    requires OneHolder(s) && r in s.requests
    ensures s.slot == PendingSession && s.requests.Keys == {r} && s.requests - {r} == map[]
  {
  }

  /**
   * The write of the active session, which looks at nothing, always replaces the request's own pending slot:
   * the session is new, all its files wait with the tokens handed out, and no request is left.
   */
  lemma ActivationOpensNewSession(run: seq<Action>, r: RequestId, ip: Ip, tokens: map<FileId, Token>, now: nat)
    requires Possible(START, run) && Enabled(After(START, run), Activate(r, ip, tokens, now))
    ensures var s := After(START, run);
            var t := Next(s, Activate(r, ip, tokens, now));
            var id := s.requests[r].id;
            && s.slot == PendingSession && s.requests.Keys == {r} && t.requests == map[]
            && Known(s, id).None? && t.slot.Holds(id) && t.slot.session.senderIp == ip
            && t.slot.session.files.Keys == tokens.Keys
            && (forall f <- tokens :: t.slot.session.files[f] == SessionFile(tokens[f], Pending))
            && !t.slot.session.IsComplete()
  {
    ReachableInv(run);
    var s := After(START, run);
    InvStep(s, Activate(r, ip, tokens, now));
    ActivatesNew(s, r, ip, tokens, now);
  }

  lemma ActivatesNew(s: State, r: RequestId, ip: Ip, tokens: map<FileId, Token>, now: nat)
    requires OneHolder(s) && IdsFresh(s) && Enabled(s, Activate(r, ip, tokens, now))
    ensures s.slot == PendingSession && s.requests.Keys == {r} && s.requests - {r} == map[]
    ensures Known(s, s.requests[r].id).None?
    ensures Next(s, Activate(r, ip, tokens, now)).slot
         == ActiveSession(Session(s.requests[r].id, ip, NewFiles(tokens), now))
    ensures Next(s, Activate(r, ip, tokens, now)).requests == map[]
  {
    Alone(s, r);
    assert s.requests[r].HasId();
  }

  /** A session is only ever written over a pending slot, or removed by a step that closes it. */
  lemma ActiveSessionIsNotOverwritten(run: seq<Action>, a: Action)
    requires Possible(START, run) && Enabled(After(START, run), a)
    ensures var s := After(START, run);
            s.slot.ActiveSession? ==>
              Next(s, a).slot.Holds(s.slot.session.id) || s.slot.session.id in Next(s, a).closed
  {
    ReachableInv(run);
    hide *;
    if After(START, run).slot.ActiveSession? {
      NotOverwritten(After(START, run), a);
    }
  }

  lemma NotOverwritten(s: State, a: Action)
    requires Inv(s) && Enabled(s, a) && s.slot.ActiveSession?
    ensures Next(s, a).slot.Holds(s.slot.session.id) || s.slot.session.id in Next(s, a).closed
  {
    EffectNotOverwriting(s, a);
    EmitKeeps(Effect(s, a), Emitted(s, a));
    hide Inv, Emit, Emitted, Effect;
  }

  lemma EffectNotOverwriting(s: State, a: Action)
    requires OneHolder(s) && Enabled(s, a) && s.slot.ActiveSession?
    ensures Effect(s, a).slot.Holds(s.slot.session.id) || s.slot.session.id in Effect(s, a).closed
  {
  }

  // ---- Late completions ----

  lemma ClosedStays(s: State, a: Action, id: SessionId)
    requires Inv(s) && Enabled(s, a) && id in s.closed
    ensures id in Next(s, a).closed && Next(s, a).closed[id] == s.closed[id]
  {
    ClosedStep(s, a);
    EmitKeeps(Effect(s, a), Emitted(s, a));
  }

  lemma {:induction false} ClosedForever(s: State, run: seq<Action>, id: SessionId)
    requires Inv(s) && Possible(s, run) && id in s.closed
    ensures id in After(s, run).closed && After(s, run).closed[id] == s.closed[id]
    ensures !After(s, run).slot.Holds(id)
    decreases |run|
  {
    if run != [] {
      ClosedStays(s, run[0], id);
      InvStep(s, run[0]);
      hide Inv, Next, Enabled;
      ClosedForever(Next(s, run[0]), run[1..], id);
    }
  }

  /**
   * Once a session was cancelled, replaced or finished, finalizing any of its files at any later time,
   * with any outcome, leaves the slot as it is and ends nothing.
   */
  lemma LateFinalizeIsHarmless(
    run: seq<Action>, later: seq<Action>, id: SessionId, file: FileId, success: bool, now: nat)
    requires Possible(START, run) && Possible(After(START, run), later) && id in After(START, run).closed
    ensures var s := After(After(START, run), later);
            Finalized(s.slot, id, file, success, now) == (s.slot, false)
  {
    ReachableInv(run);
    ClosedForever(After(START, run), later, id);
  }

  /** The step of such an upload changes nothing but the list of uploads. */
  lemma LateFinalizeStep(run: seq<Action>, u: UploadId, now: nat)
    requires Possible(START, run) && Enabled(After(START, run), Finalize(u, now))
    requires After(START, run).uploads[u].id in After(START, run).closed
    ensures var s := After(START, run);
            Next(s, Finalize(u, now)) == s.(uploads := s.uploads - {u})
  {
    ReachableInv(run);
  }

  // ---- Life of a file ----

  predicate Moves(before: FileStatus, after: FileStatus)
  {
    before == after || (before.Pending? && after.InProgress?) || (before.InProgress? && after.Final())
  }

  /** The files of `t` are those of `s`, each moved by one allowed move at most. */
  predicate FilesMove(s: Session, t: Session)
  {
    && s.id == t.id && s.senderIp == t.senderIp && s.files.Keys == t.files.Keys
    && forall f <- s.files :: s.files[f].token == t.files[f].token && Moves(s.files[f].status, t.files[f].status)
  }

  /** A session, once active, is known for ever, and each step moves its files as allowed. */
  lemma FilesMoveStep(s: State, a: Action, id: SessionId)
    requires Inv(s) && Enabled(s, a) && Known(s, id).Some?
    ensures Known(Next(s, a), id).Some? && FilesMove(Known(s, id).value, Known(Next(s, a), id).value)
  {
    EmitKeeps(Effect(s, a), Emitted(s, a));
    KnownStep(s, a, id);
    hide Effect, Emitted, Emit;
    assert Known(Next(s, a), id) == Known(Effect(s, a), id);
  }

  lemma KnownAfterClose(s: State, last: Session, why: Why, slot: Slot, id: SessionId)
    requires IdsFresh(s) && s.slot == ActiveSession(last) && !slot.ActiveSession?
    ensures Known(Close(s, last, why, slot), id) == Known(s, id)
  {
  }

  lemma KnownAfterFinalize(s: State, u: UploadId, now: nat, id: SessionId)
    requires IdsFresh(s) && Enabled(s, Finalize(u, now)) && Known(s, id).Some?
    ensures var t := Effect(s, Finalize(u, now));
            Known(t, id).Some? && FilesMove(Known(s, id).value, Known(t, id).value)
  {
    var upload := s.uploads[u];
    var success := upload.Finishing? && upload.success;
    if s.slot.Holds(upload.id) {
      var session := Settled(s.slot.session, upload.file, success, now);
      assert FilesMove(s.slot.session, session);
    }
  }

  lemma KnownStep(s: State, a: Action, id: SessionId)
    requires OneHolder(s) && IdsFresh(s) && Enabled(s, a) && Known(s, id).Some?
    ensures Known(Effect(s, a), id).Some? && FilesMove(Known(s, id).value, Known(Effect(s, a), id).value)
  {
    match a
    case Finalize(u, now) => KnownAfterFinalize(s, u, now, id);
    case Claim(_, now, _) =>
      if s.slot.ActiveSession? {
        KnownAfterClose(s, s.slot.session, Abandoned, PendingSession, id);
      }
    case Cancel(i, ip) =>
      if MayCancel(s.slot, i, ip) {
        KnownAfterClose(s, s.slot.session, BySender, NoSession, id);
      }
    case CancelByApp(i) =>
      if s.slot.Holds(i) {
        KnownAfterClose(s, s.slot.session, ByApplication, NoSession, id);
      }
    case BeginUpload(_, _, _, _, _, _) =>
    case _ =>
  }

  /** The order the moves generate: a final status is never left. */
  predicate Reaches(before: FileStatus, after: FileStatus)
  {
    before == after || before.Pending? || (before.InProgress? && after.Final())
  }

  predicate FilesReach(s: Session, t: Session)
  {
    && s.id == t.id && s.senderIp == t.senderIp && s.files.Keys == t.files.Keys
    && forall f <- s.files :: s.files[f].token == t.files[f].token && Reaches(s.files[f].status, t.files[f].status)
  }

  lemma {:induction false} FilesMoveForward(s: State, run: seq<Action>, id: SessionId)
    requires Inv(s) && Possible(s, run) && Known(s, id).Some?
    ensures Known(After(s, run), id).Some? && FilesReach(Known(s, id).value, Known(After(s, run), id).value)
    decreases |run|
  {
    if run != [] {
      FilesMoveStep(s, run[0], id);
      InvStep(s, run[0]);
      hide Inv, Next, Enabled, Known;
      FilesMoveForward(Next(s, run[0]), run[1..], id);
      FilesReachTrans(
        Known(s, id).value, Known(Next(s, run[0]), id).value, Known(After(s, run), id).value);
    }
  }

  lemma FilesReachTrans(a: Session, b: Session, c: Session)
    requires FilesMove(a, b) && FilesReach(b, c)
    ensures FilesReach(a, c)
  {
    forall f <- a.files
      ensures a.files[f].token == c.files[f].token && Reaches(a.files[f].status, c.files[f].status)
    {
      assert f in b.files;
    }
  }

  // ---- Events ----

  /** Sent or about to be sent. */
  function Announced(s: State, e: Event): nat
  {
    s.outbox[e] + s.sent[e]
  }

  lemma AnnouncedWasIssued(s: State, e: Event)
    requires SentWasIssued(s)
    ensures Announced(s, e) <= s.issued[e]
  {
    assert (s.outbox + s.sent)[e] == s.outbox[e] + s.sent[e];
  }

  /**
   * Each file of a session is announced for upload at most once, each session ends at most once,
   * and it ends as finished only when all its accepted files are final.
   */
  lemma EventsAreUnique(run: seq<Action>, id: SessionId, file: FileId)
    requires Possible(START, run)
    ensures var s := After(START, run);
            && Announced(s, FileUpload(id, file)) <= 1
            && Announced(s, SessionEnd(id, ReasonFinished)) + Announced(s, SessionEnd(id, ReasonCancelled)) <= 1
            && (Announced(s, SessionEnd(id, ReasonFinished)) > 0 ==>
                  !s.slot.Holds(id) && Known(s, id).Some? && Known(s, id).value.IsComplete())
            && (Announced(s, SessionEnd(id, ReasonCancelled)) > 0 ==> id in s.closed && !s.slot.Holds(id))
  {
    ReachableInv(run);
    var s := After(START, run);
    AnnouncedWasIssued(s, FileUpload(id, file));
    AnnouncedWasIssued(s, SessionEnd(id, ReasonFinished));
    AnnouncedWasIssued(s, SessionEnd(id, ReasonCancelled));
  }

  /** After `cancel_v2_session` returned true no end of that session is ever announced. */
  lemma NoEndAfterAppCancel(run: seq<Action>, later: seq<Action>, id: SessionId, reason: Reason)
    requires Possible(START, run) && After(START, run).slot.Holds(id)
    requires Possible(After(START, run), [CancelByApp(id)] + later)
    ensures Announced(After(After(START, run), [CancelByApp(id)] + later), SessionEnd(id, reason)) == 0
  {
    var s := After(START, run);
    var all := [CancelByApp(id)] + later;
    ReachableInv(run);
    assert all[0] == CancelByApp(id) && all[1..] == later;
    var t := Next(s, CancelByApp(id));
    assert t.closed[id].why == ByApplication;
    InvStep(s, CancelByApp(id));
    ClosedForever(t, later, id);
    RunKeepsInv(t, later);
    AnnouncedWasIssued(After(t, later), SessionEnd(id, reason));
  }

  // ---- When a claimed slot can become free again ----

  lemma FreshId(used: set<SessionId>) returns (id: SessionId)
    ensures id !in used
  {
    id := 0;
    var rest := used;
    while rest != {}
      invariant rest <= used && forall i <- used :: i in rest || i < id
      decreases |rest|
    {
      var i :| i in rest;
      rest := rest - {i};
      id := if i >= id then i + 1 else id;
    }
  }

  /** A request that was dropped while no guard was armed blocks the slot in every continuation. */
  lemma {:induction false} StuckBlocksForever(s: State, run: seq<Action>, r: RequestId)
    requires Inv(s) && Possible(s, run) && r in s.requests && s.requests[r].Stuck?
    ensures After(s, run).slot == PendingSession
    decreases |run|
  {
    if run != [] {
      InvStep(s, run[0]);
      assert r in Next(s, run[0]).requests && Next(s, run[0]).requests[r].Stuck? by { StuckStays(s, run[0], r); }
      StuckBlocksForever(Next(s, run[0]), run[1..], r);
    }
  }

  lemma StuckStays(s: State, a: Action, r: RequestId)
    requires OneHolder(s) && Enabled(s, a) && r in s.requests && s.requests[r].Stuck?
    ensures r in Next(s, a).requests && Next(s, a).requests[r].Stuck?
  {
    EmitKeeps(Effect(s, a), Emitted(s, a));
    hide Emit;
  }

  lemma RunOfOne(s: State, a: Action)
    requires Enabled(s, a)
    ensures Possible(s, [a]) && After(s, [a]) == Next(s, a)
  {
    assert [a][1..] == [];
  }

  lemma Prepend(s: State, a: Action, run: seq<Action>)
    requires Enabled(s, a) && Possible(Next(s, a), run)
    ensures Possible(s, [a] + run) && After(s, [a] + run) == After(Next(s, a), run)
  {
    assert ([a] + run)[1..] == run;
  }

  /** Dropped while the end of the session it replaces is being announced: no guard exists yet. */
  const DROPPED_BEFORE_GUARD: seq<Action> :=
    [ Claim(0, 0, 1), Activate(0, 0, map[5 := 7], 0), Claim(1, ABANDONED_SESSION_AFTER, 2), DropRequest(1) ]

  /** Dropped while the refused request waits for the lock: the guard is disarmed already. */
  const DROPPED_WHILE_CLEARING: seq<Action> := [ Claim(0, 0, 1), Refuse(0), DropRequest(0) ]

  lemma DropWhileClearingSticks()
    ensures Possible(START, DROPPED_WHILE_CLEARING)
    ensures var s := After(START, DROPPED_WHILE_CLEARING); 0 in s.requests && s.requests[0].Stuck?
  {
    hide Finalized, Begun, Settled;
    var run := DROPPED_WHILE_CLEARING;
    var s1 := Next(START, run[0]);
    assert s1.requests == map[0 := Deciding(1)];
    var s2 := Next(s1, run[1]);
    assert s2.requests == map[0 := Clearing(1)];
    var s3 := Next(s2, run[2]);
    assert s3.requests == map[0 := Stuck];
    hide Next, Enabled;
    RunOfOne(s2, run[2]);
    Prepend(s1, run[1], [run[2]]);
    Prepend(START, run[0], [run[1]] + [run[2]]);
    assert run == [run[0]] + ([run[1]] + [run[2]]);
  }

  /** The state once a first session waits for its one file. */
  lemma OneSessionOpens()
    ensures Enabled(START, Claim(0, 0, 1))
    ensures var s := Next(START, Claim(0, 0, 1));
            Enabled(s, Activate(0, 0, map[5 := 7], 0))
            && var t := Next(s, Activate(0, 0, map[5 := 7], 0));
               && t.requests == map[] && t.usedIds == {1} && t.uploads == map[]
               && t.slot == ActiveSession(Session(1, 0, NewFiles(map[5 := 7]), 0))
  {
    var s := Next(START, Claim(0, 0, 1));
    assert s.requests == map[0 := Deciding(1)] && s.usedIds == {1};
    assert 5 in map[5 := 7];
    assert s.requests - {0} == map[];
  }

  lemma AbandonedIsReplaced(s: State)
    requires s.requests == map[] && s.usedIds == {1}
    requires s.slot == ActiveSession(Session(1, 0, NewFiles(map[5 := 7]), 0))
    ensures Enabled(s, Claim(1, ABANDONED_SESSION_AFTER, 2))
    ensures Next(s, Claim(1, ABANDONED_SESSION_AFTER, 2)).requests == map[1 := Announcing]
  {
    assert s.slot.session.IsAbandoned(ABANDONED_SESSION_AFTER);
  }

  lemma AnnouncingSticks(s: State, r: RequestId)
    requires s.requests == map[r := Announcing]
    ensures Enabled(s, DropRequest(r)) && Next(s, DropRequest(r)).requests == map[r := Stuck]
  {
  }

  lemma DropBeforeGuardSticks()
    ensures Possible(START, DROPPED_BEFORE_GUARD)
    ensures var s := After(START, DROPPED_BEFORE_GUARD); 1 in s.requests && s.requests[1].Stuck?
  {
    hide Next, Enabled;
    var run := DROPPED_BEFORE_GUARD;
    OneSessionOpens();
    var s1 := Next(START, run[0]);
    var s2 := Next(s1, run[1]);
    AbandonedIsReplaced(s2);
    var s3 := Next(s2, run[2]);
    AnnouncingSticks(s3, 1);
    var s4 := Next(s3, run[3]);
    RunOfOne(s3, run[3]);
    Prepend(s2, run[2], [run[3]]);
    Prepend(s1, run[1], [run[2]] + [run[3]]);
    Prepend(START, run[0], [run[1]] + ([run[2]] + [run[3]]));
    assert run == [run[0]] + ([run[1]] + ([run[2]] + [run[3]]));
  }

  lemma CleaningStays(s: State, a: Action, r: RequestId)
    requires OneHolder(s) && Enabled(s, a) && r in s.requests && s.requests[r].Cleaning? && a != Clear(r)
    ensures r in Next(s, a).requests && Next(s, a).requests[r].Cleaning?
  {
    EmitKeeps(Effect(s, a), Emitted(s, a));
    hide Emit;
  }

  /** Nothing takes the cleanup of an armed guard away: until it runs it can run, and then the slot is free. */
  lemma {:induction false} CleanupStaysPossible(s: State, run: seq<Action>, r: RequestId)
    requires Inv(s) && Possible(s, run) && r in s.requests && s.requests[r].Cleaning? && Clear(r) !in run
    ensures Enabled(After(s, run), Clear(r)) && Next(After(s, run), Clear(r)).slot == NoSession
    decreases |run|
  {
    if run != [] {
      assert run[0] in run && forall a <- run[1..] :: a in run;
      CleaningStays(s, run[0], r);
      InvStep(s, run[0]);
      hide Inv, Next, Enabled;
      CleanupStaysPossible(Next(s, run[0]), run[1..], r);
    }
  }

  /**
   * A request that claimed the slot and is dropped leaves it to a cleanup that nothing can prevent if its
   * guard is armed; otherwise the slot stays pending whatever follows.
   */
  lemma DroppedSlotIsCleanedUpIfArmed(run: seq<Action>, r: RequestId, later: seq<Action>)
    requires Possible(START, run) && Enabled(After(START, run), DropRequest(r))
    requires Possible(Next(After(START, run), DropRequest(r)), later)
    ensures var t := After(Next(After(START, run), DropRequest(r)), later);
            if After(START, run).requests[r].Deciding? then
              Clear(r) in later || (Enabled(t, Clear(r)) && Next(t, Clear(r)).slot == NoSession)
            else t.slot == PendingSession
  {
    ReachableInv(run);
    var s := After(START, run);
    var t := Next(s, DropRequest(r));
    InvStep(s, DropRequest(r));
    assert t.requests[r] == if s.requests[r].Deciding? then Cleaning(s.requests[r].id) else Stuck;
    hide Inv, Next, Enabled;
    if s.requests[r].Deciding? {
      if Clear(r) !in later {
        CleanupStaysPossible(t, later, r);
      }
    } else {
      StuckBlocksForever(t, later, r);
    }
  }

  lemma FreeByClear(s: State, r: RequestId)
    requires Inv(s) && r in s.requests && (s.requests[r].Clearing? || s.requests[r].Cleaning?)
    ensures Possible(s, [Clear(r)]) && After(s, [Clear(r)]).slot == NoSession
  {
    assert [Clear(r)][1..] == [];
  }

  /** A claimed slot can become free again exactly when its request was not dropped without an armed guard. */
  lemma FreedUnlessStuck(run: seq<Action>, r: RequestId)
    requires Possible(START, run) && r in After(START, run).requests
    ensures var s := After(START, run);
            (exists later :: Possible(s, later) && After(s, later).slot == NoSession) <==> !s.requests[r].Stuck?
  {
    ReachableInv(run);
    var s := After(START, run);
    if s.requests[r].Stuck? {
      forall later | Possible(s, later)
        ensures After(s, later).slot != NoSession
      {
        StuckBlocksForever(s, later, r);
      }
    } else {
      var later := WayToFree(s, r);
    }
  }

  lemma WayToFree(s: State, r: RequestId) returns (later: seq<Action>)
    requires Inv(s) && r in s.requests && !s.requests[r].Stuck?
    ensures Possible(s, later) && After(s, later).slot == NoSession
    decreases if s.requests[r].Announcing? then 1 else 0
  {
    match s.requests[r] {
      case Announcing =>
        var id := FreshId(s.usedIds);
        InvStep(s, Arm(r, id));
        var rest := WayToFree(Next(s, Arm(r, id)), r);
        Prepend(s, Arm(r, id), rest);
        later := [Arm(r, id)] + rest;
      case Deciding(_) =>
        InvStep(s, Refuse(r));
        FreeByClear(Next(s, Refuse(r)), r);
        Prepend(s, Refuse(r), [Clear(r)]);
        later := [Refuse(r)] + [Clear(r)];
      case _ =>
        FreeByClear(s, r);
        later := [Clear(r)];
    }
  }
}
