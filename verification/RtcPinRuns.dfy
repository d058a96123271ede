/** Both peers of a PIN challenge over a reliable channel: every interleaving of their steps. */
module RtcPinRuns {
  import opened RtcPin

  datatype Verifier =
    | Checking(pin: string)                       // at the head of the loop
    | Waiting                                     // for a PIN
    | Accepted
    | Rejected
    | HungUp                                      // the channel was closed while waiting

  datatype Handler =
    | AwaitingNotice                              // reads the initial notice first
    | Asking                                      // the user for a PIN
    | Expecting                                   // the result for the PIN just sent
    | Ended(reply: Reply)

  /** `pins` is what the user would enter, one after the other. */
  datatype Setup = Setup(config: PinConfig, notice: bool, pins: seq<string>)
  {
    /** The verdict depends on the PINs: the configured one is not empty and there are tries. */
    predicate Valid()
    {
      config.pin != "" && config.maxTries > 0
    }
  }

  datatype State = State(
    verifier: Verifier,
    handler: Handler,
    toVerifier: seq<string>,
    toHandler: seq<Result>,
    asked: nat,                                   // PINs taken from the user
    read: nat,                                    // the verifier's `pin_try`
    answered: seq<Result>)                        // history: all results sent

  function Start(p: Setup): State
  {
    State(Checking(""), if p.notice then AwaitingNotice else Asking, [], [], 0, 0, [])
  }

  datatype Step = Check | Receive | VerifierHangsUp | Ask | RunOut | Get | HandlerHangsUp

  predicate VerifierEnded(s: State)
  {
    s.verifier.Accepted? || s.verifier.Rejected? || s.verifier.HungUp?
  }

  predicate HandlerEnded(s: State)
  {
    s.handler.Ended?
  }

  predicate Listening(s: State)
  {
    s.handler.AwaitingNotice? || s.handler.Expecting?
  }

  predicate Enabled(p: Setup, s: State, step: Step)
  {
    match step
    case Check => s.verifier.Checking?
    case Receive => s.verifier.Waiting? && s.toVerifier != []
    case VerifierHangsUp => s.verifier.Waiting? && s.toVerifier == [] && HandlerEnded(s)
    case Ask => s.handler.Asking? && s.asked < |p.pins|
    case RunOut => s.handler.Asking? && s.asked == |p.pins|
    case Get => Listening(s) && s.toHandler != []
    case HandlerHangsUp => Listening(s) && s.toHandler == [] && VerifierEnded(s)
  }

  function Send(s: State, r: Result): State
  {
    s.(toHandler := s.toHandler + [r], answered := s.answered + [r])
  }

  /** One round of the verifier's loop up to waiting for a PIN. */
  function Checked(p: Setup, s: State): State
    requires s.verifier.Checking?
  {
    if s.verifier.pin == p.config.pin then Send(s, PinOk).(verifier := Accepted)
    else if s.read >= p.config.maxTries then Send(s, TooManyAttempts).(verifier := Rejected)
    else if s.read > 0 || p.notice then Send(s, PinRequired).(verifier := Waiting)
    else s.(verifier := Waiting)
  }

  function Next(p: Setup, s: State, step: Step): State
    requires Enabled(p, s, step)
  {
    match step
    case Check => Checked(p, s)
    case Receive => s.(verifier := Checking(s.toVerifier[0]), toVerifier := s.toVerifier[1..], read := s.read + 1)
    case VerifierHangsUp => s.(verifier := HungUp)
    case Ask => s.(handler := Expecting, toVerifier := s.toVerifier + [p.pins[s.asked]], asked := s.asked + 1)
    case RunOut => s.(handler := Ended(NoPin))
    case Get =>
      s.(toHandler := s.toHandler[1..],
         handler := match s.toHandler[0]
                    case PinOk => Ended(Succeeded)
                    case PinRequired => Asking
                    case TooManyAttempts => Ended(GaveUp))
    case HandlerHangsUp => s.(handler := Ended(Lost))
  }

  // ---- Invariant ----

  /** The first `n` PINs are wrong. */
  predicate Wrong(p: Setup, n: int)
  {
    forall i :: 0 <= i < n && i < |p.pins| ==> p.pins[i] != p.config.pin
  }

  /** Where the handler stands while the last result, if any, is on its way or read. */
  predicate InStep(p: Setup, s: State, last: Result, after: Handler)
  {
    && s.toVerifier == [] && s.asked == s.read
    && ((Listening(s) && s.toHandler == [last] && (s.handler.AwaitingNotice? <==> s.read == 0))
        || (s.handler == after && s.toHandler == []))
  }

  /** The handler moved on to the next PIN, or found none. */
  predicate AheadOfVerifier(p: Setup, s: State)
  {
    && s.toHandler == []
    && ((s.handler.Expecting? && s.asked == s.read + 1 && s.read < |p.pins| && s.toVerifier == [p.pins[s.read]])
        || (s.handler == Ended(NoPin) && s.asked == s.read == |p.pins| && s.toVerifier == []))
  }

  /** The verdict came before any PIN was read; a PIN may be on its way all the same. */
  predicate OverAtOnce(p: Setup, s: State, last: Result, after: Reply)
  {
    && s.read == 0
    && if p.notice then
         && s.asked == 0 && s.toVerifier == []
         && ((s.handler.AwaitingNotice? && s.toHandler == [last]) || (s.handler == Ended(after) && s.toHandler == []))
       else if s.asked == 0 then
         && s.toVerifier == [] && s.toHandler == [last]
         && (s.handler.Asking? || (s.handler == Ended(NoPin) && p.pins == []))
       else
         && s.asked == 1 && p.pins != [] && s.toVerifier == [p.pins[0]]
         && ((s.handler.Expecting? && s.toHandler == [last]) || (s.handler == Ended(after) && s.toHandler == []))
  }

  predicate CheckingOk(p: Setup, s: State)
    requires s.read <= |p.pins|
  {
    if s.read == 0 then
      && s.verifier == Checking("") && s.toHandler == []
      && if p.notice then s.handler.AwaitingNotice? && s.toVerifier == [] && s.asked == 0
         else AheadOfVerifier(p, s) || (s.handler.Asking? && s.asked == 0 && s.toVerifier == [])
    else
      && p.Valid() && s.verifier == Checking(p.pins[s.read - 1]) && Wrong(p, s.read - 1)
      && s.handler.Expecting? && s.asked == s.read && s.toVerifier == [] && s.toHandler == []
  }

  predicate Inv(p: Setup, s: State)
  {
    && s.read <= |p.pins| && s.read <= p.config.maxTries
    && s.answered == (if s.verifier.Checking? then Before(p.config, p.notice, p.pins[..s.read])
                      else Answers(p.config, p.notice, p.pins[..s.read]))
    && match s.verifier
       case Checking(_) => CheckingOk(p, s)
       case Waiting =>
         && p.Valid() && s.read < p.config.maxTries && Wrong(p, s.read)
         && (InStep(p, s, PinRequired, Asking) || AheadOfVerifier(p, s))
         && (s.read == 0 && !p.notice ==> s.toHandler == [])
       case Accepted =>
         if p.config.pin == "" then OverAtOnce(p, s, PinOk, Succeeded)
         else
           && s.read > 0 && p.pins[s.read - 1] == p.config.pin && Wrong(p, s.read - 1)
           && InStep(p, s, PinOk, Ended(Succeeded))
       case Rejected =>
         && p.config.pin != "" && s.read == p.config.maxTries && Wrong(p, s.read)
         && if s.read == 0 then OverAtOnce(p, s, TooManyAttempts, GaveUp)
            else InStep(p, s, TooManyAttempts, Ended(GaveUp))
       case HungUp =>
         && p.Valid() && s.read < p.config.maxTries && Wrong(p, s.read)
         && AheadOfVerifier(p, s) && s.handler == Ended(NoPin)
  }

  lemma CheckOk(p: Setup, s: State)
    requires Inv(p, s) && s.verifier.Checking?
    ensures Inv(p, Checked(p, s))
  {
    if s.read > 0 {
      assert p.pins[..s.read][..s.read - 1] == p.pins[..s.read - 1];
      assert Wrong(p, s.read) <==> p.pins[s.read - 1] != p.config.pin;
    }
  }

  lemma ReceiveOk(p: Setup, s: State)
    requires Inv(p, s) && Enabled(p, s, Receive)
    ensures Inv(p, Next(p, s, Receive))
  {
    assert p.pins[..s.read + 1][..s.read] == p.pins[..s.read];
  }

  lemma InvStep(p: Setup, s: State, step: Step)
    requires Inv(p, s) && Enabled(p, s, step)
    ensures Inv(p, Next(p, s, step))
  {
    match step
    case Check => CheckOk(p, s);
    case Receive => ReceiveOk(p, s);
    case _ => hide Answers, Before;
  }

  // ---- Runs ----

  predicate Possible(p: Setup, s: State, run: seq<Step>)
    decreases |run|
  {
    run == [] || (Enabled(p, s, run[0]) && Possible(p, Next(p, s, run[0]), run[1..]))
  }

  function After(p: Setup, s: State, run: seq<Step>): State
    requires Possible(p, s, run)
    decreases |run|
  {
    if run == [] then s else After(p, Next(p, s, run[0]), run[1..])
  }

  /** Decreases with every step. */
  function Rank(p: Setup, s: State): int
  {
    6 * (|p.pins| - s.asked) + 6 * |s.toVerifier| + 2 * |s.toHandler|
    + (if s.handler.Asking? then 1 else 0)
    + (if Listening(s) && s.toHandler == [] && VerifierEnded(s) then 1 else 0)
    + (if s.verifier.Checking? then 4 else if s.verifier.Waiting? then 1 else 0)
  }

  lemma RankStep(p: Setup, s: State, step: Step)
    requires Inv(p, s) && Enabled(p, s, step)
    ensures 0 <= Rank(p, Next(p, s, step)) < Rank(p, s)
  {
    hide Answers, Before;
  }

  lemma {:induction false} RunKeepsInv(p: Setup, s: State, run: seq<Step>)
    requires Inv(p, s) && Possible(p, s, run)
    ensures Inv(p, After(p, s, run))
    ensures |run| <= Rank(p, s) - Rank(p, After(p, s, run))
    decreases |run|
  {
    hide Inv, Next, Enabled, Rank;
    if run != [] {
      InvStep(p, s, run[0]);
      RankStep(p, s, run[0]);
      RunKeepsInv(p, Next(p, s, run[0]), run[1..]);
    }
  }

  lemma InvStart(p: Setup)
    ensures Inv(p, Start(p)) && Rank(p, Start(p)) <= 6 * |p.pins| + 5
  {
  }

  /** One of the first `maxTries` PINs is right. */
  predicate RightInTime(p: Setup)
  {
    exists i :: 0 <= i < |p.pins| && i < p.config.maxTries && p.pins[i] == p.config.pin
  }

  /** The verifier accepts at once or on a right PIN. */
  predicate Passes(p: Setup)
  {
    p.config.pin == "" || RightInTime(p)
  }

  /**
   * In every state of every run: no more PINs were read than allowed (so the counter stays below 256), none
   * after a right one; every PIN read and judged has exactly one answer; no peer is left without an answer,
   * and the peers never hold opposite verdicts.
   */
  lemma ChallengeIsSafe(p: Setup, run: seq<Step>)
    requires Possible(p, Start(p), run)
    ensures var s := After(p, Start(p), run);
            && s.read <= p.config.maxTries < 256 && s.read <= s.asked <= s.read + 1
            && Wrong(p, s.read - if s.verifier.Accepted? || s.verifier.Checking? then 1 else 0)
            && |s.answered| == (if !s.verifier.Checking? then s.read + |FirstAnswers(p.config, p.notice)|
                                else if s.read == 0 then 0
                                else s.read - 1 + |FirstAnswers(p.config, p.notice)|)
            && s.handler != Ended(Lost)
            && (s.handler == Ended(Succeeded) ==> s.verifier.Accepted?)
            && (s.handler == Ended(GaveUp) ==> s.verifier.Rejected?)
  {
    InvStart(p);
    RunKeepsInv(p, Start(p), run);
  }

  /**
   * Every run ends, after at most six steps for each PIN and five more. The verifier then accepted exactly
   * when the configured PIN is empty or one of the first `maxTries` PINs is right, refused exactly when it
   * did not and that many were entered, and otherwise the user stopped. Both peers have the same verdict,
   * except in one case: a verdict known at once, sent without notice to a user who enters no PIN at all.
   */
  lemma ChallengeEndsInAgreement(p: Setup, run: seq<Step>)
    requires Possible(p, Start(p), run)
    ensures |run| <= 6 * |p.pins| + 5
    ensures var s := After(p, Start(p), run);
            (forall step :: !Enabled(p, s, step)) ==>
              && (s.verifier.Accepted? <==> Passes(p))
              && (s.verifier.Rejected? <==> !Passes(p) && |p.pins| >= p.config.maxTries as int)
              && (s.verifier.HungUp? <==> !Passes(p) && |p.pins| < p.config.maxTries as int)
              && (Agreed(s) <==> p.Valid() || p.notice || p.pins != [])
              && (p.Valid() ==>
                    s.read == s.asked <= |p.pins|
                    && s.answered == Answers(p.config, p.notice, p.pins[..s.asked]))
  {
    InvStart(p);
    RunKeepsInv(p, Start(p), run);
    var s := After(p, Start(p), run);
    RankIsNat(p, s);
    if forall step :: !Enabled(p, s, step) {
      Quiet(p, s);
    }
  }

  /** Both peers have the same verdict. */
  predicate Agreed(s: State)
  {
    && (s.verifier.Accepted? <==> s.handler == Ended(Succeeded))
    && (s.verifier.Rejected? <==> s.handler == Ended(GaveUp))
    && (s.verifier.HungUp? <==> s.handler == Ended(NoPin))
  }

  lemma RankIsNat(p: Setup, s: State)
    requires Inv(p, s)
    ensures Rank(p, s) >= 0
  {
    hide Answers, Before;
  }

  lemma Quiet(p: Setup, s: State)
    requires Inv(p, s) && forall step :: !Enabled(p, s, step)
    ensures p.Valid() ==>
              s.read == s.asked <= |p.pins| && s.answered == Answers(p.config, p.notice, p.pins[..s.asked])
    ensures Agreed(s) <==> p.Valid() || p.notice || p.pins != []
    ensures match s.verifier
            case Accepted => Passes(p)
            case Rejected => !Passes(p) && |p.pins| >= p.config.maxTries as int
            case HungUp => !Passes(p) && |p.pins| < p.config.maxTries as int
            case _ => false
  {
    hide Answers, Before;
    assert !Enabled(p, s, Check) && !Enabled(p, s, Receive) && !Enabled(p, s, VerifierHangsUp);
    assert !Enabled(p, s, Ask) && !Enabled(p, s, RunOut) && !Enabled(p, s, Get) && !Enabled(p, s, HandlerHangsUp);
    if s.verifier.Accepted? && p.config.pin != "" {
      assert p.pins[s.read - 1] == p.config.pin;
    }
  }
}
