/** The PIN challenge between two peers: the verifier's loop, the other peer's loop, and both together. */
module RtcPin {
  import opened Bytes

  type u8 = byte

  datatype PinConfig = PinConfig(pin: string, maxTries: u8)

  datatype Result = PinRequired | TooManyAttempts | PinOk

  /** Messages from the other peer until the channel is closed; `None` is one that cannot be parsed. */
  class Inbox<T> {
    var messages: seq<Option<T>>

    constructor (messages: seq<Option<T>>)
      ensures this.messages == messages
    {
      this.messages := messages;
    }

    /** `None` for a closed channel and for a message that cannot be parsed. */
    method Next() returns (m: Option<T>)
      modifies this
      ensures old(messages) == [] ==> m == None && messages == []
      ensures old(messages) != [] ==> m == old(messages)[0] && messages == old(messages)[1..]
    {
      if messages == [] {
        return None;
      }
      m := messages[0];
      messages := messages[1..];
    }
  }

  class Outbox<T> {
    var sent: seq<T>
    var refused: nat                              // sends that failed

    constructor ()
      ensures sent == [] && refused == 0
    {
      sent, refused := [], 0;
    }

    /** Any send may fail. */
    method Send(m: T) returns (ok: bool)
      modifies this
      ensures sent == if ok then old(sent) + [m] else old(sent)
      ensures refused == if ok then old(refused) else old(refused) + 1
    {
      ok := *;
      if ok {
        sent := sent + [m];
      } else {
        refused := refused + 1;
      }
    }
  }

  // ---- The verifier ----

  /** The verdict on the last of `tries` PINs. */
  function Answer(config: PinConfig, tries: nat, pin: string): Result
  {
    if pin == config.pin then PinOk else if tries >= config.maxTries then TooManyAttempts else PinRequired
  }

  /** What is sent before any PIN is read: nothing or a notice, unless the verdict is known already. */
  function FirstAnswers(config: PinConfig, notice: bool): seq<Result>
  {
    if config.pin == "" then [PinOk]
    else if config.maxTries == 0 then [TooManyAttempts]
    else if notice then [PinRequired]
    else []
  }

  /** All results sent once these PINs were read: one answer to each, after what came first. */
  function Answers(config: PinConfig, notice: bool, pins: seq<string>): (results: seq<Result>)
    ensures |results| == |pins| + |FirstAnswers(config, notice)|
  {
    if pins == [] then FirstAnswers(config, notice)
    else
      var n := |pins| - 1;
      Answers(config, notice, pins[..n]) + [Answer(config, n + 1, pins[n])]
  }

  /** The answer to each PIN: a right one is accepted, a wrong one refused once the tries are used up. */
  lemma {:induction false} AnswerToEach(config: PinConfig, notice: bool, pins: seq<string>, i: nat)
    requires i < |pins|
    ensures Answers(config, notice, pins)[|FirstAnswers(config, notice)| + i]
         == if pins[i] == config.pin then PinOk
            else if i + 1 < config.maxTries as int then PinRequired
            else TooManyAttempts
    decreases |pins|
  {
    var n := |pins| - 1;
    if i < n {
      AnswerToEach(config, notice, pins[..n], i);
      hide FirstAnswers;
    }
  }

  datatype Verdict = Verified | TooManyTries | Broken

  predicate AllWrong(config: PinConfig, pins: seq<string>)
  {
    forall i :: 0 <= i < |pins| ==> pins[i] != config.pin
  }

  /** The messages were these PINs, followed by `rest`. */
  predicate ReadPins(messages: seq<Option<string>>, pins: seq<string>, rest: seq<Option<string>>)
  {
    ArePins(messages, pins) && rest == messages[|pins|..]
  }

  predicate ArePins(messages: seq<Option<string>>, pins: seq<string>)
  {
    |pins| <= |messages| && forall i :: 0 <= i < |pins| ==> messages[i] == Some(pins[i])
  }

  /** Results sent before the last PIN was judged. */
  function Before(config: PinConfig, notice: bool, pins: seq<string>): seq<Result>
  {
    if pins == [] then [] else Answers(config, notice, pins[..|pins| - 1])
  }

  /** What the verdict says about the PINs read. */
  predicate Judged(config: PinConfig, verdict: Verdict, pins: seq<string>)
  {
    match verdict
    case Verified =>
      if config.pin == "" then pins == []
      else pins != [] && pins[|pins| - 1] == config.pin && AllWrong(config, pins[..|pins| - 1])
    case TooManyTries => config.pin != "" && |pins| == config.maxTries && AllWrong(config, pins)
    case Broken => |pins| <= config.maxTries
  }

  /** The channel is closed at that point, or the message cannot be parsed. */
  predicate NoPinAt(messages: seq<Option<string>>, at: nat)
  {
    at < |messages| ==> messages[at] == None
  }

  lemma NoPinAfter(messages: seq<Option<string>>, pins: seq<string>, rest: seq<Option<string>>)
    requires ReadPins(messages, pins, rest) && (rest == [] || rest[0] == None)
    ensures NoPinAt(messages, |pins|)
  {
  }

  lemma ReadOneMore(messages: seq<Option<string>>, pins: seq<string>, rest: seq<Option<string>>, pin: string)
    requires ReadPins(messages, pins, rest) && rest != [] && rest[0] == Some(pin)
    ensures ReadPins(messages, pins + [pin], rest[1..]) && ArePins(messages, pins + [pin])
  {
  }

  lemma NothingRead(messages: seq<Option<string>>)
    ensures ReadPins(messages, [], messages) && ArePins(messages, [])
  {
  }

  lemma NothingJudged(config: PinConfig, notice: bool)
    ensures Before(config, notice, []) == [] && AllWrong(config, [])
  {
  }

  lemma BeforeNext(config: PinConfig, notice: bool, pins: seq<string>, pin: string)
    ensures Before(config, notice, pins + [pin]) == Answers(config, notice, pins)
  {
    assert (pins + [pin])[..|pins|] == pins;
  }

  /** While tries are left, a wrong PIN, or the beginning, is answered by what the loop sends. */
  lemma AnswersWhileWrong(config: PinConfig, notice: bool, pins: seq<string>)
    requires config.pin != "" && |pins| < config.maxTries as int && AllWrong(config, pins)
    ensures Answers(config, notice, pins)
         == Before(config, notice, pins) + (if notice || pins != [] then [PinRequired] else [])
  {
  }

  lemma AllWrongMore(config: PinConfig, pins: seq<string>)
    requires pins != [] && AllWrong(config, pins[..|pins| - 1]) && pins[|pins| - 1] != config.pin
    ensures AllWrong(config, pins)
  {
    assert pins == pins[..|pins| - 1] + [pins[|pins| - 1]];
  }

  /**
   * Reads PINs until one is right or `maxTries` were wrong, and tells the peer after each one. (An empty
   * configured PIN is taken as given before any PIN is read.) It gives up early only when a send fails or no
   * PIN comes; only the failure of the last refusal goes unnoticed.
   */
  method VerifyPin(config: PinConfig, rx: Inbox<string>, tx: Outbox<Result>, initialNotice: bool)
    returns (verdict: Verdict, ghost pins: seq<string>)
    modifies rx, tx
    ensures Judged(config, verdict, pins) && |pins| <= config.maxTries && ArePins(old(rx.messages), pins)
    ensures verdict.Broken? ==> config.pin != "" && |pins| < config.maxTries as int && AllWrong(config, pins)
    ensures !verdict.Broken? ==> ReadPins(old(rx.messages), pins, rx.messages)
    ensures var before := old(tx.sent) + Before(config, initialNotice, pins);
            match verdict
            case Verified => tx.sent == before && tx.refused == old(tx.refused)
            case TooManyTries =>
              || (tx.sent == before && tx.refused == old(tx.refused) + 1)
              || (tx.sent == before + [TooManyAttempts] && tx.refused == old(tx.refused))
            case Broken =>
              || (tx.sent == before && tx.refused == old(tx.refused) + 1)
              || (tx.sent == old(tx.sent) + Answers(config, initialNotice, pins) && tx.refused == old(tx.refused)
                  && NoPinAt(old(rx.messages), |pins|))
  {
    hide Answers, Before, AllWrong, FirstAnswers, ReadPins, ArePins;
    NothingRead(rx.messages);
    assert Before(config, initialNotice, []) == [] && AllWrong(config, []) by { NothingJudged(config, initialNotice); }
    var remotePin := "";
    var sendInitialNotice := initialNotice;
    var pinTry: u8 := 0;
    pins := [];
    while true
      invariant |pins| == pinTry as int <= config.maxTries as int
      invariant ReadPins(old(rx.messages), pins, rx.messages) && ArePins(old(rx.messages), pins)
      invariant remotePin == (if pins == [] then "" else pins[|pins| - 1])
      invariant pins != [] ==> config.pin != "" && AllWrong(config, pins[..|pins| - 1])
      invariant sendInitialNotice == (initialNotice && pins == [])
      invariant tx.sent == old(tx.sent) + Before(config, initialNotice, pins) && tx.refused == old(tx.refused)
      decreases config.maxTries - pinTry
    {
      if remotePin == config.pin {
        return Verified, pins;
      }
      if pins != [] {
        AllWrongMore(config, pins);
      }
      if pinTry >= config.maxTries {
        var _ := tx.Send(TooManyAttempts);
        return TooManyTries, pins;
      }
      AnswersWhileWrong(config, initialNotice, pins);
      if sendInitialNotice || pinTry > 0 {
        sendInitialNotice := false;
        var ok := tx.Send(PinRequired);
        if !ok {
          return Broken, pins;
        }
      }
      ghost var before := rx.messages;
      var m := rx.Next();
      if m.None? {
        NoPinAfter(old(rx.messages), pins, before);
        return Broken, pins;
      }
      remotePin := m.value;
      ReadOneMore(old(rx.messages), pins, before, remotePin);
      pinTry := pinTry + 1;
      BeforeNext(config, initialNotice, pins, remotePin);
      assert (pins + [remotePin])[..|pins|] == pins;
      pins := pins + [remotePin];
    }
  }

  /**
   * The verifier's part: once it succeeded it says so. Every PIN it read has exactly one answer, and an empty
   * PIN or no tries at all are answered before any PIN is read.
   */
  method ChallengePeer(config: PinConfig, rx: Inbox<string>, tx: Outbox<Result>, notice: bool)
    returns (verdict: Verdict, ghost pins: seq<string>)
    modifies rx, tx
    ensures Judged(config, verdict, pins) && ArePins(old(rx.messages), pins)
    ensures verdict.Broken? ==>
              Judged(config, Verified, pins)
              || (config.pin != "" && |pins| < config.maxTries as int && AllWrong(config, pins))
    ensures !verdict.Broken? ==> ReadPins(old(rx.messages), pins, rx.messages)
    ensures var answers := old(tx.sent) + Answers(config, notice, pins);
            match verdict
            case Verified => tx.sent == answers && tx.refused == old(tx.refused)
            case TooManyTries =>
              || (tx.sent == answers && tx.refused == old(tx.refused))
              || (tx.sent + [TooManyAttempts] == answers && tx.refused == old(tx.refused) + 1)
            case Broken =>
              || (tx.sent <= answers && tx.refused == old(tx.refused) + 1)
              || (tx.sent == answers && tx.refused == old(tx.refused) && NoPinAt(old(rx.messages), |pins|))
  {
    verdict, pins := VerifyPin(config, rx, tx, notice);
    if verdict.Verified? {
      var ok := tx.Send(PinOk);
      if !ok {
        verdict := Broken;
      }
    }
  }

  // ---- The other peer ----

  datatype Reply = Succeeded | GaveUp | NoPin | Lost

  /** Sends PINs from the user one by one, each after the result for the one before it asked for another. */
  method HandlePin(pins: seq<string>, rx: Inbox<Result>, tx: Outbox<string>) returns (reply: Reply, asked: nat)
    modifies rx, tx
    ensures asked <= |pins|
    ensures tx.sent == old(tx.sent) + pins[..asked]
         || (reply.Lost? && asked > 0 && tx.sent == old(tx.sent) + pins[..asked - 1])
    ensures !reply.Lost? ==>
              && asked <= |old(rx.messages)| && rx.messages == old(rx.messages)[asked..]
              && (forall i :: 0 <= i < asked - 1 ==> old(rx.messages)[i] == Some(PinRequired))
    ensures reply.Succeeded? ==> asked > 0 && old(rx.messages)[asked - 1] == Some(PinOk)
    ensures reply.GaveUp? ==> asked > 0 && old(rx.messages)[asked - 1] == Some(TooManyAttempts)
    ensures tx.refused == old(tx.refused) + asked - (|tx.sent| - |old(tx.sent)|)
    ensures reply.Lost? ==>
              && asked > 0
              && (tx.refused == old(tx.refused) ==>
                    asked > |old(rx.messages)| || old(rx.messages)[asked - 1] == None)
    ensures reply.NoPin? ==> asked == |pins| && (asked > 0 ==> old(rx.messages)[asked - 1] == Some(PinRequired))
  {
    asked := 0;
    ghost var all := rx.messages;
    while true
      invariant asked <= |pins| && asked <= |all| && rx.messages == all[asked..]
      invariant tx.sent == old(tx.sent) + pins[..asked] && tx.refused == old(tx.refused)
      invariant forall i :: 0 <= i < asked ==> all[i] == Some(PinRequired)
      decreases |pins| - asked
    {
      if asked == |pins| {
        return NoPin, asked;
      }
      var ok := tx.Send(pins[asked]);
      asked := asked + 1;
      if !ok {
        return Lost, asked;
      }
      assert pins[..asked] == pins[..asked - 1] + [pins[asked - 1]];
      if rx.messages == [] {
        return Lost, asked;
      }
      var m := rx.Next();
      match m {
        case Some(PinOk) => return Succeeded, asked;
        case Some(PinRequired) =>
        case Some(TooManyAttempts) => return GaveUp, asked;
        case None => return Lost, asked;
      }
    }
  }
}
