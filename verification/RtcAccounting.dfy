/** Nothing a receiver reads gets lost: each message is accounted for once, and each error has its message. */
module RtcAccounting {
  import opened Bytes
  import opened RtcChunks
  import opened RtcFiles

  /** Messages forwarded to the application. */
  function DataCount(incoming: seq<Incoming>): nat
  {
    if incoming == [] then 0 else DataCount(incoming[..|incoming| - 1]) + |incoming[|incoming| - 1].data|
  }

  /** Each message read opened a file, was forwarded, caused one error, or was the last. */
  predicate Balanced(r: Reception)
  {
    r.read == |r.incoming| + DataCount(r.incoming) + |r.errors| + if r.end.Running? then 0 else 1
  }

  /** The binary messages from the header at `start` to `at` are of this file and have that many bytes. */
  predicate SentTo(env: Env, messages: seq<Message>, start: nat, at: nat, id: FileId, received: nat)
    requires at < |messages|
  {
    && start < at && messages[start].isString && id in env.tokens
    && env.codec.parse(messages[start].data) == Some(Header(id, env.tokens[id]))
    && (forall i :: start < i <= at ==> !messages[i].isString)
    && received == |Concat(DataOf(messages[start + 1..at + 1]))|
  }

  /** The error is about the message at `at`. */
  ghost predicate Caused(env: Env, messages: seq<Message>, e: ReceiveError, at: nat)
    requires at < |messages|
  {
    var m := messages[at];
    var h := env.codec.parse(m.data);
    match e
    case NoHeader => !m.isString
    case FileNotFound(id) => m.isString && h.Some? && h.value.id == id && id !in env.tokens
    case InvalidToken(id) =>
      m.isString && h.Some? && h.value.id == id && id in env.tokens && h.value.token != env.tokens[id]
    case NoSize(id) =>
      m.isString && id in env.tokens && h == Some(Header(id, env.tokens[id])) && SizeOf(env.files, id).None?
    case TooManyBytes(id, size, received) =>
      && SizeOf(env.files, id) == Some(size) && received > size
      && exists start :: SentTo(env, messages, start, at, id, received)
  }

  /** `at` lists the messages the errors are about, in order. */
  ghost predicate Explained(env: Env, messages: seq<Message>, r: Reception, at: seq<nat>)
  {
    && |at| == |r.errors|
    && (forall i, j :: 0 <= i < j < |at| ==> at[i] < at[j])
    && (forall i :: 0 <= i < |at| ==> at[i] < r.read && at[i] < |messages|)
    && (forall i :: 0 <= i < |at| ==> Caused(env, messages, r.errors[i], at[i]))
  }

  /** Why the receiver stopped. */
  predicate EndExplained(env: Env, out: Outside, messages: seq<Message>, r: Reception)
  {
    match r.end
    case Running => true
    case Done =>
      && 0 < r.read <= |messages| && IsDelimiter(messages[r.read - 1])
      && r.responses != [] && r.responses[|r.responses| - 1].at == r.read - 1
    case Failed =>
      && 0 < r.read <= |messages|
      && var m := messages[r.read - 1];
         if m.isString then !out.responseSent(r.read - 1) || env.codec.parse(m.data).None?
         else !out.takes(r.read - 1)
  }

  lemma OneMoreFile(incoming: seq<Incoming>, f: Incoming)
    ensures DataCount(incoming + [f]) == DataCount(incoming) + |f.data|
  {
    assert (incoming + [f])[..|incoming|] == incoming;
  }

  lemma OneMoreChunk(incoming: seq<Incoming>, data: bytes)
    requires incoming != []
    ensures |Forwarded(incoming, data)| == |incoming| && DataCount(Forwarded(incoming, data)) == DataCount(incoming) + 1
  {
    var n := |incoming| - 1;
    assert Forwarded(incoming, data)[..n] == incoming[..n];
  }

  lemma HeaderBalanced(env: Env, r: Reception, m: Message)
    requires Balanced(r) && r.end.Running?
    ensures Balanced(OnHeader(env, r, m).(read := r.read + 1))
  {
    var h := env.codec.parse(m.data);
    if h.Some? {
      OneMoreFile(r.incoming, Incoming(h.value.id, r.read, []));
    }
    hide DataCount;
  }

  lemma MessageBalanced(env: Env, out: Outside, r: Reception, m: Message)
    requires Balanced(r) && r.end.Running? && (r.file.Some? ==> r.incoming != [])
    ensures Balanced(OnMessage(env, out, r, m))
  {
    if m.isString {
      HeaderBalanced(env, r, m);
      if r.file.Some? {
        var responses := r.responses + [ResponseFor(out, r)];
        HeaderBalanced(env, r.(file := None, taken := r.taken + 1, responses := responses), m);
      }
      hide OnHeader, DataCount;
    } else if r.file.Some? {
      OneMoreChunk(r.incoming, m.data);
      hide DataCount, Forwarded;
    }
  }

  /** Adding the error of the message just read. */
  lemma ExplainedMore(env: Env, messages: seq<Message>, r: Reception, s: Reception, at: seq<nat>, e: ReceiveError)
    requires Explained(env, messages, r, at) && s.errors == r.errors + [e]
    requires r.read < |messages| && s.read == r.read + 1 && Caused(env, messages, e, r.read)
    ensures Explained(env, messages, s, at + [r.read])
  {
    hide Caused;
    var more := at + [r.read];
    forall i | 0 <= i < |more| ensures Caused(env, messages, s.errors[i], more[i]) {
      assert i < |at| ==> s.errors[i] == r.errors[i] && more[i] == at[i];
    }
  }

  lemma ExplainedStill(env: Env, messages: seq<Message>, r: Reception, s: Reception, at: seq<nat>)
    requires Explained(env, messages, r, at) && s.errors == r.errors && r.read <= s.read
    ensures Explained(env, messages, s, at)
  {
    hide Caused;
  }

  lemma HeaderExplained(env: Env, messages: seq<Message>, r: Reception, at: seq<nat>) returns (more: seq<nat>)
    requires Explained(env, messages, r, at) && r.read < |messages| && messages[r.read].isString
    ensures Explained(env, messages, OnHeader(env, r, messages[r.read]).(read := r.read + 1), more)
  {
    var s := OnHeader(env, r, messages[r.read]).(read := r.read + 1);
    var h := env.codec.parse(messages[r.read].data);
    if h.Some? && Admit(env, h.value).Refused? {
      assert Caused(env, messages, Admit(env, h.value).error, r.read);
      ExplainedMore(env, messages, r, s, at, Admit(env, h.value).error);
      more := at + [r.read];
    } else {
      ExplainedStill(env, messages, r, s, at);
      more := at;
    }
  }

  /** What a file got so far, with the message that comes next. */
  lemma BytesSent(env: Env, messages: seq<Message>, r: Reception)
    requires ReceptionOk(env, messages, r) && r.file.Some? && r.read < |messages| && !messages[r.read].isString
    ensures var f := r.file.value;
            SentTo(env, messages, r.incoming[|r.incoming| - 1].header, r.read, f.id,
                   f.received + |messages[r.read].data|)
    ensures SizeOf(env.files, r.file.value.id) == Some(r.file.value.size)
  {
    var f := r.incoming[|r.incoming| - 1];
    assert Faithful(env, messages, r, f);
    DataBehind(messages, f.header, f.data, r.read);
    hide Concat, SizeOf, DataOf;
  }

  lemma DataBehind(messages: seq<Message>, start: nat, data: seq<bytes>, at: nat)
    requires at == start + 1 + |data| < |messages| && !messages[at].isString
    requires forall i :: 0 <= i < |data| ==> messages[start + 1 + i] == Message(false, data[i])
    ensures |Concat(DataOf(messages[start + 1..at + 1]))| == |Concat(data)| + |messages[at].data|
    ensures forall i :: start < i <= at ==> !messages[i].isString
  {
    hide Concat;
    assert DataOf(messages[start + 1..at + 1]) == data + [messages[at].data];
    ConcatLonger(data, messages[at].data);
    forall i | start < i < at ensures !messages[i].isString {
      assert messages[start + 1 + (i - start - 1)] == Message(false, data[i - start - 1]);
    }
  }

  lemma BinaryExplained(env: Env, out: Outside, messages: seq<Message>, r: Reception, at: seq<nat>)
    returns (more: seq<nat>)
    requires ReceptionOk(env, messages, r) && Explained(env, messages, r, at)
    requires r.read < |messages| && !messages[r.read].isString
    ensures Explained(env, messages, OnBinary(out, r, messages[r.read].data).(read := r.read + 1), more)
  {
    var s := OnBinary(out, r, messages[r.read].data).(read := r.read + 1);
    if s.errors == r.errors {
      ExplainedStill(env, messages, r, s, at);
      more := at;
    } else {
      var e := s.errors[|r.errors|];
      if r.file.Some? {
        BytesSent(env, messages, r);
      }
      assert Caused(env, messages, e, r.read) by { hide SentTo, ReceptionOk, Explained; }
      hide ReceptionOk;
      ExplainedMore(env, messages, r, s, at, e);
      more := at + [r.read];
    }
  }

  lemma MessageExplained(env: Env, out: Outside, messages: seq<Message>, r: Reception, at: seq<nat>)
    returns (more: seq<nat>)
    requires ReceptionOk(env, messages, r) && r.end.Running? && Explained(env, messages, r, at)
    requires r.read < |messages|
    ensures Explained(env, messages, OnMessage(env, out, r, messages[r.read]), more)
  {
    hide ReceptionOk, OnHeader, OnBinary, Caused;
    var m := messages[r.read];
    if !m.isString {
      more := BinaryExplained(env, out, messages, r, at);
    } else if r.file.None? {
      more := HeaderExplained(env, messages, r, at);
    } else if !out.responseSent(r.read) {
      more := at;
    } else {
      var ended := r.(file := None, taken := r.taken + 1, responses := r.responses + [ResponseFor(out, r)]);
      more := HeaderExplained(env, messages, ended, at);
      if IsDelimiter(m) {
        more := at;
      }
    }
  }

  lemma MessageEnds(env: Env, out: Outside, messages: seq<Message>, r: Reception)
    requires r.end.Running? && r.read < |messages|
    ensures EndExplained(env, out, messages, OnMessage(env, out, r, messages[r.read]))
  {
  }

  lemma {:induction false} ReceivedAccounted(env: Env, out: Outside, messages: seq<Message>, r: Reception, at: seq<nat>)
    returns (all: seq<nat>)
    requires ReceptionOk(env, messages, r) && Balanced(r) && Explained(env, messages, r, at)
    requires EndExplained(env, out, messages, r)
    ensures var s := Received(env, out, r, messages[r.read..]);
            && Balanced(s) && Explained(env, messages, s, all) && EndExplained(env, out, messages, s)
            && (s.end.Running? ==> s.read == |messages|)
    decreases |messages| - r.read
  {
    hide ReceptionOk, OnMessage, Balanced, Explained, EndExplained;
    assert r.read <= |messages| by { ReadInside(env, messages, r); }
    if r.read < |messages| && r.end.Running? {
      var s := OnMessage(env, out, r, messages[r.read]);
      MessageOk(env, out, messages, r);
      FilesBehindOpen(env, messages, r);
      MessageBalanced(env, out, r, messages[r.read]);
      var more := MessageExplained(env, out, messages, r, at);
      MessageEnds(env, out, messages, r);
      ReadsOne(env, out, r, messages[r.read]);
      assert messages[r.read..][1..] == messages[s.read..];
      all := ReceivedAccounted(env, out, messages, s, more);
    } else {
      all := at;
    }
  }

  lemma FilesBehindOpen(env: Env, messages: seq<Message>, r: Reception)
    requires ReceptionOk(env, messages, r)
    ensures r.file.Some? ==> r.incoming != []
  {
  }

  /**
   * Whatever arrives and however the outside behaves: each message read either opens a file, or is forwarded
   * to one, or causes exactly one error, or is the one at which the receiver stops. The errors name their
   * causes in the order of the messages, and the receiver stops for the reasons listed only.
   */
  lemma EveryMessageIsAccountedFor(env: Env, out: Outside, messages: seq<Message>)
    ensures var r := Received(env, out, START, messages);
            && r.read == |r.incoming| + DataCount(r.incoming) + |r.errors| + (if r.end.Running? then 0 else 1)
            && (exists at :: Explained(env, messages, r, at))
            && EndExplained(env, out, messages, r)
            && (r.end.Running? ==> r.read == |messages|)
  {
    assert messages[0..] == messages;
    assert Explained(env, messages, START, []);
    assert Balanced(START);
    var all := ReceivedAccounted(env, out, messages, START, []);
  }
}
