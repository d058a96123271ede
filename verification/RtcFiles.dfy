/** Sending files over a data channel and receiving them: the loops of both peers. */
module RtcFiles {
  import opened Bytes
  import opened RtcChunks

  type FileId = nat
  type Token = nat

  datatype Header = Header(id: FileId, token: Token)

  /** The text form of headers. */
  datatype Codec = Codec(parse: bytes -> Option<Header>, render: Header -> bytes)
  {
    /** A header is longer than a delimiter and reads back; the delimiter is no header. */
    ghost predicate Lawful()
    {
      && (forall h :: parse(render(h)) == Some(h) && |render(h)| > 1)
      && parse(DELIMITER.data) == None
    }
  }

  // ---- The sender ----

  /** A file to send: the application delivers its content in pieces. */
  datatype Outgoing = Outgoing(id: FileId, pieces: seq<bytes>)
  {
    function Content(): bytes
    {
      Concat(pieces)
    }
  }

  datatype SendError = NoToken(id: FileId) | HeaderNotSent(id: FileId) | ContentNotSent(id: FileId)

  function FileMessages(codec: Codec, header: Header, content: bytes): seq<Message>
  {
    [Message(true, codec.render(header))] + Binaries(Chunks(content))
  }

  function Flatten(parts: seq<seq<Message>>): seq<Message>
  {
    if parts == [] then [] else Flatten(parts[..|parts| - 1]) + parts[|parts| - 1]
  }

  /** What was sent of one file, and the error reported for it. */
  predicate Accounted(
    codec: Codec, fileMap: map<FileId, Token>, o: Outgoing, part: seq<Message>, error: Option<SendError>)
  {
    if o.id !in fileMap then part == [] && error == Some(NoToken(o.id))
    else
      var whole := FileMessages(codec, Header(o.id, fileMap[o.id]), o.Content());
      match error
      case None => part == whole
      case Some(NoToken(_)) => false
      case Some(HeaderNotSent(id)) => id == o.id && part == []
      case Some(ContentNotSent(id)) => id == o.id && 0 < |part| < |whole| && part == whole[..|part|]
  }

  function Reported(outcomes: seq<Option<SendError>>): seq<SendError>
  {
    if outcomes == [] then []
    else
      var last := outcomes[|outcomes| - 1];
      Reported(outcomes[..|outcomes| - 1]) + (if last.Some? then [last.value] else [])
  }

  /** A send of the file failed. */
  predicate IsFailure(outcome: Option<SendError>)
  {
    outcome.Some? && !outcome.value.NoToken?
  }

  function Failures(outcomes: seq<Option<SendError>>): nat
  {
    if outcomes == [] then 0
    else Failures(outcomes[..|outcomes| - 1]) + if IsFailure(outcomes[|outcomes| - 1]) then 1 else 0
  }

  lemma FailuresAppend(outcomes: seq<Option<SendError>>, outcome: Option<SendError>)
    ensures Failures(outcomes + [outcome]) == Failures(outcomes) + if IsFailure(outcome) then 1 else 0
  {
    assert (outcomes + [outcome])[..|outcomes|] == outcomes;
  }

  /** Sends each file that has a token; each send that fails is reported once, and the next file follows. */
  method SendFiles(channel: DataChannel, codec: Codec, fileMap: map<FileId, Token>, queue: seq<Outgoing>)
    returns (ok: bool, errors: seq<SendError>, ghost parts: seq<seq<Message>>, ghost outcomes: seq<Option<SendError>>)
    modifies channel
    ensures |parts| == |outcomes| == |queue|
    ensures forall i :: 0 <= i < |queue| ==> Accounted(codec, fileMap, queue[i], parts[i], outcomes[i])
    ensures errors == Reported(outcomes)
    ensures channel.sent == old(channel.sent) + Flatten(parts) + (if ok then [DELIMITER] else [])
    ensures channel.refused == old(channel.refused) + Failures(outcomes) + (if ok then 0 else 1)
  {
    hide Accounted, Flatten, Reported, FileMessages, Failures;
    assert Flatten([]) == [] && Reported([]) == [] && Failures([]) == 0 by { NothingSent(); }
    errors, parts, outcomes := [], [], [];
    var i := 0;
    while i < |queue|
      invariant 0 <= i <= |queue| && |parts| == |outcomes| == i
      invariant forall k :: 0 <= k < i ==> Accounted(codec, fileMap, queue[k], parts[k], outcomes[k])
      invariant errors == Reported(outcomes)
      invariant channel.sent == old(channel.sent) + Flatten(parts)
      invariant channel.refused == old(channel.refused) + Failures(outcomes)
    {
      ghost var before := channel.sent;
      var error := SendFile(channel, codec, fileMap, queue[i]);
      ghost var part := channel.sent[|before|..];
      FlattenAppend(parts, part);
      ReportedAppend(outcomes, error);
      FailuresAppend(outcomes, error);
      if error.Some? {
        errors := errors + [error.value];
      }
      parts, outcomes := parts + [part], outcomes + [error];
      i := i + 1;
    }
    ok := channel.Send(DELIMITER);
  }

  lemma NothingSent()
    ensures Flatten([]) == [] && Reported([]) == [] && Failures([]) == 0
  {
  }

  /** One round of the loop. */
  method SendFile(channel: DataChannel, codec: Codec, fileMap: map<FileId, Token>, o: Outgoing)
    returns (error: Option<SendError>)
    modifies channel
    ensures old(channel.sent) <= channel.sent
    ensures Accounted(codec, fileMap, o, channel.sent[|old(channel.sent)|..], error)
    ensures channel.refused == old(channel.refused) + if IsFailure(error) then 1 else 0
  {
    if o.id !in fileMap {
      return Some(NoToken(o.id));
    }
    var header := Header(o.id, fileMap[o.id]);
    var ok := channel.Send(Message(true, codec.render(header)));
    if !ok {
      return Some(HeaderNotSent(o.id));
    }
    ok := ProcessInChunks(channel, o.pieces);
    ghost var part := channel.sent[|old(channel.sent)|..];
    ghost var whole := FileMessages(codec, header, o.Content());
    if !ok {
      assert part == whole[..|part|];
      return Some(ContentNotSent(o.id));
    }
    assert part == whole;
    error := None;
  }

  lemma FlattenAppend(parts: seq<seq<Message>>, part: seq<Message>)
    ensures Flatten(parts + [part]) == Flatten(parts) + part
  {
    assert (parts + [part])[..|parts|] == parts;
  }

  lemma ReportedAppend(outcomes: seq<Option<SendError>>, outcome: Option<SendError>)
    ensures Reported(outcomes + [outcome]) == Reported(outcomes) + if outcome.Some? then [outcome.value] else []
  {
    assert (outcomes + [outcome])[..|outcomes|] == outcomes;
  }

  /** The files that have a token. */
  function Selected(fileMap: map<FileId, Token>, queue: seq<Outgoing>): seq<Outgoing>
  {
    if queue == [] then []
    else
      var last := queue[|queue| - 1];
      Selected(fileMap, queue[..|queue| - 1]) + (if last.id in fileMap then [last] else [])
  }

  lemma {:induction false} SelectedHaveTokens(fileMap: map<FileId, Token>, queue: seq<Outgoing>)
    ensures forall i :: 0 <= i < |Selected(fileMap, queue)| ==> Selected(fileMap, queue)[i].id in fileMap
  {
    if queue != [] {
      SelectedHaveTokens(fileMap, queue[..|queue| - 1]);
    }
  }

  /** The messages of files that are sent whole. */
  function Stream(codec: Codec, fileMap: map<FileId, Token>, files: seq<Outgoing>): seq<Message>
    requires forall i :: 0 <= i < |files| ==> files[i].id in fileMap
  {
    if files == [] then []
    else
      var last := files[|files| - 1];
      Stream(codec, fileMap, files[..|files| - 1])
      + FileMessages(codec, Header(last.id, fileMap[last.id]), last.Content())
  }

  /** When no send failed, exactly the selected files were sent, in order. */
  lemma {:induction false} NoFailureSendsSelected(
    codec: Codec, fileMap: map<FileId, Token>, queue: seq<Outgoing>, parts: seq<seq<Message>>,
    outcomes: seq<Option<SendError>>)
    requires |parts| == |outcomes| == |queue|
    requires forall i :: 0 <= i < |queue| ==> Accounted(codec, fileMap, queue[i], parts[i], outcomes[i])
    requires forall i :: 0 <= i < |queue| ==> outcomes[i].None? || outcomes[i].value.NoToken?
    ensures forall i :: 0 <= i < |Selected(fileMap, queue)| ==> Selected(fileMap, queue)[i].id in fileMap
    ensures Flatten(parts) == Stream(codec, fileMap, Selected(fileMap, queue))
  {
    SelectedHaveTokens(fileMap, queue);
    if queue != [] {
      var n := |queue| - 1;
      SelectedHaveTokens(fileMap, queue[..n]);
      NoFailureSendsSelected(codec, fileMap, queue[..n], parts[..n], outcomes[..n]);
      var some := Selected(fileMap, queue[..n]);
      assert Flatten(parts) == Flatten(parts[..n]) + parts[n];
      assert Accounted(codec, fileMap, queue[n], parts[n], outcomes[n]);
      if queue[n].id in fileMap {
        var more := some + [queue[n]];
        assert more[..|more| - 1] == some && more == Selected(fileMap, queue);
      } else {
        assert Selected(fileMap, queue) == some;
      }
    }
  }

  // ---- The receiver ----

  datatype FileDto = FileDto(id: FileId, size: nat)

  /** What the receiver knows: the announced files, and the tokens it issued for the selected ones. */
  datatype Env = Env(codec: Codec, tokens: map<FileId, Token>, files: seq<FileDto>)

  /** A result the application queues: `file` tells which of the opened files it is about. */
  datatype FileResult = FileResult(file: nat, id: FileId, success: bool)

  /** How the outside behaves. Results are queued at any time; the queue is closed after the last one. */
  datatype Outside = Outside(
    responseSent: nat -> bool,                    // a response could be sent at this message
    takes: nat -> bool,                           // the application took the data of this message
    results: seq<FileResult>)

  /** What the application receives as one file. */
  datatype Incoming = Incoming(id: FileId, header: nat, data: seq<bytes>)

  datatype FileState = FileState(id: FileId, size: nat, received: nat)

  /** The response about the opened file number `file`, sent when the message at position `at` ended it. */
  datatype Response = Response(id: FileId, success: bool, at: nat, file: nat)

  datatype ReceiveError = InvalidToken(id: FileId) | FileNotFound(id: FileId) | NoSize(id: FileId)
    | TooManyBytes(id: FileId, size: nat, received: nat) | NoHeader

  datatype End = Running | Done | Failed

  datatype Reception = Reception(
    file: Option<FileState>,
    incoming: seq<Incoming>,
    responses: seq<Response>,
    errors: seq<ReceiveError>,
    read: nat,                                    // messages read
    taken: nat,                                   // results asked for
    end: End)

  const START := Reception(None, [], [], [], 0, 0, Running)

  /** The size of the first file with that id. */
  function SizeOf(files: seq<FileDto>, id: FileId): Option<nat>
  {
    if files == [] then None else if files[0].id == id then Some(files[0].size) else SizeOf(files[1..], id)
  }

  /** Of several entries with the id the first one counts. */
  lemma {:induction false} SizeOfFirst(files: seq<FileDto>, id: FileId)
    ensures SizeOf(files, id).None? <==> forall i :: 0 <= i < |files| ==> files[i].id != id
    ensures forall k :: 0 <= k < |files| && files[k].id == id && (forall i :: 0 <= i < k ==> files[i].id != id) ==>
              SizeOf(files, id) == Some(files[k].size)
  {
    if files != [] {
      var rest := files[1..];
      SizeOfFirst(rest, id);
      assert forall i :: 0 < i < |files| ==> files[i] == rest[i - 1];
      assert forall i :: 0 <= i < |rest| ==> rest[i] == files[i + 1];
      forall k | 0 <= k < |files| && files[k].id == id && (forall i :: 0 <= i < k ==> files[i].id != id)
        ensures SizeOf(files, id) == Some(files[k].size)
      {
        if k > 0 {
          assert files[0].id != id;
          assert rest[k - 1].id == id;
        }
      }
    }
  }

  datatype Admission = Admitted(size: nat) | Refused(error: ReceiveError)

  function Admit(env: Env, h: Header): Admission
  {
    if h.id !in env.tokens then Refused(FileNotFound(h.id))
    else if h.token != env.tokens[h.id] then Refused(InvalidToken(h.id))
    else
      match SizeOf(env.files, h.id)
      case None => Refused(NoSize(h.id))
      case Some(size) => Admitted(size)
  }

  function OnHeader(env: Env, r: Reception, m: Message): Reception
  {
    match env.codec.parse(m.data)
    case None => r.(end := Failed)
    case Some(h) =>
      match Admit(env, h)
      case Refused(error) => r.(errors := r.errors + [error])
      case Admitted(size) =>
        r.(file := Some(FileState(h.id, size, 0)), incoming := r.incoming + [Incoming(h.id, r.read, [])])
  }

  /** The next result of the queue, whatever file it is about; none when the queue is closed. */
  predicate NextSucceeds(results: seq<FileResult>, taken: nat)
  {
    taken < |results| && results[taken].success
  }

  /** The response about the file that ends now. */
  function ResponseFor(out: Outside, r: Reception): Response
    requires r.file.Some?
  {
    var last := if r.incoming == [] then 0 else |r.incoming| - 1;
    Response(r.file.value.id, NextSucceeds(out.results, r.taken), r.read, last)
  }

  function OnText(env: Env, out: Outside, r: Reception, m: Message): Reception
  {
    if r.file.None? then OnHeader(env, r, m)
    else if !out.responseSent(r.read) then r.(file := None, taken := r.taken + 1, end := Failed)
    else
      var s := r.(file := None, taken := r.taken + 1, responses := r.responses + [ResponseFor(out, r)]);
      if IsDelimiter(m) then s.(end := Done) else OnHeader(env, s, m)
  }

  /** `data` goes to the file that was opened last. */
  function Forwarded(incoming: seq<Incoming>, data: bytes): seq<Incoming>
  {
    if incoming == [] then []
    else
      var last := incoming[|incoming| - 1];
      incoming[..|incoming| - 1] + [last.(data := last.data + [data])]
  }

  function OnBinary(out: Outside, r: Reception, data: bytes): Reception
  {
    if r.file.None? then r.(errors := r.errors + [NoHeader])
    else
      var f := r.file.value;
      var received := f.received + |data|;
      if received > f.size then r.(file := None, errors := r.errors + [TooManyBytes(f.id, f.size, received)])
      else if !out.takes(r.read) then r.(file := None, end := Failed)
      else r.(file := Some(f.(received := received)), incoming := Forwarded(r.incoming, data))
  }

  function OnMessage(env: Env, out: Outside, r: Reception, m: Message): Reception
  {
    var s := if m.isString then OnText(env, out, r, m) else OnBinary(out, r, m.data);
    s.(read := r.read + 1)
  }

  function Received(env: Env, out: Outside, r: Reception, messages: seq<Message>): Reception
    decreases |messages|
  {
    if messages == [] || !r.end.Running? then r
    else Received(env, out, OnMessage(env, out, r, messages[0]), messages[1..])
  }

  /** The receiving loop: runs until the delimiter, an error, or the channel is closed. */
  method ReceiveFiles(env: Env, out: Outside, rx: Receiver) returns (r: Reception)
    modifies rx
    ensures r == Received(env, out, START, old(rx.messages))
    ensures r.read <= |old(rx.messages)| && rx.messages == old(rx.messages)[r.read..]
  {
    var file: Option<FileState> := None;
    var incoming: seq<Incoming> := [];
    var responses: seq<Response> := [];
    var errors: seq<ReceiveError> := [];
    var read, taken := 0, 0;
    r := START;
    ghost var all := rx.messages;
    while rx.messages != []
      invariant read <= |all| && rx.messages == all[read..]
      invariant r == Reception(file, incoming, responses, errors, read, taken, Running)
      invariant Received(env, out, START, all) == Received(env, out, r, rx.messages)
      decreases |rx.messages|
    {
      ghost var before := r;
      var next := rx.Recv();
      var msg := next.value;
      var at := read;
      read := read + 1;
      if msg.isString {
        if file.Some? {
          var response := ResponseFor(out, r);
          file := None;
          taken := taken + 1;
          if !out.responseSent(at) {
            r := Reception(file, incoming, responses, errors, read, taken, Failed);
            return;
          }
          responses := responses + [response];
          if IsDelimiter(msg) {
            r := Reception(file, incoming, responses, errors, read, taken, Done);
            return;
          }
        }
        var header := env.codec.parse(msg.data);
        if header.None? {
          r := Reception(file, incoming, responses, errors, read, taken, Failed);
          return;
        }
        match Admit(env, header.value) {
          case Refused(error) =>
            errors := errors + [error];
          case Admitted(size) =>
            file := Some(FileState(header.value.id, size, 0));
            incoming := incoming + [Incoming(header.value.id, at, [])];
        }
      } else if file.Some? {
        var received := file.value.received + |msg.data|;
        if received > file.value.size {
          errors := errors + [TooManyBytes(file.value.id, file.value.size, received)];
          file := None;
        } else if !out.takes(at) {
          r := Reception(None, incoming, responses, errors, read, taken, Failed);
          return;
        } else {
          file := Some(file.value.(received := received));
          incoming := Forwarded(incoming, msg.data);
        }
      } else {
        errors := errors + [NoHeader];
      }
      r := Reception(file, incoming, responses, errors, read, taken, Running);
      assert r == OnMessage(env, out, before, msg);
    }
  }

  // ---- Whatever arrives ----

  /**
   * The file was opened by a header with an id and the token the receiver issued for it; its data are the
   * binary messages right behind that header, never more bytes than announced; it ends early only before
   * a binary message that would exceed the size, or when the application stops taking data.
   */
  ghost predicate Faithful(env: Env, messages: seq<Message>, r: Reception, f: Incoming)
  {
    var next := f.header + 1 + |f.data|;
    && next <= r.read <= |messages|
    && messages[f.header].isString
    && f.id in env.tokens && env.codec.parse(messages[f.header].data) == Some(Header(f.id, env.tokens[f.id]))
    && (forall i :: 0 <= i < |f.data| ==> messages[f.header + 1 + i] == Message(false, f.data[i]))
    && SizeOf(env.files, f.id).Some?
    && |Concat(f.data)| <= SizeOf(env.files, f.id).value
    && (next < r.read ==>
          || messages[next].isString || r.end.Failed?
          || |Concat(f.data)| + |messages[next].data| > SizeOf(env.files, f.id).value)
  }

  /** The open file is the last one, and all its messages so far were forwarded. */
  ghost predicate OpenIsLast(env: Env, r: Reception)
  {
    r.file.Some? ==>
      && r.incoming != [] && r.end.Running?
      && var f := r.incoming[|r.incoming| - 1];
         && f.id == r.file.value.id && f.header + 1 + |f.data| == r.read
         && SizeOf(env.files, f.id) == Some(r.file.value.size)
         && r.file.value.received == |Concat(f.data)|
  }

  /** A file that is not open ended before the last message read. */
  predicate OthersEnded(r: Reception)
  {
    r.file.None? && r.incoming != [] ==>
      var f := r.incoming[|r.incoming| - 1];
      f.header + 1 + |f.data| < r.read
  }

  predicate InOrder(incoming: seq<Incoming>, read: nat)
  {
    && (forall i :: 0 <= i < |incoming| - 1 ==> incoming[i].header + |incoming[i].data| < incoming[i + 1].header)
    && (incoming != [] ==> incoming[|incoming| - 1].header < read)
  }

  ghost predicate ReceptionOk(env: Env, messages: seq<Message>, r: Reception)
  {
    && r.read <= |messages|
    && (forall i :: 0 <= i < |r.incoming| ==> Faithful(env, messages, r, r.incoming[i]))
    && OpenIsLast(env, r) && OthersEnded(r) && InOrder(r.incoming, r.read)
  }

  /** A file that ended stays faithful while more is read. */
  lemma FaithfulStays(env: Env, messages: seq<Message>, r: Reception, s: Reception, f: Incoming)
    requires Faithful(env, messages, r, f) && r.end.Running? && f.header + 1 + |f.data| < r.read <= s.read <= |messages|
    ensures Faithful(env, messages, s, f)
  {
  }

  lemma AllFaithfulStay(env: Env, messages: seq<Message>, r: Reception, s: Reception)
    requires ReceptionOk(env, messages, r) && r.end.Running? && r.read <= s.read <= |messages|
    ensures forall i :: 0 <= i < |r.incoming| - (if r.file.Some? then 1 else 0) ==>
              Faithful(env, messages, s, r.incoming[i])
  {
    forall i | 0 <= i < |r.incoming| - (if r.file.Some? then 1 else 0)
      ensures Faithful(env, messages, s, r.incoming[i])
    {
      EndsBefore(r, i);
      hide Faithful;
      FaithfulStays(env, messages, r, s, r.incoming[i]);
    }
  }

  lemma {:induction false} EndsBefore(r: Reception, i: nat)
    requires InOrder(r.incoming, r.read) && OthersEnded(r)
    requires i < |r.incoming| - (if r.file.Some? then 1 else 0)
    ensures r.incoming[i].header + 1 + |r.incoming[i].data| < r.read
    decreases |r.incoming| - i
  {
    if i < |r.incoming| - 1 {
      assert r.incoming[i].header + |r.incoming[i].data| < r.incoming[i + 1].header;
      if i + 1 < |r.incoming| - (if r.file.Some? then 1 else 0) {
        EndsBefore(r, i + 1);
      }
    }
  }

  /** A text that opens no file. */
  lemma SkippedOk(env: Env, messages: seq<Message>, r: Reception, s: Reception)
    requires ReceptionOk(env, messages, r) && r.end.Running? && r.file.None? && r.read < |messages|
    requires s.incoming == r.incoming && s.file.None? && s.read == r.read + 1
    ensures ReceptionOk(env, messages, s)
  {
    AllFaithfulStay(env, messages, r, s);
    hide Faithful;
  }

  lemma HeaderOk(env: Env, messages: seq<Message>, r: Reception)
    requires ReceptionOk(env, messages, r) && r.end.Running? && r.file.None? && r.read < |messages|
    requires messages[r.read].isString
    ensures var s := OnHeader(env, r, messages[r.read]);
            ReceptionOk(env, messages, s.(read := r.read + 1))
  {
    var s := OnHeader(env, r, messages[r.read]).(read := r.read + 1);
    if s.file.None? {
      SkippedOk(env, messages, r, s);
    } else {
      AllFaithfulStay(env, messages, r, s);
      var f := s.incoming[|r.incoming|];
      assert Faithful(env, messages, s, f);
      hide Faithful;
    }
  }

  lemma ConcatLonger(data: seq<bytes>, more: bytes)
    ensures Concat(data + [more]) == Concat(data) + more
  {
    var all := data + [more];
    assert all[..|all| - 1] == data;
  }

  lemma LastFaithful(env: Env, messages: seq<Message>, r: Reception, s: Reception)
    requires ReceptionOk(env, messages, r) && r.file.Some? && r.read < |messages| && s.read == r.read + 1
    requires s.incoming == Forwarded(r.incoming, messages[r.read].data) && !messages[r.read].isString
    requires r.file.value.received + |messages[r.read].data| <= r.file.value.size
    ensures Faithful(env, messages, s, s.incoming[|r.incoming| - 1])
  {
    var n := |r.incoming| - 1;
    var data := messages[r.read].data;
    assert Faithful(env, messages, r, r.incoming[n]);
    ConcatLonger(r.incoming[n].data, data);
    assert messages[r.read] == Message(false, data);
  }

  lemma BinaryExtends(env: Env, out: Outside, messages: seq<Message>, r: Reception)
    requires ReceptionOk(env, messages, r) && r.end.Running? && r.file.Some? && r.read < |messages|
    requires !messages[r.read].isString && OnBinary(out, r, messages[r.read].data).file.Some?
    ensures var s := OnBinary(out, r, messages[r.read].data);
            ReceptionOk(env, messages, s.(read := r.read + 1))
  {
    var data := messages[r.read].data;
    var s := OnBinary(out, r, data).(read := r.read + 1);
    var n := |r.incoming| - 1;
    AllFaithfulStay(env, messages, r, s);
    LastFaithful(env, messages, r, s);
    ConcatLonger(r.incoming[n].data, data);
    hide Faithful, Concat;
    assert forall i :: 0 <= i < n ==> s.incoming[i] == r.incoming[i];
  }

  /** The file is dropped with the message that exceeds its size, or that the application refuses. */
  lemma BinaryDrops(env: Env, out: Outside, messages: seq<Message>, r: Reception)
    requires ReceptionOk(env, messages, r) && r.end.Running? && r.file.Some? && r.read < |messages|
    requires !messages[r.read].isString && OnBinary(out, r, messages[r.read].data).file.None?
    ensures var s := OnBinary(out, r, messages[r.read].data);
            ReceptionOk(env, messages, s.(read := r.read + 1))
  {
    var s := OnBinary(out, r, messages[r.read].data).(read := r.read + 1);
    AllFaithfulStay(env, messages, r, s);
    DroppedIsFaithful(env, out, messages, r, s);
    hide Faithful, Concat, SizeOf;
  }

  lemma DroppedIsFaithful(env: Env, out: Outside, messages: seq<Message>, r: Reception, s: Reception)
    requires ReceptionOk(env, messages, r) && r.end.Running? && r.file.Some? && r.read < |messages|
    requires !messages[r.read].isString && OnBinary(out, r, messages[r.read].data).file.None?
    requires s == OnBinary(out, r, messages[r.read].data).(read := r.read + 1)
    ensures s.incoming == r.incoming && Faithful(env, messages, s, r.incoming[|r.incoming| - 1])
  {
    assert Faithful(env, messages, r, r.incoming[|r.incoming| - 1]);
    hide SizeOf, Concat, InOrder, OthersEnded;
  }

  /** The open file ends with the text that is read next. */
  lemma TextEndsFile(env: Env, messages: seq<Message>, r: Reception, s: Reception)
    requires ReceptionOk(env, messages, r) && r.end.Running? && r.file.Some? && r.read < |messages|
    requires messages[r.read].isString && s.incoming == r.incoming && s.file.None? && s.read == r.read + 1
    ensures ReceptionOk(env, messages, s)
  {
    AllFaithfulStay(env, messages, r, s);
    var n := |r.incoming| - 1;
    assert Faithful(env, messages, s, s.incoming[n]) by {
      assert Faithful(env, messages, r, r.incoming[n]);
    }
    hide Faithful;
  }

  /** The same text opens the next one. */
  lemma TextOpensFile(env: Env, messages: seq<Message>, r: Reception, s: Reception, f: Incoming)
    requires ReceptionOk(env, messages, r) && r.end.Running? && r.file.None? && r.incoming != []
    requires f.header == r.read - 1 && f.data == [] && messages[f.header].isString && f.id in env.tokens
    requires env.codec.parse(messages[f.header].data) == Some(Header(f.id, env.tokens[f.id]))
    requires s.incoming == r.incoming + [f] && s.read == r.read && s.end.Running? && s.file.Some?
    requires SizeOf(env.files, f.id) == Some(s.file.value.size) && s.file.value == FileState(f.id, s.file.value.size, 0)
    requires forall i :: 0 <= i < |r.incoming| ==> r.incoming[i].header + |r.incoming[i].data| < f.header
    ensures ReceptionOk(env, messages, s)
  {
    AllFaithfulStay(env, messages, r, s);
    assert Faithful(env, messages, s, f);
    hide Faithful;
  }

  lemma TextOk(env: Env, out: Outside, messages: seq<Message>, r: Reception)
    requires ReceptionOk(env, messages, r) && r.end.Running? && r.file.Some? && r.read < |messages|
    requires messages[r.read].isString
    ensures ReceptionOk(env, messages, OnMessage(env, out, r, messages[r.read]))
  {
    var s := OnMessage(env, out, r, messages[r.read]);
    if s.file.None? {
      hide ReceptionOk;
      TextEndsFile(env, messages, r, s);
    } else {
      var closed := r.(file := None, read := r.read + 1);
      TextEndsFile(env, messages, r, closed);
      FilesEnded(env, messages, r);
      hide ReceptionOk, InOrder;
      TextOpensFile(env, messages, closed, s, s.incoming[|r.incoming|]);
    }
  }

  lemma FilesEnded(env: Env, messages: seq<Message>, r: Reception)
    requires ReceptionOk(env, messages, r) && r.file.Some?
    ensures forall i :: 0 <= i < |r.incoming| ==> r.incoming[i].header + |r.incoming[i].data| < r.read
  {
    hide Faithful;
    forall i | 0 <= i < |r.incoming| - 1 ensures r.incoming[i].header + |r.incoming[i].data| < r.read {
      EndsBefore(r, i);
    }
  }

  lemma MessageOk(env: Env, out: Outside, messages: seq<Message>, r: Reception)
    requires ReceptionOk(env, messages, r) && r.end.Running? && r.read < |messages|
    ensures ReceptionOk(env, messages, OnMessage(env, out, r, messages[r.read]))
  {
    hide ReceptionOk, OnHeader, OnText, OnBinary;
    var m := messages[r.read];
    if m.isString {
      if r.file.None? {
        TextIsHeader(env, out, r, m);
        HeaderOk(env, messages, r);
      } else {
        TextOk(env, out, messages, r);
      }
    } else if r.file.None? {
      BinaryWithoutFile(out, r, m.data);
      SkippedOk(env, messages, r, OnMessage(env, out, r, m));
    } else if OnBinary(out, r, m.data).file.Some? {
      BinaryExtends(env, out, messages, r);
    } else {
      BinaryDrops(env, out, messages, r);
    }
  }

  lemma TextIsHeader(env: Env, out: Outside, r: Reception, m: Message)
    requires r.file.None?
    ensures OnText(env, out, r, m) == OnHeader(env, r, m)
  {
  }

  lemma BinaryWithoutFile(out: Outside, r: Reception, data: bytes)
    requires r.file.None?
    ensures OnBinary(out, r, data) == r.(errors := r.errors + [NoHeader])
  {
  }

  lemma {:induction false} ReceivedOk(env: Env, out: Outside, messages: seq<Message>, r: Reception)
    requires ReceptionOk(env, messages, r)
    ensures ReceptionOk(env, messages, Received(env, out, r, messages[r.read..]))
    decreases |messages| - r.read
  {
    hide ReceptionOk, OnMessage;
    assert r.read <= |messages| by { ReadInside(env, messages, r); }
    if r.read < |messages| && r.end.Running? {
      MessageOk(env, out, messages, r);
      var s := OnMessage(env, out, r, messages[r.read]);
      ReadsOne(env, out, r, messages[r.read]);
      assert messages[r.read..][1..] == messages[s.read..];
      ReceivedOk(env, out, messages, s);
    }
  }

  lemma ReadInside(env: Env, messages: seq<Message>, r: Reception)
    requires ReceptionOk(env, messages, r)
    ensures r.read <= |messages|
  {
  }

  lemma ReadsOne(env: Env, out: Outside, r: Reception, m: Message)
    ensures OnMessage(env, out, r, m).read == r.read + 1
  {
  }

  /**
   * Whatever the sender sends and however the application behaves, every file the application sees is
   * faithful to the stream, and the files come from disjoint stretches of it, in order.
   */
  lemma ReceiverIsBounded(env: Env, out: Outside, messages: seq<Message>)
    ensures var r := Received(env, out, START, messages);
            && (forall i :: 0 <= i < |r.incoming| ==> Faithful(env, messages, r, r.incoming[i]))
            && (forall i :: 0 <= i < |r.incoming| - 1 ==>
                  r.incoming[i].header + |r.incoming[i].data| < r.incoming[i + 1].header)
  {
    assert messages[0..] == messages;
    ReceivedOk(env, out, messages, START);
  }
}
