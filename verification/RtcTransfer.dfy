/** The sender's stream run into the receiver's loop. */
module RtcTransfer {
  import opened Bytes
  import opened RtcChunks
  import opened RtcFiles

  /** Responses are sent and the application takes all data. */
  ghost predicate Kind(out: Outside)
  {
    forall k :: out.responseSent(k) && out.takes(k)
  }

  lemma {:induction false} ReceivedAppend(env: Env, out: Outside, r: Reception, a: seq<Message>, b: seq<Message>)
    ensures Received(env, out, r, a + b) == Received(env, out, Received(env, out, r, a), b)
    decreases |a|
  {
    hide OnMessage;
    if a == [] || !r.end.Running? {
      assert a == [] ==> a + b == b;
    } else {
      assert (a + b)[1..] == a[1..] + b;
      ReceivedAppend(env, out, OnMessage(env, out, r, a[0]), a[1..], b);
    }
  }

  // ---- One file ----

  /** The first chunks that together fit in `room`. */
  function Taken(chunks: seq<bytes>, room: nat): seq<bytes>
  {
    if chunks == [] || |chunks[0]| > room then [] else [chunks[0]] + Taken(chunks[1..], room - |chunks[0]|)
  }

  lemma {:induction false} TakenIsPart(chunks: seq<bytes>, room: nat)
    ensures Taken(chunks, room) <= chunks
    ensures |Concat(Taken(chunks, room))| <= room && Concat(Taken(chunks, room)) <= Concat(chunks)
    ensures |Concat(chunks)| <= room <==> Taken(chunks, room) == chunks
    decreases |chunks|
  {
    if chunks != [] {
      ConcatFirst(chunks);
      if |chunks[0]| <= room {
        TakenIsPart(chunks[1..], room - |chunks[0]|);
        ConcatFirst(Taken(chunks, room));
        assert chunks == [chunks[0]] + chunks[1..];
      }
    }
  }

  lemma {:induction false} BinariesWithoutFile(env: Env, out: Outside, r: Reception, chunks: seq<bytes>)
    requires r.end.Running? && r.file.None?
    ensures var q := Received(env, out, r, Binaries(chunks));
            && q.end.Running? && q.file.None? && q.read == r.read + |chunks|
            && q.incoming == r.incoming && q.responses == r.responses
    decreases |chunks|
  {
    if chunks != [] {
      var messages := Binaries(chunks);
      assert messages[1..] == Binaries(chunks[1..]);
      BinariesWithoutFile(env, out, OnMessage(env, out, r, messages[0]), chunks[1..]);
    }
  }

  /** `q` is `r` after `data` went to the open file. */
  predicate Grown(r: Reception, q: Reception, data: seq<bytes>)
  {
    && r.incoming != [] && |q.incoming| == |r.incoming| && q.responses == r.responses
    && q.incoming[..|r.incoming| - 1] == r.incoming[..|r.incoming| - 1]
    && var last := r.incoming[|r.incoming| - 1];
       q.incoming[|r.incoming| - 1] == last.(data := last.data + data)
  }

  lemma OneBinary(env: Env, out: Outside, r: Reception, data: bytes)
    requires out.takes(r.read) && r.end.Running? && r.file.Some?
    ensures var f := r.file.value;
            var q := OnMessage(env, out, r, Message(false, data));
            && q.end.Running? && q.read == r.read + 1 && q.responses == r.responses
            && if f.received + |data| <= f.size then
                 q.file == Some(f.(received := f.received + |data|)) && q.incoming == Forwarded(r.incoming, data)
               else q.file.None? && q.incoming == r.incoming
  {
  }

  /** `q` is `r` after the chunks were read into the open file, as far as they fit. */
  predicate TookChunks(r: Reception, q: Reception, chunks: seq<bytes>)
    requires r.file.Some? && r.file.value.received <= r.file.value.size
  {
    var f := r.file.value;
    && q.end.Running? && q.read == r.read + |chunks|
    && Grown(r, q, Taken(chunks, f.size - f.received))
    && q.file == if f.received + |Concat(chunks)| <= f.size
                 then Some(f.(received := f.received + |Concat(chunks)|)) else None
  }

  lemma {:induction false} BinariesReceived(env: Env, out: Outside, r: Reception, chunks: seq<bytes>)
    requires Kind(out) && r.end.Running? && r.incoming != []
    requires r.file.Some? && r.file.value.received <= r.file.value.size
    ensures TookChunks(r, Received(env, out, r, Binaries(chunks)), chunks)
    decreases |chunks|
  {
    if chunks == [] {
      GrownByNothing(r, r);
    } else {
      var first, rest := chunks[0], chunks[1..];
      var s := OnMessage(env, out, r, Message(false, first));
      OneBinary(env, out, r, first);
      FirstBinary(env, out, r, chunks);
      ForwardedKeeps(r.incoming, first);
      var q := Received(env, out, s, Binaries(rest));
      hide OnMessage, Concat, Binaries, Grown, Forwarded, Received, TookChunks;
      if |first| <= r.file.value.size - r.file.value.received {
        BinariesReceived(env, out, s, rest);
        TookFirstChunk(r, s, q, chunks);
      } else {
        BinariesWithoutFile(env, out, s, rest);
        DroppedAtFirstChunk(r, q, chunks);
      }
    }
  }

  lemma TookFirstChunk(r: Reception, s: Reception, q: Reception, chunks: seq<bytes>)
    requires chunks != [] && r.incoming != [] && r.file.Some?
    requires var f := r.file.value;
             && f.received + |chunks[0]| <= f.size
             && s.file == Some(f.(received := f.received + |chunks[0]|))
    requires s.incoming == Forwarded(r.incoming, chunks[0]) && s.responses == r.responses && s.read == r.read + 1
    requires TookChunks(s, q, chunks[1..])
    ensures TookChunks(r, q, chunks)
  {
    ConcatFirst(chunks);
    GrownAgain(r, s, q, chunks[0], Taken(chunks[1..], s.file.value.size - s.file.value.received));
    hide Grown, Forwarded, Concat;
  }

  lemma DroppedAtFirstChunk(r: Reception, q: Reception, chunks: seq<bytes>)
    requires chunks != [] && r.incoming != [] && r.file.Some? && r.file.value.received <= r.file.value.size
    requires r.file.value.received + |chunks[0]| > r.file.value.size
    requires q.end.Running? && q.read == r.read + |chunks| && q.file.None?
    requires q.incoming == r.incoming && q.responses == r.responses
    ensures TookChunks(r, q, chunks)
  {
    ConcatFirst(chunks);
    GrownByNothing(r, q);
    hide Grown, Concat;
  }

  lemma FirstBinary(env: Env, out: Outside, r: Reception, chunks: seq<bytes>)
    requires chunks != [] && r.end.Running?
    ensures Received(env, out, r, Binaries(chunks))
         == Received(env, out, OnMessage(env, out, r, Message(false, chunks[0])), Binaries(chunks[1..]))
  {
    hide OnMessage;
    assert Binaries(chunks)[1..] == Binaries(chunks[1..]);
  }

  lemma ForwardedKeeps(incoming: seq<Incoming>, data: bytes)
    ensures |Forwarded(incoming, data)| == |incoming|
  {
  }

  lemma GrownByNothing(r: Reception, q: Reception)
    requires r.incoming != [] && q.incoming == r.incoming && q.responses == r.responses
    ensures Grown(r, q, [])
  {
    var last := r.incoming[|r.incoming| - 1];
    assert last.data + [] == last.data;
  }

  lemma GrownAgain(r: Reception, s: Reception, q: Reception, first: bytes, more: seq<bytes>)
    requires r.incoming != [] && s.incoming == Forwarded(r.incoming, first) && s.responses == r.responses
    requires Grown(s, q, more)
    ensures Grown(r, q, [first] + more)
  {
    var last := r.incoming[|r.incoming| - 1];
    assert last.data + ([first] + more) == last.data + [first] + more;
  }

  predicate Fits(env: Env, o: Outgoing)
  {
    var size := SizeOf(env.files, o.id);
    size.Some? && |o.Content()| <= size.value
  }

  /** The file that ends with the next text, if any. */
  function Unanswered(r: Reception): seq<FileId>
  {
    if r.file.Some? then [r.file.value.id] else []
  }

  function Ids(responses: seq<Response>): seq<FileId>
  {
    seq(|responses|, i requires 0 <= i < |responses| => responses[i].id)
  }

  lemma HeaderReceived(env: Env, out: Outside, r: Reception, h: Header)
    requires env.codec.Lawful() && Kind(out) && r.end.Running? && Admit(env, h).Admitted?
    ensures var m := Message(true, env.codec.render(h));
            var q := OnMessage(env, out, r, m);
            && q.end.Running? && q.read == r.read + 1
            && q.incoming == r.incoming + [Incoming(h.id, r.read, [])]
            && q.file == Some(FileState(h.id, Admit(env, h).size, 0))
            && Ids(q.responses) == Ids(r.responses) + Unanswered(r)
  {
    assert env.codec.parse(env.codec.render(h)) == Some(h);
  }

  /** What the receiver makes of one file. */
  predicate TookFile(env: Env, r: Reception, q: Reception, o: Outgoing)
    requires SizeOf(env.files, o.id).Some?
  {
    && q.end.Running?
    && |q.incoming| == |r.incoming| + 1 && q.incoming[..|r.incoming|] == r.incoming
    && q.incoming[|r.incoming|]
       == Incoming(o.id, r.read, Taken(Chunks(o.Content()), SizeOf(env.files, o.id).value))
    && Ids(q.responses) == Ids(r.responses) + Unanswered(r)
    && Unanswered(q) == (if Fits(env, o) then [o.id] else [])
  }

  lemma FileReceived(env: Env, out: Outside, r: Reception, o: Outgoing)
    requires env.codec.Lawful() && Kind(out) && r.end.Running?
    requires o.id in env.tokens && SizeOf(env.files, o.id).Some?
    ensures var messages := FileMessages(env.codec, Header(o.id, env.tokens[o.id]), o.Content());
            var q := Received(env, out, r, messages);
            TookFile(env, r, q, o) && q.read == r.read + |messages|
  {
    hide OnMessage, Chunks, Concat, Taken, Binaries, Grown, TookFile, Unanswered, Ids, Admit;
    var h := Header(o.id, env.tokens[o.id]);
    var chunks := Chunks(o.Content());
    var messages := FileMessages(env.codec, h, o.Content());
    assert messages[1..] == Binaries(chunks);
    var s := OnMessage(env, out, r, messages[0]);
    assert Admit(env, h) == Admitted(SizeOf(env.files, o.id).value) by { SelectedIsAdmitted(env, h); }
    HeaderReceived(env, out, r, h);
    BinariesReceived(env, out, s, chunks);
    assert Concat(chunks) == o.Content() by { ChunksAreWellChunked(o.Content()); }
    TookAfterHeader(env, r, s, Received(env, out, s, Binaries(chunks)), o);
  }

  lemma SelectedIsAdmitted(env: Env, h: Header)
    requires h.id in env.tokens && env.tokens[h.id] == h.token && SizeOf(env.files, h.id).Some?
    ensures Admit(env, h) == Admitted(SizeOf(env.files, h.id).value)
  {
  }

  lemma TookAfterHeader(env: Env, r: Reception, s: Reception, q: Reception, o: Outgoing)
    requires SizeOf(env.files, o.id).Some? && q.end.Running?
    requires s.incoming == r.incoming + [Incoming(o.id, r.read, [])]
    requires Ids(s.responses) == Ids(r.responses) + Unanswered(r)
    requires Grown(s, q, Taken(Chunks(o.Content()), SizeOf(env.files, o.id).value))
    requires q.file.Some? <==> Fits(env, o)
    requires q.file.Some? ==> q.file.value.id == o.id
    ensures TookFile(env, r, q, o)
  {
    hide Taken, Chunks, Ids, Fits;
    assert s.incoming[..|r.incoming|] == r.incoming;
  }

  // ---- The whole stream ----

  function FittingIds(env: Env, files: seq<Outgoing>): seq<FileId>
  {
    if files == [] then []
    else
      var last := files[|files| - 1];
      FittingIds(env, files[..|files| - 1]) + (if Fits(env, last) then [last.id] else [])
  }

  predicate Announced(env: Env, files: seq<Outgoing>)
  {
    forall i :: 0 <= i < |files| ==> files[i].id in env.tokens && SizeOf(env.files, files[i].id).Some?
  }

  /** The files arrived in order, each as the chunks that fit its announced size. */
  predicate TookAll(env: Env, q: Reception, files: seq<Outgoing>)
    requires Announced(env, files)
  {
    && |q.incoming| == |files|
    && (forall i :: 0 <= i < |files| ==>
          && q.incoming[i].id == files[i].id
          && q.incoming[i].data == Taken(Chunks(files[i].Content()), SizeOf(env.files, files[i].id).value))
    && Ids(q.responses) + Unanswered(q) == FittingIds(env, files)
    && Unanswered(q) == (if files != [] && Fits(env, files[|files| - 1]) then [files[|files| - 1].id] else [])
  }

  lemma {:induction false} StreamReceived(env: Env, out: Outside, files: seq<Outgoing>)
    requires env.codec.Lawful() && Kind(out) && Announced(env, files)
    ensures var stream := Stream(env.codec, env.tokens, files);
            var q := Received(env, out, START, stream);
            q.end.Running? && q.read == |stream| && TookAll(env, q, files)
    decreases |files|
  {
    if files != [] {
      var n := |files| - 1;
      StreamReceived(env, out, files[..n]);
      var front := Stream(env.codec, env.tokens, files[..n]);
      var messages := FileMessages(env.codec, Header(files[n].id, env.tokens[files[n].id]), files[n].Content());
      var r := Received(env, out, START, front);
      ReceivedAppend(env, out, START, front, messages);
      FileReceived(env, out, r, files[n]);
      hide Received, FileMessages, Taken, Chunks, Fits;
      TookOneMore(env, r, Received(env, out, r, messages), files);
    }
  }

  lemma TookOneMore(env: Env, r: Reception, q: Reception, files: seq<Outgoing>)
    requires Announced(env, files) && files != [] && TookAll(env, r, files[..|files| - 1])
    requires TookFile(env, r, q, files[|files| - 1])
    ensures TookAll(env, q, files)
  {
    hide Taken, Chunks, Fits, Ids;
    var n := |files| - 1;
    forall i | 0 <= i < |files|
      ensures q.incoming[i].id == files[i].id
      ensures q.incoming[i].data == Taken(Chunks(files[i].Content()), SizeOf(env.files, files[i].id).value)
    {
      if i < n {
        assert q.incoming[i] == q.incoming[..n][i] == r.incoming[i];
        assert files[..n][i] == files[i];
      }
    }
  }

  lemma DelimiterReceived(env: Env, out: Outside, r: Reception, rest: seq<Message>)
    requires env.codec.Lawful() && Kind(out) && r.end.Running?
    ensures var q := Received(env, out, r, [DELIMITER] + rest);
            && q.end == (if r.file.Some? then Done else Failed)
            && q.read == r.read + 1 && q.incoming == r.incoming
            && Ids(q.responses) == Ids(r.responses) + Unanswered(r)
  {
    var messages := [DELIMITER] + rest;
    assert messages[0] == DELIMITER && messages[1..] == rest;
    var q := OnMessage(env, out, r, DELIMITER);
    assert !q.end.Running?;
    assert Received(env, out, q, rest) == q;
  }

  /** One file for each file sent, in order, with its bytes as far as they fit; those that fit are answered. */
  predicate Transferred(env: Env, files: seq<Outgoing>, q: Reception)
    requires Announced(env, files)
  {
    && |q.incoming| == |files|
    && (forall i :: 0 <= i < |files| ==>
          && q.incoming[i].id == files[i].id
          && if Fits(env, files[i]) then Concat(q.incoming[i].data) == files[i].Content()
             else Concat(q.incoming[i].data) < files[i].Content())
    && Ids(q.responses) == FittingIds(env, files)
    && q.end == (if files != [] && Fits(env, files[|files| - 1]) then Done else Failed)
  }

  /**
   * An honest run: one file opens at the receiver for each file sent, in order. It gets exactly the bytes
   * sent if they fit the announced size, else a shorter beginning of them, which changes no other file.
   * The receiver reads up to the delimiter and answers every file that fitted. It ends well if and only if
   * some file was sent and the last one fitted: otherwise it takes the delimiter for a header.
   */
  lemma HonestTransfer(env: Env, out: Outside, files: seq<Outgoing>, rest: seq<Message>)
    requires env.codec.Lawful() && Kind(out) && Announced(env, files)
    ensures var stream := Stream(env.codec, env.tokens, files);
            var q := Received(env, out, START, stream + ([DELIMITER] + rest));
            Transferred(env, files, q) && q.read == |stream| + 1
  {
    var stream := Stream(env.codec, env.tokens, files);
    var r := Received(env, out, START, stream);
    StreamReceived(env, out, files);
    ReceivedAppend(env, out, START, stream, [DELIMITER] + rest);
    DelimiterReceived(env, out, r, rest);
    hide Received, Stream, Ids, FittingIds;
    forall i | 0 <= i < |files|
      ensures if Fits(env, files[i]) then Concat(r.incoming[i].data) == files[i].Content()
              else Concat(r.incoming[i].data) < files[i].Content()
    {
      PartThatFits(env, files[i]);
    }
    hide Concat, Chunks, Taken, Fits;
  }

  lemma PartThatFits(env: Env, o: Outgoing)
    requires SizeOf(env.files, o.id).Some?
    ensures var data := Taken(Chunks(o.Content()), SizeOf(env.files, o.id).value);
            if Fits(env, o) then Concat(data) == o.Content() else Concat(data) < o.Content()
  {
    ChunksAreWellChunked(o.Content());
    TakenIsPart(Chunks(o.Content()), SizeOf(env.files, o.id).value);
  }

  // ---- From the sender's channel to the receiver's files ----

  lemma {:induction false} NothingEmpty(codec: Codec, fileMap: map<FileId, Token>, files: seq<Outgoing>)
    requires codec.Lawful() && forall i :: 0 <= i < |files| ==> files[i].id in fileMap
    ensures forall k :: 0 <= k < |Stream(codec, fileMap, files)| ==> Stream(codec, fileMap, files)[k].data != []
  {
    if files != [] {
      var last := files[|files| - 1];
      NothingEmpty(codec, fileMap, files[..|files| - 1]);
      ChunksAreWellChunked(last.Content());
      var header := Header(last.id, fileMap[last.id]);
      assert |codec.render(header)| > 1;
      hide Chunks, Concat;
    }
  }

  lemma AllArrives(codec: Codec, fileMap: map<FileId, Token>, files: seq<Outgoing>, sent: seq<Message>)
    requires codec.Lawful() && forall i :: 0 <= i < |files| ==> files[i].id in fileMap
    requires sent == Stream(codec, fileMap, files) + [DELIMITER]
    ensures Delivered(sent) == sent
  {
    NothingEmpty(codec, fileMap, files);
    hide Stream, Delivered;
    NothingSwallowed(sent);
  }

  lemma {:induction false} OnlyMissingTokens(outcomes: seq<Option<SendError>>)
    requires forall k :: 0 <= k < |Reported(outcomes)| ==> Reported(outcomes)[k].NoToken?
    ensures forall i :: 0 <= i < |outcomes| ==> outcomes[i].None? || outcomes[i].value.NoToken?
  {
    if outcomes != [] {
      var front, last := outcomes[..|outcomes| - 1], outcomes[|outcomes| - 1];
      assert Reported(outcomes) == Reported(front) + (if last.Some? then [last.value] else []);
      forall k | 0 <= k < |Reported(front)| ensures Reported(front)[k].NoToken? {
        assert Reported(outcomes)[k] == Reported(front)[k];
      }
      assert last.Some? ==> Reported(outcomes)[|Reported(front)|] == last.value;
      OnlyMissingTokens(front);
      forall i | 0 <= i < |outcomes| ensures outcomes[i].None? || outcomes[i].value.NoToken? {
        assert i < |front| ==> front[i] == outcomes[i];
      }
    }
  }

  /**
   * From sender to receiver: when the sending loop (`SendFiles`) ends well and reports nothing but missing
   * tokens, what its channel sent, through a transport that swallows empty messages, transfers exactly the
   * files that have a token.
   */
  lemma SentIsTransferred(
    env: Env, out: Outside, queue: seq<Outgoing>, sent: seq<Message>, errors: seq<SendError>,
    parts: seq<seq<Message>>, outcomes: seq<Option<SendError>>, rest: seq<Message>)
    requires env.codec.Lawful() && Kind(out)
    requires forall o <- queue :: o.id in env.tokens ==> SizeOf(env.files, o.id).Some?
    requires |parts| == |outcomes| == |queue|
    requires forall i :: 0 <= i < |queue| ==> Accounted(env.codec, env.tokens, queue[i], parts[i], outcomes[i])
    requires errors == Reported(outcomes) && forall k :: 0 <= k < |errors| ==> errors[k].NoToken?
    requires sent == Flatten(parts) + [DELIMITER]
    ensures var files := Selected(env.tokens, queue);
            var q := Received(env, out, START, Delivered(sent) + rest);
            Announced(env, files) && Transferred(env, files, q) && q.read == |sent|
  {
    var files := Selected(env.tokens, queue);
    SelectedAreAnnounced(env, queue);
    OnlyMissingTokens(outcomes);
    NoFailureSendsSelected(env.codec, env.tokens, queue, parts, outcomes);
    hide *;
    StreamIsTransferred(env, out, files, sent, rest);
  }

  lemma StreamIsTransferred(env: Env, out: Outside, files: seq<Outgoing>, sent: seq<Message>, rest: seq<Message>)
    requires env.codec.Lawful() && Kind(out) && Announced(env, files)
    requires sent == Stream(env.codec, env.tokens, files) + [DELIMITER]
    ensures var q := Received(env, out, START, Delivered(sent) + rest);
            Transferred(env, files, q) && q.read == |sent|
  {
    assert DELIMITER.data != [];
    AllArrives(env.codec, env.tokens, files, sent);
    HonestTransfer(env, out, files, rest);
    hide Received, Stream, Delivered, Transferred;
    assert sent + rest == Stream(env.codec, env.tokens, files) + ([DELIMITER] + rest);
  }

  lemma {:induction false} SelectedAreAnnounced(env: Env, queue: seq<Outgoing>)
    requires forall o <- queue :: o.id in env.tokens ==> SizeOf(env.files, o.id).Some?
    ensures Announced(env, Selected(env.tokens, queue))
  {
    hide SizeOf;
    if queue != [] {
      SelectedAreAnnounced(env, queue[..|queue| - 1]);
      assert queue[|queue| - 1] in queue;
    }
  }
}
