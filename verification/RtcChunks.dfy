/** Cutting byte streams into data channel messages, and strings sent that way. */
module RtcChunks {
  import opened Bytes

  const CHUNK_SIZE: nat := 16 * 1024

  datatype Message = Message(isString: bool, data: bytes)

  /** Empty messages do not reach the other peer, so the end of a string is marked by a text of one byte. */
  const DELIMITER := Message(true, [48])

  predicate IsDelimiter(m: Message)
  {
    m.isString && |m.data| <= 1
  }

  /** The sending side of a data channel. */
  class DataChannel {
    var sent: seq<Message>
    var refused: nat                              // sends that failed

    constructor ()
      ensures sent == [] && refused == 0
    {
      sent, refused := [], 0;
    }

    /** Any send may fail. */
    method Send(m: Message) returns (ok: bool)
      modifies this
      ensures sent == if ok then old(sent) + [m] else old(sent)
      ensures refused == if ok then old(refused) else old(refused) + 1
    {
      ok := *;
      if ok {
        sent := sent + [m];
      } else {
        refused := refused + 1;
      }
    }
  }

  /** The receiving side: messages in the order they were sent, until the channel is closed. */
  class Receiver {
    var messages: seq<Message>

    constructor (messages: seq<Message>)
      ensures this.messages == messages
    {
      this.messages := messages;
    }

    method Recv() returns (m: Option<Message>)
      modifies this
      ensures old(messages) == [] ==> m == None && messages == []
      ensures old(messages) != [] ==> m == Some(old(messages)[0]) && messages == old(messages)[1..]
    {
      if messages == [] {
        m := None;
      } else {
        m := Some(messages[0]);
        messages := messages[1..];
      }
    }
  }

  // ---- Chunks ----

  function Chunks(input: bytes): seq<bytes>
    decreases |input|
  {
    if input == [] then []
    else if |input| < CHUNK_SIZE then [input]
    else [input[..CHUNK_SIZE]] + Chunks(input[CHUNK_SIZE..])
  }

  /** Full chunks, the last of which may be shorter; none is empty. */
  predicate WellChunked(chunks: seq<bytes>)
  {
    && (forall i :: 0 <= i < |chunks| ==> 0 < |chunks[i]| <= CHUNK_SIZE)
    && (forall i :: 0 <= i < |chunks| - 1 ==> |chunks[i]| == CHUNK_SIZE)
  }

  lemma {:induction false} ChunksAreWellChunked(input: bytes)
    ensures WellChunked(Chunks(input)) && Concat(Chunks(input)) == input
    decreases |input|
  {
    if input != [] {
      if |input| < CHUNK_SIZE {
        ConcatFirst([input]);
      } else {
        ChunksAreWellChunked(input[CHUNK_SIZE..]);
        ConcatFirst(Chunks(input));
        assert input == input[..CHUNK_SIZE] + input[CHUNK_SIZE..];
      }
    }
  }

  /** There is no other way to cut the input like that. */
  lemma {:induction false} OneWayToCut(chunks: seq<bytes>)
    requires WellChunked(chunks)
    ensures Chunks(Concat(chunks)) == chunks
    decreases |chunks|
  {
    if chunks != [] {
      var first, rest := chunks[0], chunks[1..];
      assert WellChunked(rest);
      OneWayToCut(rest);
      ConcatFirst(chunks);
      var input := Concat(chunks);
      assert input != [] && input == first + Concat(rest);
      if |first| == CHUNK_SIZE {
        assert input[..CHUNK_SIZE] == first && input[CHUNK_SIZE..] == Concat(rest);
      } else {
        assert rest == [] && input == first;
      }
      assert chunks == [first] + rest;
    }
  }

  /** Full chunks in front stay as they are. */
  lemma {:induction false} ChunksAfterFull(full: seq<bytes>, rest: bytes)
    requires forall i :: 0 <= i < |full| ==> |full[i]| == CHUNK_SIZE
    ensures Chunks(Concat(full) + rest) == full + Chunks(rest)
  {
    ChunksAreWellChunked(rest);
    ConcatSplit(full, Chunks(rest));
    var all := full + Chunks(rest);
    OneWayToCut(all);
  }

  function Binaries(chunks: seq<bytes>): (messages: seq<Message>)
    ensures |messages| == |chunks|
    ensures forall i :: 0 <= i < |chunks| ==> messages[i] == Message(false, chunks[i])
  {
    seq(|chunks|, i requires 0 <= i < |chunks| => Message(false, chunks[i]))
  }

  /** A proper part of `whole`, from its beginning, was sent. */
  predicate PartSent(before: seq<Message>, after: seq<Message>, whole: seq<Message>)
  {
    && |before| <= |after| < |before| + |whole|
    && after == before + whole[..|after| - |before|]
  }

  /** The full chunks `out` and then `buffer` make up the stream. */
  predicate Cut(out: seq<bytes>, buffer: bytes, stream: bytes)
  {
    (forall i :: 0 <= i < |out| ==> |out[i]| == CHUNK_SIZE) && Concat(out) + buffer == stream
  }

  lemma CutGrows(out: seq<bytes>, buffer: bytes, incoming: seq<bytes>, k: nat)
    requires k < |incoming| && Cut(out, buffer, Concat(incoming[..k]))
    ensures Cut(out, buffer + incoming[k], Concat(incoming[..k + 1]))
  {
    ConcatAppend(incoming, k);
  }

  lemma CutAgain(out: seq<bytes>, buffer: bytes, stream: bytes)
    requires Cut(out, buffer, stream) && |buffer| >= CHUNK_SIZE
    ensures Cut(out + [buffer[..CHUNK_SIZE]], buffer[CHUNK_SIZE..], stream)
  {
    var more := out + [buffer[..CHUNK_SIZE]];
    ConcatAppend(more, |out|);
    assert more[..|out|] == out && more[..|more|] == more;
    assert buffer == buffer[..CHUNK_SIZE] + buffer[CHUNK_SIZE..];
  }

  lemma CutToEnd(out: seq<bytes>, buffer: bytes, stream: bytes)
    requires Cut(out, buffer, stream) && |buffer| < CHUNK_SIZE
    ensures Chunks(stream) == out + (if buffer == [] then [] else [buffer])
  {
    ChunksAfterFull(out, buffer);
  }

  /** Full chunks taken from the beginning of the stream are the first of all chunks. */
  lemma CutIsPart(out: seq<bytes>, buffer: bytes, incoming: seq<bytes>, k: nat)
    requires k <= |incoming| && Cut(out, buffer, Concat(incoming[..k]))
    ensures |out| <= |Chunks(Concat(incoming))| && out == Chunks(Concat(incoming))[..|out|]
  {
    var rest := Concat(incoming[k..]);
    assert incoming == incoming[..k] + incoming[k..];
    ConcatSplit(incoming[..k], incoming[k..]);
    assert Concat(incoming) == Concat(out) + (buffer + rest);
    ChunksAfterFull(out, buffer + rest);
  }

  /**
   * Sends the incoming buffers as one stream. What is sent depends on their concatenation only; on a
   * failed send a proper part of it, from the beginning, was sent.
   */
  method ProcessInChunks(channel: DataChannel, incoming: seq<bytes>) returns (ok: bool)
    modifies channel
    ensures var whole := Binaries(Chunks(Concat(incoming)));
            if ok then channel.sent == old(channel.sent) + whole else PartSent(old(channel.sent), channel.sent, whole)
    ensures channel.refused == if ok then old(channel.refused) else old(channel.refused) + 1
  {
    hide Concat, Cut, Chunks;
    ghost var whole := Binaries(Chunks(Concat(incoming)));
    ghost var out: seq<bytes> := [];
    var buffer: bytes := [];
    var k := 0;
    assert Cut(out, buffer, Concat(incoming[..k])) by { NothingYet(incoming); }
    while k < |incoming|
      invariant 0 <= k <= |incoming|
      invariant |buffer| < CHUNK_SIZE && Cut(out, buffer, Concat(incoming[..k]))
      invariant channel.sent == old(channel.sent) + Binaries(out) && channel.refused == old(channel.refused)
    {
      CutGrows(out, buffer, incoming, k);
      buffer := buffer + incoming[k];
      k := k + 1;
      while |buffer| >= CHUNK_SIZE
        invariant Cut(out, buffer, Concat(incoming[..k]))
        invariant channel.sent == old(channel.sent) + Binaries(out) && channel.refused == old(channel.refused)
        decreases |buffer|
      {
        var chunk := buffer[..CHUNK_SIZE];
        CutAgain(out, buffer, Concat(incoming[..k]));
        CutIsPart(out + [chunk], buffer[CHUNK_SIZE..], incoming, k);
        buffer := buffer[CHUNK_SIZE..];
        ok := channel.Send(Message(false, chunk));
        if !ok {
          assert Binaries(out) == whole[..|out|];
          return;
        }
        out := out + [chunk];
      }
    }
    assert incoming[..k] == incoming;
    CutToEnd(out, buffer, Concat(incoming));
    ok := true;
    if buffer != [] {
      ok := channel.Send(Message(false, buffer));
      assert Binaries(out) == whole[..|out|];
    }
  }

  lemma NothingYet(incoming: seq<bytes>)
    ensures Cut([], [], Concat(incoming[..0]))
  {
  }

  // ---- Strings ----

  /** A string as it travels: chunks, then the delimiter. */
  function Framed(text: bytes): seq<Message>
  {
    Binaries(Chunks(text)) + [DELIMITER]
  }

  method SendStringInChunks(channel: DataChannel, text: bytes) returns (ok: bool)
    modifies channel
    ensures var whole := Binaries(Chunks(text));
            if ok then channel.sent == old(channel.sent) + whole else PartSent(old(channel.sent), channel.sent, whole)
    ensures channel.refused == if ok then old(channel.refused) else old(channel.refused) + 1
  {
    ConcatFirst([text]);
    assert Concat([text]) == text;
    ok := ProcessInChunks(channel, [text]);
  }

  /** A string and its delimiter. */
  method SendFramed(channel: DataChannel, text: bytes) returns (ok: bool)
    modifies channel
    ensures var whole := Framed(text);
            if ok then channel.sent == old(channel.sent) + whole else PartSent(old(channel.sent), channel.sent, whole)
    ensures channel.refused == if ok then old(channel.refused) else old(channel.refused) + 1
  {
    ok := SendStringInChunks(channel, text);
    if ok {
      ok := channel.Send(DELIMITER);
    }
  }

  /** The bytes before the first text message. */
  function TextOf(messages: seq<Message>): bytes
  {
    if messages == [] || messages[0].isString then [] else messages[0].data + TextOf(messages[1..])
  }

  /** The messages after the first text message. */
  function Behind(messages: seq<Message>): seq<Message>
  {
    if messages == [] then [] else if messages[0].isString then messages[1..] else Behind(messages[1..])
  }

  function DataOf(messages: seq<Message>): (data: seq<bytes>)
    ensures |data| == |messages| && forall i :: 0 <= i < |messages| ==> data[i] == messages[i].data
  {
    seq(|messages|, i requires 0 <= i < |messages| => messages[i].data)
  }

  /** What is read is made of the messages before the first text, or of all when there is none. */
  lemma {:induction false} ReadsUpToText(messages: seq<Message>, k: nat)
    requires k <= |messages| && (forall i :: 0 <= i < k ==> !messages[i].isString)
    requires k < |messages| ==> messages[k].isString
    ensures TextOf(messages) == Concat(DataOf(messages[..k]))
    ensures Behind(messages) == if k < |messages| then messages[k + 1..] else []
    decreases k
  {
    if k == 0 {
      assert Concat(DataOf(messages[..k])) == [];
    } else {
      ReadsUpToText(messages[1..], k - 1);
      var data := DataOf(messages[..k]);
      ConcatFirst(data);
      assert data[1..] == DataOf(messages[1..][..k - 1]);
      assert k < |messages| ==> messages[1..][k..] == messages[k + 1..];
      hide Concat, DataOf;
    }
  }

  method ReceiveStringFromChunks(rx: Receiver) returns (text: bytes)
    modifies rx
    ensures text == TextOf(old(rx.messages)) && rx.messages == Behind(old(rx.messages))
  {
    text := [];
    while rx.messages != []
      invariant TextOf(old(rx.messages)) == text + TextOf(rx.messages)
      invariant Behind(old(rx.messages)) == Behind(rx.messages)
      decreases |rx.messages|
    {
      var msg := rx.Recv();
      if msg.value.isString {
        return;
      }
      text := text + msg.value.data;
    }
  }

  /** What a transport that swallows empty messages delivers. */
  function Delivered(messages: seq<Message>): seq<Message>
  {
    if messages == [] then []
    else (if messages[0].data == [] then [] else [messages[0]]) + Delivered(messages[1..])
  }

  lemma {:induction false} NothingSwallowed(messages: seq<Message>)
    requires forall i :: 0 <= i < |messages| ==> messages[i].data != []
    ensures Delivered(messages) == messages
  {
    if messages != [] {
      NothingSwallowed(messages[1..]);
      assert messages == [messages[0]] + messages[1..];
    }
  }

  lemma {:induction false} BinariesRoundTrip(chunks: seq<bytes>, rest: seq<Message>)
    ensures TextOf(Binaries(chunks) + rest) == Concat(chunks) + TextOf(rest)
    ensures Behind(Binaries(chunks) + rest) == Behind(rest)
    decreases |chunks|
  {
    if chunks == [] {
      assert Binaries(chunks) + rest == rest;
    } else {
      hide Concat, TextOf, Behind;
      BinariesRoundTrip(chunks[1..], rest);
      ConcatFirst(chunks);
      var more := Binaries(chunks[1..]) + rest;
      assert Binaries(chunks) + rest == [Message(false, chunks[0])] + more;
      BinaryFirst(chunks[0], more);
    }
  }

  lemma BinaryFirst(data: bytes, rest: seq<Message>)
    ensures TextOf([Message(false, data)] + rest) == data + TextOf(rest)
    ensures Behind([Message(false, data)] + rest) == Behind(rest)
  {
    var all := [Message(false, data)] + rest;
    assert all[1..] == rest;
  }

  /**
   * A string sent in chunks and followed by the delimiter is read back whole, even through a transport
   * that swallows empty messages, and the messages behind it stay unread.
   */
  lemma FramedRoundTrip(text: bytes, rest: seq<Message>)
    ensures TextOf(Delivered(Framed(text)) + rest) == text && Behind(Delivered(Framed(text)) + rest) == rest
  {
    ChunksAreWellChunked(text);
    var chunks := Chunks(text);
    hide Chunks, Concat, TextOf, Behind, Delivered;
    NothingSwallowed(Framed(text));
    BinariesRoundTrip(chunks, [DELIMITER] + rest);
    DelimiterEnds(rest);
    assert Framed(text) + rest == Binaries(chunks) + ([DELIMITER] + rest);
  }

  lemma DelimiterEnds(rest: seq<Message>)
    ensures TextOf([DELIMITER] + rest) == [] && Behind([DELIMITER] + rest) == rest
  {
  }
}
