/** Sending an archive while the application reads its files. */
module ZipStream {
  import opened Bytes
  import opened Zip
  import Crc

  /** How the application answers the request for one file. */
  datatype Answer =
    | EventRefused                                // the application no longer listens
    | Unavailable                                 // it drops the request
    | Content(chunks: seq<bytes>)                 // it sends chunks and closes the channel

  datatype Item = Chunk(data: bytes) | Error(reason: string)

  /** The response body: sends are refused from some point on when the browser leaves. */
  class BodyChannel {
    var items: seq<Item>
    var gone: bool
    const patience: Option<nat>

    ghost predicate Valid()
      reads this
    {
      gone ==> patience.Some? && |items| >= patience.value
    }

    constructor (patience: Option<nat>)
      ensures Valid() && items == [] && !gone && this.patience == patience
    {
      items := [];
      gone := false;
      this.patience := patience;
    }

    predicate Accepts()
      reads this
    {
      patience.Some? ==> |items| < patience.value
    }

    method Send(item: Item) returns (ok: bool)
      requires Valid()
      modifies this
      ensures Valid()
      ensures ok == old(Accepts())
      ensures items == if ok then old(items) + [item] else old(items)
      ensures gone == (old(gone) || !ok)
    {
      ok := Accepts();
      if ok {
        items := items + [item];
      } else {
        gone := true;
      }
    }
  }

  // ---- What is delivered ----

  /** The bytes of the successful sends. */
  function Sent(items: seq<Item>): bytes
  {
    if items == [] then []
    else
      var last := items[|items| - 1];
      Sent(items[..|items| - 1]) + (if last.Chunk? then last.data else [])
  }

  predicate NoError(items: seq<Item>)
  {
    forall item <- items :: item.Chunk?
  }

  /** The answer delivers exactly the announced size. */
  predicate Exact(answer: Answer, size: nat)
  {
    answer.Content? && |Concat(answer.chunks)| == size
  }

  /** `content` continues what the answer delivers before it exceeds the announced size. */
  predicate Continues(answer: Answer, content: bytes)
  {
    answer.Content? ==>
      forall k :: 0 <= k <= |answer.chunks| && |Concat(answer.chunks[..k])| <= |content|
        ==> Concat(answer.chunks[..k]) <= content
  }

  /** Contents of the announced sizes that agree with everything the application delivers. */
  ghost predicate Complete(plan: ZipPlan, answers: seq<Answer>, contents: seq<bytes>)
  {
    && AsAnnounced(plan.entries, contents) && |answers| == |contents|
    && forall i :: 0 <= i < |answers| ==> Continues(answers[i], contents[i])
  }

  predicate AllExact(plan: ZipPlan, answers: seq<Answer>)
    requires |answers| == |plan.entries|
  {
    forall i :: 0 <= i < |answers| ==> Exact(answers[i], plan.entries[i].size)
  }

  predicate OneErrorAtEnd(items: seq<Item>)
  {
    items != [] && items[|items| - 1].Error? && NoError(items[..|items| - 1])
  }

  /** `part` is made of the first chunks, as many as fit the announced size. */
  ghost predicate Forwarded(chunks: seq<bytes>, expected: nat, part: bytes)
  {
    exists k :: 0 <= k <= |chunks| && part == Concat(chunks[..k]) && |part| <= expected && StopsAt(chunks, expected, k)
  }

  predicate StopsAt(chunks: seq<bytes>, expected: nat, k: nat)
    requires k <= |chunks|
  {
    k < |chunks| ==> |Concat(chunks[..k + 1])| > expected
  }

  /** Why the response ends at an answer that does not deliver the announced size. */
  function Complaint(answer: Answer, expected: nat): string
  {
    match answer
    case EventRefused => "application unavailable"
    case Unavailable => "file unavailable"
    case Content(chunks) =>
      if |Concat(chunks)| > expected then "file larger than announced" else "file shorter than announced"
  }

  /** After the bytes `before`, only the local header of the entry was sent and what fits of its content. */
  ghost predicate StoppedIn(plan: ZipPlan, index: nat, answer: Answer, before: bytes, sent: bytes)
    requires index < |plan.entries|
  {
    exists part ::
      && sent == before + (LocalHeader(plan, index) + part)
      && if answer.Content? then Forwarded(answer.chunks, plan.entries[index].size, part) else part == []
  }

  predicate EndsWith(items: seq<Item>, reason: string)
  {
    items != [] && items[|items| - 1] == Error(reason)
  }

  lemma SentAppend(items: seq<Item>, item: Item)
    ensures item.Chunk? ==> Sent(items + [item]) == Sent(items) + item.data
    ensures item.Error? ==> Sent(items + [item]) == Sent(items)
  {
    assert (items + [item])[..|items|] == items;
  }

  lemma {:induction false} BodyPrefix(plan: ZipPlan, contents: seq<bytes>, i: nat, k: nat)
    requires i <= k <= |plan.entries| == |plan.offsets| == |contents|
    ensures Body(plan, contents, i) <= Body(plan, contents, k)
    decreases k - i
  {
    hide Blob;
    if i < k {
      BodyPrefix(plan, contents, i, k - 1);
    }
  }

  lemma ArchiveParts(plan: ZipPlan, contents: seq<bytes>)
    requires |plan.entries| == |plan.offsets| == |contents|
    ensures Body(plan, contents, |contents|) <= Archive(plan, contents)
    ensures Archive(plan, contents)
         == Body(plan, contents, |contents|)
            + (CentralHeaders(plan, Crcs(contents), |contents|) + EndRecords(plan))
  {
  }

  lemma ArchiveFacts(plan: ZipPlan, contents: seq<bytes>)
    requires |plan.entries| == |plan.offsets| && AsAnnounced(plan.entries, contents)
    ensures Planned(plan) ==> |Body(plan, contents, |contents|)| == plan.centralOffset
    ensures Planned(plan) ==> |Archive(plan, contents)| == plan.totalLen
    ensures Body(plan, contents, |contents|) <= Archive(plan, contents)
    ensures Archive(plan, contents)
         == Body(plan, contents, |contents|)
            + (CentralHeaders(plan, Crcs(contents), |contents|) + EndRecords(plan))
    ensures Body(plan, contents, 0) == [] == Sent([])
  {
    if Planned(plan) {
      EndInArchive(plan, contents);
    }
    BodyLength(plan, contents, |contents|);
    ArchiveParts(plan, contents);
  }

  lemma BodyStep(plan: ZipPlan, contents: seq<bytes>, index: nat, part: bytes)
    requires index < |plan.entries| == |contents| && part == contents[index]
    ensures Body(plan, contents, index) + (LocalHeader(plan, index) + part)
            + DataDescriptor(plan, index, CrcOf(part)) == Body(plan, contents, index + 1)
  {
    hide LocalHeader, DataDescriptor, CrcOf;
  }

  lemma BlobParts(h: bytes, content: bytes, part: bytes, d: bytes)
    requires part <= content
    ensures h <= h + content + d && h + part <= h + content + d
  {
    assert content == part + content[|part|..];
    assert h + content + d == (h + part) + (content[|part|..] + d);
  }

  lemma PrefixOfLonger(before: bytes, x: bytes, y: bytes, whole: bytes)
    requires x <= y && before + y <= whole
    ensures before + x <= whole
  {
    assert before + x == (before + y)[..|before| + |x|];
    assert (before + y)[..|before| + |x|] == whole[..|before| + |x|];
  }

  /** What is sent while entry `index` streams is a prefix of the archive, before the directory. */
  lemma StreamingPrefix(plan: ZipPlan, contents: seq<bytes>, index: nat, part: bytes)
    requires index < |plan.entries| == |plan.offsets| == |contents|
    requires part <= contents[index]
    ensures Body(plan, contents, index) + (LocalHeader(plan, index) + part) <= Body(plan, contents, |contents|)
    ensures Body(plan, contents, index) + (LocalHeader(plan, index) + part) <= Archive(plan, contents)
  {
    hide LocalHeader, DataDescriptor, CrcOf, Archive, CentralHeaders, EndRecords, Body;
    ArchiveParts(plan, contents);
    BodyPrefix(plan, contents, index + 1, |contents|);
    BodyGrowsByBlob(plan, contents, index);
    var content, before := contents[index], Body(plan, contents, index);
    var h, d := LocalHeader(plan, index), DataDescriptor(plan, index, CrcOf(content));
    BlobParts(h, content, part, d);
    PrefixOfLonger(before, h + part, h + content + d, Body(plan, contents, |contents|));
    PrefixOfLonger([], before + (h + part), Body(plan, contents, |contents|), Archive(plan, contents));
    assert [] + (before + (h + part)) == before + (h + part);
  }

  lemma BodyGrowsByBlob(plan: ZipPlan, contents: seq<bytes>, index: nat)
    requires index < |plan.entries| == |contents|
    ensures Body(plan, contents, index + 1)
         == Body(plan, contents, index)
            + (LocalHeader(plan, index) + contents[index] + DataDescriptor(plan, index, CrcOf(contents[index])))
  {
    hide LocalHeader, DataDescriptor, CrcOf;
  }

  // ---- The loops ----

  datatype Outcome = Delivered(crc: nat) | Larger | Shorter | Gone

  /** Forwards the chunks of one file. */
  method StreamContent(chunks: seq<bytes>, expected: nat, body: BodyChannel, ghost content: bytes)
    returns (outcome: Outcome, ghost part: bytes)
    requires body.Valid() && !body.gone && NoError(body.items)
    requires |content| == expected && Continues(Content(chunks), content)
    modifies body
    ensures body.Valid() && NoError(body.items) && (body.gone <==> outcome.Gone?)
    ensures part <= content && Sent(body.items) == Sent(old(body.items)) + part
    ensures outcome.Delivered? ==> |Concat(chunks)| == expected && part == content && outcome.crc == CrcOf(content)
    ensures outcome.Larger? || outcome.Shorter? ==> Forwarded(chunks, expected, part)
    ensures outcome.Larger? ==> |Concat(chunks)| > expected
    ensures outcome.Shorter? ==> |Concat(chunks)| < expected
  {
    hide Crc.FeedBits, Crc.TableEntry, Crc.Xor, Crc.Word, Crc.Serial, Sent, Concat, Continues, NoError;
    assert Concat(chunks[..0]) == [] && Sent(body.items) + [] == Sent(body.items) by { NothingForwarded(chunks); }
    assert Crc.Serial(Crc.ALL_ONES, []) == Crc.ALL_ONES by { NothingSummed(); }
    var crc := new Crc.Crc32();
    var written := 0;
    part := [];
    assert chunks[..|chunks|] == chunks;
    for k := 0 to |chunks|
      invariant body.Valid() && !body.gone && NoError(body.items) && crc.Valid()
      invariant part == Concat(chunks[..k]) && written == |part| <= expected && part <= content
      invariant Sent(body.items) == Sent(old(body.items)) + part
      invariant crc.value == Crc.Serial(Crc.ALL_ONES, part)
    {
      var chunk := chunks[k];
      ConcatAppend(chunks, k);
      written := written + |chunk|;
      if written > expected {
        ConcatGrows(chunks, k + 1);
        assert StopsAt(chunks, expected, k);
        outcome := Larger;
        return;
      }
      StaysContinued(chunks, k + 1, content);
      crc.Update(chunk);
      Crc.SerialConcat(Crc.ALL_ONES, part, chunk);
      var ok := SendBytes(body, chunk);
      if !ok {
        outcome := Gone;
        return;
      }
      assert Sent(old(body.items)) + part + chunk == Sent(old(body.items)) + (part + chunk);
      part := part + chunk;
    }
    assert StopsAt(chunks, expected, |chunks|);
    if written != expected {
      outcome := Shorter;
      return;
    }
    assert part == content;
    outcome := Delivered(crc.Finish() as int);
  }

  lemma NothingForwarded(chunks: seq<bytes>)
    ensures Concat(chunks[..0]) == []
  {
  }

  lemma NothingSummed()
    ensures Crc.Serial(Crc.ALL_ONES, []) == Crc.ALL_ONES
  {
  }

  lemma StaysContinued(chunks: seq<bytes>, k: nat, content: bytes)
    requires Continues(Content(chunks), content) && k <= |chunks| && |Concat(chunks[..k])| <= |content|
    ensures Concat(chunks[..k]) <= content
  {
  }

  lemma {:induction false} ConcatGrows(chunks: seq<bytes>, k: nat)
    requires k <= |chunks|
    ensures |Concat(chunks[..k])| <= |Concat(chunks)|
    decreases |chunks| - k
  {
    if k == |chunks| {
      assert chunks[..k] == chunks;
    } else {
      ConcatAppend(chunks, k);
      ConcatGrows(chunks, k + 1);
    }
  }

  lemma {:induction false} ConcatPrefix(chunks: seq<bytes>, j: nat, k: nat)
    requires j <= k <= |chunks|
    ensures Concat(chunks[..j]) <= Concat(chunks[..k])
    decreases k - j
  {
    if j < k {
      ConcatPrefix(chunks, j, k - 1);
      ConcatAppend(chunks, k - 1);
    }
  }

  /** Some content of the announced size continues whatever is delivered. */
  lemma ContinuationExists(answer: Answer, size: nat) returns (content: bytes)
    ensures |content| == size && Continues(answer, content)
  {
    content := [];
    if answer.Content? {
      var chunks, j := answer.chunks, 0;
      while j < |chunks| && |Concat(chunks[..j + 1])| <= size
        invariant 0 <= j <= |chunks| && |Concat(chunks[..j])| <= size
      {
        j := j + 1;
      }
      content := Concat(chunks[..j]);
      var fill := seq(size - |content|, _ => 0);
      content := content + fill;
      forall k | 0 <= k <= |chunks| && |Concat(chunks[..k])| <= size
        ensures Concat(chunks[..k]) <= content
      {
        if k <= j {
          ConcatPrefix(chunks, k, j);
        } else {
          ConcatPrefix(chunks, j + 1, k);
        }
      }
    } else {
      content := seq(size, _ => 0);
    }
  }

  /** So `StreamZip` covers every way the application answers. */
  lemma {:induction false} CompletionExists(plan: ZipPlan, answers: seq<Answer>)
    requires |answers| == |plan.entries|
    ensures exists contents :: Complete(plan, answers, contents)
  {
    var contents: seq<bytes> := [];
    while |contents| < |answers|
      invariant |contents| <= |answers|
      invariant forall i :: 0 <= i < |contents| ==>
                  |contents[i]| == plan.entries[i].size && Continues(answers[i], contents[i])
      decreases |answers| - |contents|
    {
      var content := ContinuationExists(answers[|contents|], plan.entries[|contents|].size);
      contents := contents + [content];
    }
    assert Complete(plan, answers, contents);
  }

  /** Ends the response with an error. */
  method AbortZip(body: BodyChannel, reason: string)
    requires body.Valid()
    modifies body
    ensures body.Valid()
    ensures body.items == if old(body.Accepts()) then old(body.items) + [Error(reason)] else old(body.items)
    ensures body.gone == (old(body.gone) || !old(body.Accepts()))
    ensures Sent(body.items) == Sent(old(body.items))
    ensures old(NoError(body.items)) && old(body.Accepts()) ==> OneErrorAtEnd(body.items) && !NoError(body.items)
    ensures old(body.Accepts()) ==> EndsWith(body.items, reason)
    ensures old(NoError(body.items)) && !old(body.Accepts()) ==> NoError(body.items)
  {
    SentAppend(body.items, Error(reason));
    var _ := body.Send(Error(reason));
    assert old(body.Accepts()) ==> body.items[|body.items| - 1] == Error(reason);
  }

  /** Sends bytes of the archive. */
  method SendBytes(body: BodyChannel, data: bytes) returns (ok: bool)
    requires body.Valid() && NoError(body.items)
    modifies body
    ensures body.Valid() && NoError(body.items) && body.gone == (old(body.gone) || !ok)
    ensures Sent(body.items) == if ok then Sent(old(body.items)) + data else Sent(old(body.items))
  {
    SentAppend(body.items, Chunk(data));
    ok := body.Send(Chunk(data));
  }

  /** The bytes sent are a prefix of the entries of the archive: nothing of the central directory. */
  predicate BeforeDirectory(plan: ZipPlan, contents: seq<bytes>, sent: bytes)
    requires |plan.entries| == |plan.offsets| == |contents|
  {
    && sent <= Body(plan, contents, |contents|) && sent <= Archive(plan, contents)
    && (Planned(plan) ==> |sent| <= plan.centralOffset)
  }

  lemma StreamingIsBeforeDirectory(plan: ZipPlan, contents: seq<bytes>, index: nat, part: bytes)
    requires |plan.entries| == |plan.offsets| && AsAnnounced(plan.entries, contents)
    requires index < |contents| && part <= contents[index]
    ensures BeforeDirectory(plan, contents, Body(plan, contents, index))
    ensures BeforeDirectory(plan, contents, Body(plan, contents, index) + (LocalHeader(plan, index) + part))
  {
    var header := LocalHeader(plan, index);
    hide Archive, Body, LocalHeader, BeforeDirectory, CrcOf;
    StreamingPrefix(plan, contents, index, part);
    BodyPrefix(plan, contents, index, |contents|);
    ShortOfDirectory(plan, contents, Body(plan, contents, index) + (header + part));
    ShortOfDirectory(plan, contents, Body(plan, contents, index));
  }

  lemma ShortOfDirectory(plan: ZipPlan, contents: seq<bytes>, sent: bytes)
    requires |plan.entries| == |plan.offsets| && AsAnnounced(plan.entries, contents)
    requires sent <= Body(plan, contents, |contents|)
    ensures BeforeDirectory(plan, contents, sent)
  {
    hide Archive, Body, BodyLen, CentralLen, TotalLen, CrcOf;
    ArchiveFacts(plan, contents);
  }

  lemma Regroup(a: bytes, b: bytes, c: bytes)
    ensures a + b + c == a + (b + c) && b + [] == b
  {
  }

  /** One file of the archive; `None` when the response ends here. */
  method StreamEntry(plan: ZipPlan, index: nat, answer: Answer, body: BodyChannel, ghost contents: seq<bytes>)
    returns (delivered: Option<nat>)
    requires |plan.entries| == |plan.offsets| && AsAnnounced(plan.entries, contents) && index < |contents|
    requires body.Valid() && !body.gone && NoError(body.items) && Sent(body.items) == Body(plan, contents, index)
    requires Continues(answer, contents[index])
    modifies body
    ensures body.Valid()
    ensures delivered.Some? ==>
              && !body.gone && NoError(body.items) && Sent(body.items) == Body(plan, contents, index + 1)
              && Exact(answer, plan.entries[index].size) && delivered.value == CrcOf(contents[index])
    ensures delivered.None? ==>
              && (!body.gone || !NoError(body.items) ==>
                    && OneErrorAtEnd(body.items) && !Exact(answer, plan.entries[index].size)
                    && EndsWith(body.items, Complaint(answer, plan.entries[index].size))
                    && StoppedIn(plan, index, answer, Body(plan, contents, index), Sent(body.items)))
              && BeforeDirectory(plan, contents, Sent(body.items))
  {
    hide Archive, Body, LocalHeader, DataDescriptor, CrcOf, Sent, Concat, Continues, BeforeDirectory;
    hide BodyLen, CentralLen, TotalLen, Planned, NoError, OneErrorAtEnd;
    ghost var before := Body(plan, contents, index);
    StreamingIsBeforeDirectory(plan, contents, index, []);
    Regroup(before, LocalHeader(plan, index), []);
    var ok := SendBytes(body, LocalHeader(plan, index));
    if !ok {
      return None;
    }
    match answer {
      case EventRefused =>
        AbortZip(body, "application unavailable");
        return None;
      case Unavailable =>
        AbortZip(body, "file unavailable");
        return None;
      case Content(chunks) =>
        var expected := plan.entries[index].size;
        var outcome, part := StreamContent(chunks, expected, body, contents[index]);
        StreamingIsBeforeDirectory(plan, contents, index, part);
        Regroup(before, LocalHeader(plan, index), part);
        match outcome {
          case Gone =>
            return None;
          case Larger =>
            AbortZip(body, "file larger than announced");
            return None;
          case Shorter =>
            AbortZip(body, "file shorter than announced");
            return None;
          case Delivered(crc) =>
            var descriptor := DataDescriptor(plan, index, crc);
            ok := SendBytes(body, descriptor);
            if !ok {
              return None;
            }
            BodyStep(plan, contents, index, part);
            return Some(crc);
        }
    }
  }

  /** The response ended in the first file that was not delivered in its announced size. */
  ghost predicate StoppedAtFirst(plan: ZipPlan, answers: seq<Answer>, contents: seq<bytes>, items: seq<Item>)
    requires |answers| == |contents| == |plan.entries|
  {
    exists i :: 0 <= i < |answers|
             && !Exact(answers[i], plan.entries[i].size)
             && (forall j :: 0 <= j < i ==> Exact(answers[j], plan.entries[j].size))
             && EndsWith(items, Complaint(answers[i], plan.entries[i].size))
             && StoppedIn(plan, i, answers[i], Body(plan, contents, i), Sent(items))
  }

  /**
   * Sends the archive. `contents` stands for any contents that complete what the application delivers:
   * the bytes sent are a prefix of their archive whatever happens.
   */
  method StreamZip(plan: ZipPlan, answers: seq<Answer>, body: BodyChannel, ghost contents: seq<bytes>)
    requires |plan.offsets| == |plan.entries| == |answers|
    requires body.Valid() && body.items == [] && !body.gone
    requires Complete(plan, answers, contents)
    modifies body
    ensures Sent(body.items) <= Archive(plan, contents)
    ensures !body.gone && AllExact(plan, answers) ==>
              && NoError(body.items) && Sent(body.items) == Archive(plan, contents)
              && (Planned(plan) ==> |Sent(body.items)| == plan.totalLen)
    ensures !AllExact(plan, answers) ==> BeforeDirectory(plan, contents, Sent(body.items))
    ensures !body.gone && !AllExact(plan, answers) ==>
              OneErrorAtEnd(body.items) && StoppedAtFirst(plan, answers, contents, body.items)
    ensures !NoError(body.items) ==> OneErrorAtEnd(body.items) && !AllExact(plan, answers)
  {
    hide Archive, Body, CrcOf, Sent, Continues, Exact, CentralHeaders, EndRecords, BodyLen, CentralLen, TotalLen;
    ArchiveFacts(plan, contents);
    hide Planned;
    var crcs: seq<nat> := [];
    var index := 0;
    while index < |answers|
      invariant 0 <= index <= |answers| && body.Valid() && !body.gone
      invariant NoError(body.items) && Sent(body.items) == Body(plan, contents, index)
      invariant |crcs| == index && forall j :: 0 <= j < index ==> crcs[j] == CrcOf(contents[j])
      invariant forall j :: 0 <= j < index ==> Exact(answers[j], plan.entries[j].size)
    {
      var delivered := StreamEntry(plan, index, answers[index], body, contents);
      if delivered.None? {
        return;
      }
      crcs := crcs + [delivered.value];
      index := index + 1;
    }
    assert crcs == Crcs(contents);
    var central := CentralDirectory(plan, crcs);
    var _ := SendBytes(body, central);
  }
}
