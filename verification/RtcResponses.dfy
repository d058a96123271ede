/** The receiver's responses: results come from a queue that does not know which file has just ended. */
module RtcResponses {
  import opened Bytes
  import opened RtcChunks
  import opened RtcFiles

  /** The file was dropped: the message behind its data would exceed its size. */
  predicate Dropped(env: Env, messages: seq<Message>, f: Incoming)
  {
    var next, size := f.header + 1 + |f.data|, SizeOf(env.files, f.id);
    && next < |messages| && !messages[next].isString
    && size.Some? && |Concat(f.data)| + |messages[next].data| > size.value
  }

  /** The response is about a file that reached up to the text at which it was sent. */
  predicate AboutItsFile(messages: seq<Message>, r: Reception, p: Response)
  {
    && p.file < |r.incoming| && p.at < r.read <= |messages| && messages[p.at].isString
    && p.id == r.incoming[p.file].id
    && p.at == r.incoming[p.file].header + 1 + |r.incoming[p.file].data|
  }

  predicate Answered(r: Reception, i: nat)
  {
    exists j :: 0 <= j < |r.responses| && r.responses[j].file == i
  }

  predicate IsOpen(r: Reception, i: nat)
  {
    r.file.Some? && i == |r.incoming| - 1
  }

  /** The response takes the next result of the queue. */
  ghost predicate ResponseOk(out: Outside, messages: seq<Message>, r: Reception, j: nat)
    requires j < |r.responses|
  {
    var p := r.responses[j];
    AboutItsFile(messages, r, p) && p.success == NextSucceeds(out.results, j) && !IsOpen(r, p.file)
  }

  /** A file that is over was answered or dropped, except the one at which the receiver failed. */
  ghost predicate FileOver(env: Env, messages: seq<Message>, r: Reception, i: nat)
    requires i < |r.incoming|
  {
    || IsOpen(r, i) || Answered(r, i) || Dropped(env, messages, r.incoming[i])
    || (r.end.Failed? && i == |r.incoming| - 1)
  }

  ghost predicate ResponsesOk(env: Env, out: Outside, messages: seq<Message>, r: Reception)
  {
    && (forall j :: 0 <= j < |r.responses| ==> ResponseOk(out, messages, r, j))
    && (forall i, j :: 0 <= i < j < |r.responses| ==> r.responses[i].file < r.responses[j].file)
    && (forall i :: 0 <= i < |r.incoming| ==> FileOver(env, messages, r, i))
    && (!r.end.Failed? ==> r.taken == |r.responses|)
  }

  // ---- Every message keeps it ----

  /** A text ends the open file, which is answered. */
  lemma EndedOk(env: Env, out: Outside, messages: seq<Message>, r: Reception)
    requires ReceptionOk(env, messages, r) && ResponsesOk(env, out, messages, r) && r.end.Running?
    requires r.file.Some? && r.read < |messages| && messages[r.read].isString
    ensures var s := r.(file := None, taken := r.taken + 1, responses := r.responses + [ResponseFor(out, r)]);
            ResponsesOk(env, out, messages, s.(read := r.read + 1))
  {
    hide Faithful, Dropped, InOrder, Concat;
    var s := r.(file := None, taken := r.taken + 1, responses := r.responses + [ResponseFor(out, r)],
                read := r.read + 1);
    var n := |r.responses|;
    assert AboutItsFile(messages, s, s.responses[n]);
    forall j | 0 <= j < |s.responses| ensures ResponseOk(out, messages, s, j) {
      assert j < n ==> ResponseOk(out, messages, r, j);
    }
    forall j | 0 <= j < n ensures r.responses[j].file < s.responses[n].file {
      assert ResponseOk(out, messages, r, j);
    }
    forall i | 0 <= i < |s.incoming| ensures FileOver(env, messages, s, i) {
      assert FileOver(env, messages, r, i);
      assert s.responses[n].file == |r.incoming| - 1;
      if Answered(r, i) {
        var j :| 0 <= j < n && r.responses[j].file == i;
        assert s.responses[j].file == i;
      }
    }
  }

  /** Nothing was open; at most one file opens. */
  lemma NextFileOk(env: Env, out: Outside, messages: seq<Message>, r: Reception, s: Reception)
    requires ResponsesOk(env, out, messages, r) && r.file.None? && !r.end.Failed?
    requires r.read <= s.read <= |messages| && s.responses == r.responses && s.taken == r.taken
    requires if s.file.Some? then |s.incoming| == |r.incoming| + 1 && s.incoming[..|r.incoming|] == r.incoming
             else s.incoming == r.incoming
    ensures ResponsesOk(env, out, messages, s)
  {
    hide Dropped, NextSucceeds;
    assert forall i :: 0 <= i < |r.incoming| ==> s.incoming[i] == r.incoming[i];
    forall j | 0 <= j < |s.responses| ensures ResponseOk(out, messages, s, j) {
      assert ResponseOk(out, messages, r, j);
    }
    forall i | 0 <= i < |s.incoming| ensures FileOver(env, messages, s, i) {
      if i < |r.incoming| {
        assert FileOver(env, messages, r, i);
        if Answered(r, i) {
          assert Answered(s, i);
        }
      }
    }
  }

  /** The open file goes on, is dropped, or the receiver fails at it. */
  lemma OpenFileOk(env: Env, out: Outside, messages: seq<Message>, r: Reception, s: Reception)
    requires ResponsesOk(env, out, messages, r) && r.file.Some? && r.end.Running?
    requires r.incoming != [] && |s.incoming| == |r.incoming|
    requires s.incoming[..|r.incoming| - 1] == r.incoming[..|r.incoming| - 1]
    requires r.read <= s.read <= |messages| && s.responses == r.responses && (!s.end.Failed? ==> s.taken == r.taken)
    requires s.file.None? ==> s.end.Failed? || Dropped(env, messages, s.incoming[|s.incoming| - 1])
    ensures ResponsesOk(env, out, messages, s)
  {
    hide Dropped, NextSucceeds;
    var n := |r.incoming| - 1;
    assert forall i :: 0 <= i < n ==> s.incoming[i] == s.incoming[..n][i] == r.incoming[..n][i] == r.incoming[i];
    forall j | 0 <= j < |s.responses| ensures ResponseOk(out, messages, s, j) {
      assert ResponseOk(out, messages, r, j);
      assert r.responses[j].file < n;
    }
    forall i | 0 <= i < |s.incoming| ensures FileOver(env, messages, s, i) {
      assert FileOver(env, messages, r, i);
      if Answered(r, i) {
        assert Answered(s, i);
      }
    }
  }

  lemma TextResponsesOk(env: Env, out: Outside, messages: seq<Message>, r: Reception)
    requires ReceptionOk(env, messages, r) && ResponsesOk(env, out, messages, r) && r.end.Running?
    requires r.read < |messages| && messages[r.read].isString
    ensures ResponsesOk(env, out, messages, OnMessage(env, out, r, messages[r.read]))
  {
    var s := OnMessage(env, out, r, messages[r.read]);
    if r.file.None? {
      hide ReceptionOk, ResponsesOk;
      NextFileOk(env, out, messages, r, s);
    } else if !out.responseSent(r.read) {
      assert r.incoming != [];
      hide ReceptionOk, ResponsesOk;
      OpenFileOk(env, out, messages, r, s);
    } else {
      EndedOk(env, out, messages, r);
      hide ReceptionOk, ResponsesOk;
      var ended := r.(file := None, taken := r.taken + 1, responses := r.responses + [ResponseFor(out, r)],
                      read := r.read + 1);
      NextFileOk(env, out, messages, ended, s);
    }
  }

  lemma BinaryResponsesOk(env: Env, out: Outside, messages: seq<Message>, r: Reception)
    requires ReceptionOk(env, messages, r) && ResponsesOk(env, out, messages, r) && r.end.Running?
    requires r.read < |messages| && !messages[r.read].isString
    ensures ResponsesOk(env, out, messages, OnMessage(env, out, r, messages[r.read]))
  {
    var s := OnMessage(env, out, r, messages[r.read]);
    if r.file.None? {
      hide ReceptionOk, ResponsesOk;
      NextFileOk(env, out, messages, r, s);
    } else {
      assert s.file.None? && !s.end.Failed? ==> Dropped(env, messages, s.incoming[|s.incoming| - 1]);
      assert r.incoming != [];
      hide ReceptionOk, ResponsesOk, Dropped;
      OpenFileOk(env, out, messages, r, s);
    }
  }

  lemma {:induction false} ReceivedResponsesOk(env: Env, out: Outside, messages: seq<Message>, r: Reception)
    requires ReceptionOk(env, messages, r) && ResponsesOk(env, out, messages, r)
    ensures ResponsesOk(env, out, messages, Received(env, out, r, messages[r.read..]))
    decreases |messages| - r.read
  {
    hide ReceptionOk, ResponsesOk, OnMessage;
    assert r.read <= |messages| by { ReadInside(env, messages, r); }
    if r.read < |messages| && r.end.Running? {
      MessageOk(env, out, messages, r);
      if messages[r.read].isString {
        TextResponsesOk(env, out, messages, r);
      } else {
        BinaryResponsesOk(env, out, messages, r);
      }
      var s := OnMessage(env, out, r, messages[r.read]);
      ReadsOne(env, out, r, messages[r.read]);
      assert messages[r.read..][1..] == messages[s.read..];
      ReceivedResponsesOk(env, out, messages, s);
    }
  }

  /**
   * Whatever arrives and however the outside behaves: each response is about a file that reached up to the
   * text at which it was sent, later responses are about later files, and each carries the next result of
   * the queue, or a failure when the queue was closed before it had one. Every opened file is answered,
   * dropped for its size, or the last one.
   */
  lemma ResponsesFollowTheQueue(env: Env, out: Outside, messages: seq<Message>)
    ensures var r := Received(env, out, START, messages);
            && (forall j :: 0 <= j < |r.responses| ==>
                  && AboutItsFile(messages, r, r.responses[j])
                  && (r.responses[j].success <==> j < |out.results| && out.results[j].success))
            && (forall i, j :: 0 <= i < j < |r.responses| ==> r.responses[i].file < r.responses[j].file)
            && (forall i :: 0 <= i < |r.incoming| - 1 ==>
                  (Answered(r, i) <==> !Dropped(env, messages, r.incoming[i])))
  {
    assert messages[0..] == messages;
    ReceivedResponsesOk(env, out, messages, START);
    AnsweredOrDropped(env, out, messages, Received(env, out, START, messages));
  }

  lemma AnsweredOrDropped(env: Env, out: Outside, messages: seq<Message>, r: Reception)
    requires ResponsesOk(env, out, messages, r)
    ensures forall j :: 0 <= j < |r.responses| ==>
              && AboutItsFile(messages, r, r.responses[j])
              && (r.responses[j].success <==> j < |out.results| && out.results[j].success)
    ensures forall i :: 0 <= i < |r.incoming| - 1 ==> (Answered(r, i) <==> !Dropped(env, messages, r.incoming[i]))
  {
    forall j | 0 <= j < |r.responses|
      ensures AboutItsFile(messages, r, r.responses[j])
      ensures r.responses[j].success <==> j < |out.results| && out.results[j].success
    {
      assert ResponseOk(out, messages, r, j);
    }
    hide NextSucceeds, Concat, SizeOf;
    forall i | 0 <= i < |r.incoming| - 1 ensures Answered(r, i) <==> !Dropped(env, messages, r.incoming[i]) {
      assert FileOver(env, messages, r, i);
      if Answered(r, i) {
        var j :| 0 <= j < |r.responses| && r.responses[j].file == i;
        assert AboutItsFile(messages, r, r.responses[j]);
      }
    }
  }

  // ---- Whose result a response carries ----

  predicate Increasing(s: seq<nat>)
  {
    forall i, j :: 0 <= i < j < |s| ==> s[i] < s[j]
  }

  /** Elements of an increasing sequence stand at least as far back in any increasing sequence that has them all. */
  lemma {:induction false} NotEarlier(e: seq<nat>, q: seq<nat>, j: nat, l: nat)
    requires Increasing(e) && Increasing(q) && j < |e| && l < |q| && e[j] == q[l]
    requires forall i :: 0 <= i <= j ==> e[i] in q
    ensures j <= l
    decreases j
  {
    if j > 0 {
      var k := PlaceOf(q, e[j - 1]);
      assert e[j - 1] < e[j];
      assert k < l;
      NotEarlier(e, q, j - 1, k);
    }
  }

  /** Up to a common element at the same place, both sequences are the same. */
  lemma {:induction false} SameBefore(e: seq<nat>, q: seq<nat>, j: nat)
    requires Increasing(e) && Increasing(q) && j < |e| && j < |q| && e[j] == q[j]
    requires forall i :: 0 <= i <= j ==> e[i] in q
    ensures e[..j] == q[..j]
    decreases j
  {
    if j > 0 {
      var k := PlaceOf(q, e[j - 1]);
      assert e[j - 1] < e[j];
      assert k < j;
      NotEarlier(e, q, j - 1, k);
      assert k == j - 1;
      SameBefore(e, q, j - 1);
      assert e[..j] == e[..j - 1] + [e[j - 1]] && q[..j] == q[..j - 1] + [q[j - 1]];
    }
  }

  lemma PlaceOf(s: seq<nat>, x: nat) returns (k: nat)
    requires x in s
    ensures k < |s| && s[k] == x
  {
    k :| 0 <= k < |s| && s[k] == x;
  }

  /** If `q` has no smaller elements of its own, the element stands at the same place in both. */
  lemma {:induction false} SamePlace(e: seq<nat>, q: seq<nat>, j: nat)
    requires Increasing(e) && Increasing(q) && j < |e|
    requires forall i :: 0 <= i <= j ==> e[i] in q
    requires forall l :: 0 <= l < |q| && q[l] < e[j] ==> q[l] in e
    ensures j < |q| && q[j] == e[j]
    decreases j
  {
    var l := PlaceOf(q, e[j]);
    NotEarlier(e, q, j, l);
    if j < l {
      assert q[j] < q[l] == e[j];
      assert q[j] in e;
      var m := PlaceOf(e, q[j]);
      assert e[m] < e[j];
      SamePlace(e, q, m);
    }
  }

  /** The application reports in the order the files were opened, each at most once. */
  predicate InOpeningOrder(results: seq<FileResult>)
  {
    forall i, j :: 0 <= i < j < |results| ==> results[i].file < results[j].file
  }

  predicate Reported(results: seq<FileResult>, i: nat)
  {
    exists l :: 0 <= l < |results| && results[l].file == i
  }

  function FilesOf(results: seq<FileResult>): (files: seq<nat>)
    ensures |files| == |results| && forall l :: 0 <= l < |results| ==> files[l] == results[l].file
  {
    seq(|results|, l requires 0 <= l < |results| => results[l].file)
  }

  function AnsweredFiles(responses: seq<Response>): (files: seq<nat>)
    ensures |files| == |responses| && forall j :: 0 <= j < |responses| ==> files[j] == responses[j].file
  {
    seq(|responses|, j requires 0 <= j < |responses| => responses[j].file)
  }

  /** The result that response `j` carries is the one about its own file. */
  predicate CarriesItsOwn(results: seq<FileResult>, r: Reception, j: nat)
    requires j < |r.responses|
  {
    && j < |results| && results[j].file == r.responses[j].file
    && r.responses[j].success == results[j].success
  }

  /**
   * When the application reports in order, and on every file it is asked about, a response carries its own
   * file's result if and only if no file opened earlier was dropped for its size while its result was queued.
   */
  lemma OwnResultUnlessDropped(env: Env, out: Outside, messages: seq<Message>, j: nat)
    requires j < |Received(env, out, START, messages).responses| && InOpeningOrder(out.results)
    requires forall m :: 0 <= m <= j ==> Reported(out.results, Received(env, out, START, messages).responses[m].file)
    ensures var r := Received(env, out, START, messages);
            r.responses[j].file < |r.incoming|
            && (CarriesItsOwn(out.results, r, j)
                <==> forall i :: 0 <= i < r.responses[j].file && Dropped(env, messages, r.incoming[i])
                       ==> !Reported(out.results, i))
  {
    ResponsesFollowTheQueue(env, out, messages);
    hide Received, Dropped;
    OwnResultOf(env, out, messages, Received(env, out, START, messages), j);
  }

  lemma AnsweredAreReported(results: seq<FileResult>, r: Reception, j: nat)
    requires j < |r.responses| && forall m :: 0 <= m <= j ==> Reported(results, r.responses[m].file)
    ensures forall m :: 0 <= m <= j ==> AnsweredFiles(r.responses)[m] in FilesOf(results)
  {
    forall m | 0 <= m <= j ensures AnsweredFiles(r.responses)[m] in FilesOf(results) {
      assert Reported(results, r.responses[m].file);
      var l :| 0 <= l < |results| && results[l].file == r.responses[m].file;
      assert FilesOf(results)[l] == r.responses[m].file;
    }
  }

  /** Where a response carries its own result, everything reported about earlier files was answered. */
  lemma OwnResultMeansAnswered(results: seq<FileResult>, r: Reception, j: nat, i: nat)
    requires j < |r.responses| && InOpeningOrder(results) && Increasing(AnsweredFiles(r.responses))
    requires forall m :: 0 <= m <= j ==> AnsweredFiles(r.responses)[m] in FilesOf(results)
    requires j < |results| && results[j].file == r.responses[j].file
    requires i < r.responses[j].file && Reported(results, i)
    ensures Answered(r, i)
  {
    var e, q := AnsweredFiles(r.responses), FilesOf(results);
    SameBefore(e, q, j);
    var l :| 0 <= l < |results| && results[l].file == i;
    assert q[l] == i && q[j] == e[j] && l < j;
    assert e[l] == e[..j][l] == q[..j][l] == q[l];
    assert r.responses[l].file == i;
  }

  /** Where everything reported about earlier files was answered, a response carries its own result. */
  lemma AnsweredMeansOwnResult(results: seq<FileResult>, r: Reception, j: nat)
    requires j < |r.responses| && InOpeningOrder(results) && Increasing(AnsweredFiles(r.responses))
    requires forall m :: 0 <= m <= j ==> AnsweredFiles(r.responses)[m] in FilesOf(results)
    requires forall i :: 0 <= i < r.responses[j].file && Reported(results, i) ==> Answered(r, i)
    ensures j < |results| && results[j].file == r.responses[j].file
  {
    var e, q := AnsweredFiles(r.responses), FilesOf(results);
    forall l | 0 <= l < |q| && q[l] < e[j] ensures q[l] in e {
      assert results[l].file == q[l];
      assert Reported(results, q[l]);
      var m :| 0 <= m < |r.responses| && r.responses[m].file == q[l];
      assert e[m] == q[l];
    }
    SamePlace(e, q, j);
  }

  lemma OwnResultOf(env: Env, out: Outside, messages: seq<Message>, r: Reception, j: nat)
    requires j < |r.responses| && InOpeningOrder(out.results)
    requires forall m :: 0 <= m <= j ==> Reported(out.results, r.responses[m].file)
    requires forall m :: 0 <= m < |r.responses| ==>
               && AboutItsFile(messages, r, r.responses[m])
               && (r.responses[m].success <==> m < |out.results| && out.results[m].success)
    requires forall i, m :: 0 <= i < m < |r.responses| ==> r.responses[i].file < r.responses[m].file
    requires forall i :: 0 <= i < |r.incoming| - 1 ==> (Answered(r, i) <==> !Dropped(env, messages, r.incoming[i]))
    ensures r.responses[j].file < |r.incoming|
    ensures CarriesItsOwn(out.results, r, j)
       <==> forall i :: 0 <= i < r.responses[j].file && Dropped(env, messages, r.incoming[i])
              ==> !Reported(out.results, i)
  {
    assert AboutItsFile(messages, r, r.responses[j]);
    AnsweredAreReported(out.results, r, j);
    hide Dropped, Reported, Answered, AboutItsFile;
    if CarriesItsOwn(out.results, r, j) {
      forall i | 0 <= i < r.responses[j].file && Reported(out.results, i) ensures Answered(r, i) {
        OwnResultMeansAnswered(out.results, r, j, i);
      }
    }
    if forall i :: 0 <= i < r.responses[j].file && Dropped(env, messages, r.incoming[i]) ==> !Reported(out.results, i) {
      AnsweredMeansOwnResult(out.results, r, j);
    }
  }

  // ---- A run that goes wrong ----

  /** File 0 may have no byte, file 1 one byte. */
  function TwoFiles(codec: Codec): Env
  {
    Env(codec, map[0 := 10, 1 := 11], [FileDto(0, 0), FileDto(1, 1)])
  }

  /** Each is sent with one byte. */
  function TwoFilesSent(codec: Codec): seq<Message>
  {
    [ Message(true, codec.render(Header(0, 10))), Message(false, [7]),
      Message(true, codec.render(Header(1, 11))), Message(false, [7]), DELIMITER ]
  }

  const FAILURE_THEN_SUCCESS := Outside(_ => true, _ => true, [FileResult(0, 0, false), FileResult(1, 1, true)])

  lemma ReceiveOne(env: Env, out: Outside, r: Reception, messages: seq<Message>, k: nat)
    requires k < |messages| && r.end.Running?
    ensures Received(env, out, r, messages[k..])
         == Received(env, out, OnMessage(env, out, r, messages[k]), messages[k + 1..])
  {
    hide OnMessage;
    assert messages[k..][1..] == messages[k + 1..];
  }

  lemma HeaderOpens(env: Env, out: Outside, r: Reception, h: Header, size: nat)
    requires env.codec.Lawful() && r.file.None? && Admit(env, h) == Admitted(size)
    ensures OnMessage(env, out, r, Message(true, env.codec.render(h)))
         == r.(file := Some(FileState(h.id, size, 0)), incoming := r.incoming + [Incoming(h.id, r.read, [])],
               read := r.read + 1)
  {
    assert env.codec.parse(env.codec.render(h)) == Some(h);
    hide Admit;
  }

  lemma ByteTooMany(env: Env, out: Outside, r: Reception, f: FileState)
    requires r.file == Some(f) && f.received == f.size
    ensures OnMessage(env, out, r, Message(false, [7]))
         == r.(file := None, errors := r.errors + [TooManyBytes(f.id, f.size, f.size + 1)], read := r.read + 1)
  {
    hide OnText, Forwarded;
  }

  lemma ByteFits(env: Env, out: Outside, r: Reception, f: FileState)
    requires r.file == Some(f) && f.received < f.size && out.takes(r.read)
    ensures OnMessage(env, out, r, Message(false, [7]))
         == r.(file := Some(f.(received := f.received + 1)), incoming := Forwarded(r.incoming, [7]), read := r.read + 1)
  {
    hide OnText, Forwarded;
  }

  lemma DelimiterAnswers(env: Env, out: Outside, r: Reception)
    requires r.file.Some? && r.end.Running? && out.responseSent(r.read)
    ensures Received(env, out, r, [DELIMITER])
         == r.(file := None, taken := r.taken + 1, responses := r.responses + [ResponseFor(out, r)],
               read := r.read + 1, end := Done)
  {
  }

  /**
   * However headers are written: the first file is dropped; the second arrives whole, but is answered with the
   * result about the first.
   */
  lemma DroppedFileShiftsResults(codec: Codec)
    requires codec.Lawful()
    ensures var r := Received(TwoFiles(codec), FAILURE_THEN_SUCCESS, START, TwoFilesSent(codec));
            && r.end.Done? && r.responses == [Response(1, false, 4, 1)]
            && |r.incoming| == 2 && r.incoming[1].data == [[7]]
            && Dropped(TwoFiles(codec), TwoFilesSent(codec), r.incoming[0])
            && !CarriesItsOwn(FAILURE_THEN_SUCCESS.results, r, 0)
  {
    var env, out, m := TwoFiles(codec), FAILURE_THEN_SUCCESS, TwoFilesSent(codec);
    TwoFilesAreAdmitted(codec);
    hide OnMessage, Received, Admit, Codec.Lawful, TwoFiles;
    assert m[0..] == m && m[4..] == [DELIMITER];
    var r0 := START;
    HeaderOpens(env, out, r0, Header(0, 10), 0);
    ReceiveOne(env, out, r0, m, 0);
    var r1 := OnMessage(env, out, r0, m[0]);
    ByteTooMany(env, out, r1, FileState(0, 0, 0));
    ReceiveOne(env, out, r1, m, 1);
    var r2 := OnMessage(env, out, r1, m[1]);
    HeaderOpens(env, out, r2, Header(1, 11), 1);
    ReceiveOne(env, out, r2, m, 2);
    var r3 := OnMessage(env, out, r2, m[2]);
    ByteFits(env, out, r3, FileState(1, 1, 0));
    ReceiveOne(env, out, r3, m, 3);
    var r4 := OnMessage(env, out, r3, m[3]);
    DelimiterAnswers(env, out, r4);
    assert r3.incoming == [Incoming(0, 0, []), Incoming(1, 2, [])];
    assert [] + [[7]] == [[7]];
    assert r4.incoming == [Incoming(0, 0, []), Incoming(1, 2, [[7]])];
  }

  lemma TwoFilesAreAdmitted(codec: Codec)
    ensures var env := TwoFiles(codec);
            && env.codec == codec
            && Admit(env, Header(0, 10)) == Admitted(0) && Admit(env, Header(1, 11)) == Admitted(1)
            && SizeOf(env.files, 0) == Some(0) && SizeOf(env.files, 1) == Some(1)
  {
    var env := TwoFiles(codec);
    assert SizeOf(env.files[1..], 1) == Some(1);
  }
}
