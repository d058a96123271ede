/** The plan of a ZIP download, from the names and sizes of the chosen files. */
module ZipDownload {
  import opened Bytes
  import opened Zip
  import DosDate
  import ZipNames
  import ZipNameForms
  import ZipReader
  import opened ZipStream

  function EntriesOf(names: seq<string>, sizes: seq<nat>): (entries: seq<ZipEntry>)
    requires |names| == |sizes|
  {
    seq(|names|, i requires 0 <= i < |names| => ZipEntry(ZipNames.Utf8(names[i]), sizes[i]))
  }

  /** The date words stand for the second `unixSecs`, as far as they can tell it. */
  predicate DatedAt(m: ZipReader.Member, unixSecs: nat)
  {
    var d := DosDate.Counted(unixSecs / 86_400);
    var s := unixSecs % 86_400;
    if d.year < 1980 then
      DosDate.DecodeDate(m.dosDate) == DosDate.Date(1980, 1, 1) && DosDate.DecodeTime(m.dosTime) == 0
    else
      && DosDate.DecodeDate(m.dosDate) == DosDate.Date(if d.year <= 2107 then d.year else 2107, d.month, d.day)
      && DosDate.DecodeTime(m.dosTime) == s - s % 2
  }

  /** An archive reader finds exactly these files in order, with their names and contents and the given time. */
  predicate ReadsBack(z: bytes, names: seq<string>, contents: seq<bytes>, unixSecs: nat)
  {
    var members := ZipReader.ReadArchive(z);
    && members.Some? && |members.value| == |names| == |contents|
    && forall i :: 0 <= i < |names| ==>
         var m := members.value[i];
         && m.utf8 && ZipNameForms.DecodeUtf8(m.name) == Some(names[i])
         && m.content == contents[i] && m.crc == CrcOf(contents[i]) && DatedAt(m, unixSecs)
  }

  /** Each file has its announced size. */
  predicate SizesAgree(sizes: seq<nat>, contents: seq<bytes>)
  {
    |contents| == |sizes| && forall i :: 0 <= i < |sizes| ==> |contents[i]| == sizes[i]
  }

  lemma PlannedDates(unixSecs: nat, m: ZipReader.Member)
    requires (m.dosTime, m.dosDate) == DosDate.DosDateTime(unixSecs)
    ensures DatedAt(m, unixSecs)
  {
    DosDate.DosRoundTrip(unixSecs);
    hide DosDate.DosDateTime, DosDate.Counted, DosDate.DecodeDate, DosDate.DecodeTime;
  }

  lemma PlanReadsBack(names: seq<string>, sizes: seq<nat>, unixSecs: nat, contents: seq<bytes>)
    requires |names| == |sizes| && SizesAgree(sizes, contents)
    requires TotalLen(EntriesOf(names, sizes), true) < U64_LIMIT
    requires forall e <- EntriesOf(names, sizes) :: |e.name| <= U16_MAX
    ensures var entries := EntriesOf(names, sizes);
            var plan := Kept(PlanWith(entries, ChoosesZip64(entries), unixSecs));
            ReadsBack(Archive(plan, contents), names, contents, unixSecs)
  {
    hide Archive, ZipReader.ReadArchive, TotalLen, ChoosesZip64, WrapAll, Wrap, Offsets, BodyLen, CentralLen;
    hide DatedAt, CrcOf, ZipNameForms.DecodeUtf8, ZipNames.Utf8, DosDate.DosDateTime;
    var entries := EntriesOf(names, sizes);
    var plan := Kept(PlanWith(entries, ChoosesZip64(entries), unixSecs));
    assert AsAnnounced(entries, contents);
    ZipReader.ArchiveRoundTrip(entries, unixSecs, contents);
    var members := ZipReader.Members(plan, contents);
    forall i | 0 <= i < |names|
      ensures ZipNameForms.DecodeUtf8(members[i].name) == Some(names[i]) && DatedAt(members[i], unixSecs)
    {
      ZipNameForms.Utf8RoundTrip(names[i]);
      PlannedDates(unixSecs, members[i]);
    }
  }

  /**
   * Plans the archive of at most `MAX_ZIP_FILES` files. Whatever contents of the announced sizes follow, the
   * archive is read back, with the chosen names and the time of the request, as long as its length is within u64.
   */
  method PlanDownload(lower: char -> string, names: seq<string>, sizes: seq<nat>, unixSecs: nat)
    returns (plan: ZipPlan, out: seq<string>, ghost tries: seq<nat>)
    requires |names| == |sizes| <= ZipNames.MAX_ZIP_FILES
    requires ZipNames.KeepsSuffixCharacters(lower)
    ensures |out| == |tries| == |names|
    ensures forall i :: 0 <= i < |out| ==> ZipNames.NameChosen(lower, names, out, tries, i)
    ensures plan.entries == EntriesOf(out, sizes) && |plan.offsets| == |out|
    ensures Planned(plan) <==> TotalLen(plan.entries, true) < U64_LIMIT
    ensures forall e <- plan.entries :: |e.name| <= 1008
    ensures TotalLen(plan.entries, true) < U64_LIMIT ==>
              forall contents | SizesAgree(sizes, contents) ::
                ReadsBack(Archive(plan, contents), out, contents, unixSecs)
  {
    hide DosDate.DosDateTime, Archive, ReadsBack, Planned, Wrap, WrapAll, ChoosesZip64;
    hide TotalLen, Offsets, BodyLen, CentralLen;
    hide ZipNames.Utf8, ZipNames.CleanName, ZipNames.KeepsSuffixCharacters, ZipNames.LowerCase, ZipNames.Candidate;
    out, tries := ZipNames.ZipEntryNames(lower, names);
    var entries := EntriesOf(out, sizes);
    forall i | 0 <= i < |out|
      ensures |entries[i].name| <= 1008
    {
      assert ZipNames.NameChosen(lower, names, out, tries, i);
      ZipNames.CandidateBytes(names[i], tries[i]);
    }
    plan := NewPlan(entries, unixSecs);
    assert plan.entries == entries;
    NewPlanIsExact(entries, unixSecs);
    if TotalLen(entries, true) < U64_LIMIT {
      forall contents | SizesAgree(sizes, contents)
        ensures ReadsBack(Archive(plan, contents), out, contents, unixSecs)
      {
        PlanReadsBack(out, sizes, unixSecs, contents);
      }
    }
  }

  /** What the application delivers for each file. */
  function Delivered(answers: seq<Answer>): (contents: seq<bytes>)
    ensures |contents| == |answers|
    ensures forall i :: 0 <= i < |answers| && answers[i].Content? ==> contents[i] == Concat(answers[i].chunks)
  {
    seq(|answers|, i requires 0 <= i < |answers| =>
      if answers[i].Content? then Concat(answers[i].chunks) else [])
  }

  /** Exact deliveries leave nothing to complete. */
  lemma ExactIsDelivered(plan: ZipPlan, answers: seq<Answer>, contents: seq<bytes>)
    requires |answers| == |plan.entries| && Complete(plan, answers, contents) && AllExact(plan, answers)
    ensures contents == Delivered(answers)
  {
    forall i | 0 <= i < |answers| ensures contents[i] == Delivered(answers)[i] {
      var chunks := answers[i].chunks;
      assert Exact(answers[i], plan.entries[i].size) && Continues(answers[i], contents[i]);
      assert chunks[..|chunks|] == chunks;
    }
  }

  /**
   * A whole download: plan, then stream. With the browser there, the response ends without an error exactly
   * when every file is delivered in its announced size. It then has the announced length and reads back as
   * exactly the delivered files under the chosen names, dated at the request, if that length is within u64.
   */
  method DownloadZip(
    lower: char -> string, names: seq<string>, sizes: seq<nat>, unixSecs: nat, answers: seq<Answer>, body: BodyChannel)
    returns (plan: ZipPlan, out: seq<string>, ghost tries: seq<nat>)
    requires |names| == |sizes| == |answers| <= ZipNames.MAX_ZIP_FILES
    requires ZipNames.KeepsSuffixCharacters(lower)
    requires body.Valid() && body.items == [] && !body.gone
    modifies body
    ensures |out| == |tries| == |names|
    ensures forall i :: 0 <= i < |out| ==> ZipNames.NameChosen(lower, names, out, tries, i)
    ensures plan.entries == EntriesOf(out, sizes) && |plan.offsets| == |out|
    ensures !body.gone ==> (NoError(body.items) <==> forall i :: 0 <= i < |sizes| ==> Exact(answers[i], sizes[i]))
    ensures !body.gone && NoError(body.items) && TotalLen(plan.entries, true) < U64_LIMIT ==>
              && |Sent(body.items)| == plan.totalLen
              && ReadsBack(Sent(body.items), out, Delivered(answers), unixSecs)
  {
    hide ReadsBack, Archive, Planned, TotalLen, Exact, Complete, NoError, Sent;
    hide ZipNames.KeepsSuffixCharacters, ZipNames.NameChosen, BeforeDirectory;
    plan, out, tries := PlanDownload(lower, names, sizes, unixSecs);
    CompletionExists(plan, answers);
    ghost var contents :| Complete(plan, answers, contents);
    StreamZip(plan, answers, body, contents);
    if AllExact(plan, answers) {
      ExactIsDelivered(plan, answers, contents);
      CompleteIsAnnounced(plan, answers, contents);
      assert forall i :: 0 <= i < |sizes| ==> Exact(answers[i], plan.entries[i].size);
    } else if !body.gone {
      ErrorIsSeen(body.items);
      assert exists i :: 0 <= i < |sizes| && !Exact(answers[i], plan.entries[i].size);
    }
  }

  lemma CompleteIsAnnounced(plan: ZipPlan, answers: seq<Answer>, contents: seq<bytes>)
    requires Complete(plan, answers, contents)
    ensures AsAnnounced(plan.entries, contents)
  {
  }

  lemma ErrorIsSeen(items: seq<Item>)
    requires OneErrorAtEnd(items)
    ensures !NoError(items)
  {
    assert items[|items| - 1] in items;
  }
}
