/** The stored ZIP archive: its layout, planned before streaming, and the records printed around the files. */
module Zip {
  import opened Bytes
  import Crc
  import DosDate

  const LOCAL_HEADER_SIG := 0x0403_4b50
  const DATA_DESCRIPTOR_SIG := 0x0807_4b50
  const CENTRAL_HEADER_SIG := 0x0201_4b50
  const ZIP64_EOCD_SIG := 0x0606_4b50
  const ZIP64_LOCATOR_SIG := 0x0706_4b50
  const EOCD_SIG := 0x0605_4b50
  const FLAGS := 0x0808
  const VERSION_DEFAULT := 20
  const VERSION_ZIP64 := 45
  const ZIP64_EXTRA_ID := 0x0001
  const U16_MAX := 0xFFFF
  const U32_MAX := 0xFFFF_FFFF
  const U64_LIMIT := 0x1_0000_0000_0000_0000

  /** A file of the archive: the bytes of its path and its announced size. */
  datatype ZipEntry = ZipEntry(name: bytes, size: nat)

  datatype ZipPlan = ZipPlan(
    entries: seq<ZipEntry>,
    offsets: seq<nat>,
    zip64: bool,
    centralOffset: nat,
    centralSize: nat,
    totalLen: nat,
    dosTime: nat,
    dosDate: nat)
  {
    function Version(): nat
    {
      if zip64 then VERSION_ZIP64 else VERSION_DEFAULT
    }
  }

  // ---- Layout ----

  function LocalHeaderLen(e: ZipEntry, zip64: bool): nat
  {
    30 + |e.name| + if zip64 then 20 else 0
  }

  function DescriptorLen(zip64: bool): nat
  {
    if zip64 then 24 else 16
  }

  function CentralHeaderLen(e: ZipEntry, zip64: bool): nat
  {
    46 + |e.name| + if zip64 then 28 else 0
  }

  function EndLen(zip64: bool): nat
  {
    if zip64 then 56 + 20 + 22 else 22
  }

  function BlobLen(e: ZipEntry, zip64: bool): nat
  {
    LocalHeaderLen(e, zip64) + e.size + DescriptorLen(zip64)
  }

  /** Bytes before the local header of entry `k`. */
  function BodyLen(entries: seq<ZipEntry>, zip64: bool, k: nat): nat
    requires k <= |entries|
  {
    if k == 0 then 0
    else
      BodyLen(entries, zip64, k - 1) + BlobLen(entries[k - 1], zip64)
  }

  function CentralLen(entries: seq<ZipEntry>, zip64: bool, k: nat): nat
    requires k <= |entries|
  {
    if k == 0 then 0 else CentralLen(entries, zip64, k - 1) + CentralHeaderLen(entries[k - 1], zip64)
  }

  function Offsets(entries: seq<ZipEntry>, zip64: bool): (offsets: seq<nat>)
    ensures |offsets| == |entries|
    ensures forall i :: 0 <= i < |entries| ==> offsets[i] == BodyLen(entries, zip64, i)
  {
    seq(|entries|, i requires 0 <= i < |entries| => BodyLen(entries, zip64, i))
  }

  function TotalLen(entries: seq<ZipEntry>, zip64: bool): nat
  {
    BodyLen(entries, zip64, |entries|) + CentralLen(entries, zip64, |entries|) + EndLen(zip64)
  }

  /** Sums are kept in 64 bits. */
  function Wrap(x: nat): nat
  {
    x % U64_LIMIT
  }

  function WrapAll(xs: seq<nat>): (wrapped: seq<nat>)
    ensures |wrapped| == |xs| && forall i :: 0 <= i < |xs| ==> wrapped[i] == Wrap(xs[i])
  {
    seq(|xs|, i requires 0 <= i < |xs| => Wrap(xs[i]))
  }

  lemma WrapSum(a: nat, b: nat)
    ensures Wrap(Wrap(a) + b) == Wrap(a + b)
  {
    var q, r := a / U64_LIMIT, a % U64_LIMIT;
    assert a + b == U64_LIMIT * q + (r + b);
    WrapMultiple(q, r + b);
  }

  lemma {:induction false} WrapMultiple(q: nat, x: nat)
    ensures Wrap(U64_LIMIT * q + x) == Wrap(x)
  {
    if q > 0 {
      WrapMultiple(q - 1, x);
      assert U64_LIMIT * q + x == U64_LIMIT + (U64_LIMIT * (q - 1) + x);
    }
  }

  method Layout(entries: seq<ZipEntry>, zip64: bool)
    returns (offsets: seq<nat>, centralOffset: nat, centralSize: nat, totalLen: nat)
    ensures offsets == WrapAll(Offsets(entries, zip64))
    ensures centralOffset == Wrap(BodyLen(entries, zip64, |entries|))
    ensures centralSize == Wrap(CentralLen(entries, zip64, |entries|))
    ensures totalLen == Wrap(TotalLen(entries, zip64))
  {
    hide Wrap, BodyLen, CentralLen, TotalLen, LocalHeaderLen, DescriptorLen, CentralHeaderLen;
    offsets := [];
    var offset := 0;
    WrapZero();
    NothingBefore(entries, zip64);
    for i := 0 to |entries|
      invariant offsets == WrapAll(Offsets(entries, zip64))[..i] && offset == Wrap(BodyLen(entries, zip64, i))
    {
      offsets := offsets + [offset];
      var length := LocalHeaderLen(entries[i], zip64) + entries[i].size + DescriptorLen(zip64);
      LengthsGrow(entries, zip64, i);
      WrapSum(BodyLen(entries, zip64, i), length);
      offset := Wrap(offset + length);
    }
    centralOffset := offset;
    centralSize := 0;
    for i := 0 to |entries|
      invariant centralSize == Wrap(CentralLen(entries, zip64, i))
    {
      LengthsGrow(entries, zip64, i);
      WrapSum(CentralLen(entries, zip64, i), CentralHeaderLen(entries[i], zip64));
      centralSize := Wrap(centralSize + CentralHeaderLen(entries[i], zip64));
    }
    var endLen := if zip64 then 56 + 20 + 22 else 22;
    TotalWraps(entries, zip64);
    totalLen := Wrap(centralOffset + centralSize + endLen);
  }

  lemma NothingBefore(entries: seq<ZipEntry>, zip64: bool)
    ensures BodyLen(entries, zip64, 0) == 0 && CentralLen(entries, zip64, 0) == 0
  {
  }

  lemma LengthsGrow(entries: seq<ZipEntry>, zip64: bool, i: nat)
    requires i < |entries|
    ensures BodyLen(entries, zip64, i + 1)
         == BodyLen(entries, zip64, i) + (LocalHeaderLen(entries[i], zip64) + entries[i].size + DescriptorLen(zip64))
    ensures CentralLen(entries, zip64, i + 1) == CentralLen(entries, zip64, i) + CentralHeaderLen(entries[i], zip64)
  {
  }

  lemma TotalWraps(entries: seq<ZipEntry>, zip64: bool)
    ensures var body, central := BodyLen(entries, zip64, |entries|), CentralLen(entries, zip64, |entries|);
            Wrap(Wrap(body) + Wrap(central) + EndLen(zip64)) == Wrap(TotalLen(entries, zip64))
  {
    hide Wrap, BodyLen, CentralLen;
    var body, central := BodyLen(entries, zip64, |entries|), CentralLen(entries, zip64, |entries|);
    WrapSum(body, Wrap(central) + EndLen(zip64));
    WrapSum(central, body + EndLen(zip64));
  }

  lemma WrapZero()
    ensures Wrap(0) == 0
  {
  }

  /** The plan in a given format. */
  function PlanWith(entries: seq<ZipEntry>, zip64: bool, unixSecs: nat): ZipPlan
  {
    var (dosTime, dosDate) := DosDate.DosDateTime(unixSecs);
    ZipPlan(
      entries, Offsets(entries, zip64), zip64,
      BodyLen(entries, zip64, |entries|), CentralLen(entries, zip64, |entries|), TotalLen(entries, zip64),
      dosTime, dosDate)
  }

  /** The numbers of a plan are those of its entries. */
  predicate Planned(plan: ZipPlan)
  {
    && plan.offsets == Offsets(plan.entries, plan.zip64)
    && plan.centralOffset == BodyLen(plan.entries, plan.zip64, |plan.entries|)
    && plan.centralSize == CentralLen(plan.entries, plan.zip64, |plan.entries|)
    && plan.totalLen == TotalLen(plan.entries, plan.zip64)
  }

  predicate NeedsZip64(entries: seq<ZipEntry>)
  {
    |entries| >= 0xFFFF || TotalLen(entries, false) >= 0xFFFF_FFFF
  }

  /** The plan with its numbers in 64 bits. */
  function Kept(plan: ZipPlan): ZipPlan
  {
    plan.(offsets := WrapAll(plan.offsets), centralOffset := Wrap(plan.centralOffset),
          centralSize := Wrap(plan.centralSize), totalLen := Wrap(plan.totalLen))
  }

  /** The format chosen: the classic length is compared as it was computed. */
  predicate ChoosesZip64(entries: seq<ZipEntry>)
  {
    |entries| >= 0xFFFF || Wrap(TotalLen(entries, false)) >= 0xFFFF_FFFF
  }

  method NewPlan(entries: seq<ZipEntry>, unixSecs: nat) returns (plan: ZipPlan)
    ensures plan == Kept(PlanWith(entries, ChoosesZip64(entries), unixSecs))
  {
    var offsets, centralOffset, centralSize, totalLen := Layout(entries, false);
    var zip64 := |entries| >= 0xFFFF || totalLen >= 0xFFFF_FFFF;
    if zip64 {
      offsets, centralOffset, centralSize, totalLen := Layout(entries, true);
    }
    var (dosTime, dosDate) := DosDate.DosDateTime(unixSecs);
    plan := ZipPlan(entries, offsets, zip64, centralOffset, centralSize, totalLen, dosTime, dosDate);
  }

  /** The numbers of a plan are right if and only if the archive's length is within 64 bits. */
  lemma PlannedUnlessTooLong(entries: seq<ZipEntry>, zip64: bool, unixSecs: nat)
    ensures Planned(Kept(PlanWith(entries, zip64, unixSecs))) <==> TotalLen(entries, zip64) < U64_LIMIT
    ensures TotalLen(entries, zip64) < U64_LIMIT ==>
              Kept(PlanWith(entries, zip64, unixSecs)) == PlanWith(entries, zip64, unixSecs)
  {
    hide DosDate.DosDateTime;
    var plan := PlanWith(entries, zip64, unixSecs);
    if TotalLen(entries, zip64) < U64_LIMIT {
      forall i | 0 <= i < |entries| ensures Wrap(plan.offsets[i]) == plan.offsets[i] {
        BodyGrows(entries, zip64, i, |entries|);
      }
      assert WrapAll(plan.offsets) == plan.offsets;
    }
  }

  /**
   * The plan of `new` is right if and only if the archive's length in ZIP64 form is within 64 bits. The
   * format is then the one that is needed: classic as long as count and length stay below their sentinels.
   */
  lemma NewPlanIsExact(entries: seq<ZipEntry>, unixSecs: nat)
    ensures var plan := Kept(PlanWith(entries, ChoosesZip64(entries), unixSecs));
            && (Planned(plan) <==> TotalLen(entries, true) < U64_LIMIT)
            && (Planned(plan) ==> plan == PlanWith(entries, NeedsZip64(entries), unixSecs))
            && (Planned(plan) ==>
                  if plan.zip64 then |entries| >= 65_535 || plan.totalLen >= 4_294_967_295 + 56 * |entries| + 76
                  else |entries| < 65_535 && plan.totalLen < 4_294_967_295)
  {
    ChoosesRightly(entries);
    hide DosDate.DosDateTime, PlanWith, Kept, Planned, ChoosesZip64, Wrap;
    PlannedUnlessTooLong(entries, ChoosesZip64(entries), unixSecs);
    TotalOfPlan(entries, NeedsZip64(entries), unixSecs);
  }

  lemma TotalOfPlan(entries: seq<ZipEntry>, zip64: bool, unixSecs: nat)
    ensures var plan := PlanWith(entries, zip64, unixSecs);
            plan.entries == entries && plan.zip64 == zip64 && plan.totalLen == TotalLen(entries, zip64)
    ensures TotalLen(entries, true) == TotalLen(entries, false) + 56 * |entries| + 76
  {
    hide DosDate.DosDateTime;
    Zip64Longer(entries, |entries|);
  }

  /** Each entry is 56 bytes longer in ZIP64 form. */
  lemma {:induction false} Zip64Longer(entries: seq<ZipEntry>, k: nat)
    requires k <= |entries|
    ensures BodyLen(entries, true, k) == BodyLen(entries, false, k) + 28 * k
    ensures CentralLen(entries, true, k) == CentralLen(entries, false, k) + 28 * k
  {
    if k > 0 {
      Zip64Longer(entries, k - 1);
    }
  }

  lemma ChoosesRightly(entries: seq<ZipEntry>)
    ensures TotalLen(entries, ChoosesZip64(entries)) < U64_LIMIT <==> TotalLen(entries, true) < U64_LIMIT
    ensures TotalLen(entries, true) < U64_LIMIT ==> (ChoosesZip64(entries) <==> NeedsZip64(entries))
  {
    Zip64Longer(entries, |entries|);
    assert TotalLen(entries, true) == TotalLen(entries, false) + 56 * |entries| + 76;
  }

  /** One file of 2^64 - 1 bytes: the plan is classic and announces 113 bytes. */
  lemma TooLongIsMisplanned(unixSecs: nat)
    ensures var entries := [ZipEntry([], U64_LIMIT - 1)];
            var plan := Kept(PlanWith(entries, ChoosesZip64(entries), unixSecs));
            !plan.zip64 && plan.totalLen == 113 && !Planned(plan)
  {
    hide DosDate.DosDateTime;
    var entries := [ZipEntry([], U64_LIMIT - 1)];
    assert BodyLen(entries, false, 0) == 0 && CentralLen(entries, false, 0) == 0;
    assert BodyLen(entries, false, 1) == U64_LIMIT + 45 && CentralLen(entries, false, 1) == 46;
    assert TotalLen(entries, false) == U64_LIMIT + 113;
    PlannedUnlessTooLong(entries, false, unixSecs);
  }

  // ---- Records ----

  function LocalHeaderFields(plan: ZipPlan, index: nat): seq<Field>
    requires index < |plan.entries|
  {
    [ Field(4, LOCAL_HEADER_SIG),
      Field(2, plan.Version()),
      Field(2, FLAGS),
      Field(2, 0),                                // stored
      Field(2, plan.dosTime),
      Field(2, plan.dosDate),
      Field(4, 0),                                // checksum, known only afterwards
      Field(4, 0),                                // both sizes, likewise
      Field(4, 0),
      Field(2, |plan.entries[index].name|),
      Field(2, if plan.zip64 then 20 else 0) ]
  }

  /** A ZIP64 field with zero sizes: tells readers that the descriptor uses 64-bit ones. */
  function LocalExtra(plan: ZipPlan): seq<Field>
  {
    if plan.zip64 then [Field(2, ZIP64_EXTRA_ID), Field(2, 16), Field(8, 0), Field(8, 0)] else []
  }

  function LocalHeader(plan: ZipPlan, index: nat): bytes
    requires index < |plan.entries|
  {
    Put(LocalHeaderFields(plan, index)) + plan.entries[index].name + Put(LocalExtra(plan))
  }

  function DescriptorFields(plan: ZipPlan, index: nat, crc: nat): seq<Field>
    requires index < |plan.entries|
  {
    var size := plan.entries[index].size;
    var width := if plan.zip64 then 8 else 4;
    [Field(4, DATA_DESCRIPTOR_SIG), Field(4, crc), Field(width, size), Field(width, size)]
  }

  function DataDescriptor(plan: ZipPlan, index: nat, crc: nat): bytes
    requires index < |plan.entries|
  {
    Put(DescriptorFields(plan, index, crc))
  }

  function CentralHeaderFields(plan: ZipPlan, index: nat, crc: nat): seq<Field>
    requires index < |plan.entries| == |plan.offsets|
  {
    var e := plan.entries[index];
    [ Field(4, CENTRAL_HEADER_SIG),
      Field(2, plan.Version()),                   // made by
      Field(2, plan.Version()),                   // needed to extract
      Field(2, FLAGS),
      Field(2, 0),                                // stored
      Field(2, plan.dosTime),
      Field(2, plan.dosDate),
      Field(4, crc),
      Field(4, if plan.zip64 then U32_MAX else e.size),
      Field(4, if plan.zip64 then U32_MAX else e.size),
      Field(2, |e.name|),
      Field(2, if plan.zip64 then 28 else 0),
      Field(2, 0),                                // comment
      Field(2, 0),                                // disk
      Field(2, 0),                                // internal attributes
      Field(4, 0),                                // external attributes
      Field(4, if plan.zip64 then U32_MAX else plan.offsets[index]) ]
  }

  function CentralExtra(plan: ZipPlan, index: nat): seq<Field>
    requires index < |plan.entries| == |plan.offsets|
  {
    var e := plan.entries[index];
    if plan.zip64 then
      [Field(2, ZIP64_EXTRA_ID), Field(2, 24), Field(8, e.size), Field(8, e.size), Field(8, plan.offsets[index])]
    else []
  }

  function CentralHeader(plan: ZipPlan, index: nat, crc: nat): bytes
    requires index < |plan.entries| == |plan.offsets|
  {
    Put(CentralHeaderFields(plan, index, crc)) + plan.entries[index].name + Put(CentralExtra(plan, index))
  }

  function Zip64EndFields(plan: ZipPlan): seq<Field>
  {
    [ Field(4, ZIP64_EOCD_SIG),
      Field(8, 44),                               // bytes that follow in this record
      Field(2, VERSION_ZIP64),
      Field(2, VERSION_ZIP64),
      Field(4, 0),
      Field(4, 0),
      Field(8, |plan.entries|),
      Field(8, |plan.entries|),
      Field(8, plan.centralSize),
      Field(8, plan.centralOffset) ]
  }

  function LocatorFields(plan: ZipPlan): seq<Field>
  {
    [ Field(4, ZIP64_LOCATOR_SIG),
      Field(4, 0),
      Field(8, plan.centralOffset + plan.centralSize),
      Field(4, 1) ]
  }

  function EndFields(plan: ZipPlan): seq<Field>
  {
    var shortCount := if plan.zip64 then 0xFFFF else |plan.entries|;
    [ Field(4, EOCD_SIG),
      Field(2, 0),
      Field(2, 0),
      Field(2, shortCount),
      Field(2, shortCount),
      Field(4, if plan.zip64 then U32_MAX else plan.centralSize),
      Field(4, if plan.zip64 then U32_MAX else plan.centralOffset),
      Field(2, 0) ]                               // comment
  }

  function EndRecords(plan: ZipPlan): bytes
  {
    (if plan.zip64 then Put(Zip64EndFields(plan)) + Put(LocatorFields(plan)) else []) + Put(EndFields(plan))
  }

  /** The first `k` central headers. */
  function CentralHeaders(plan: ZipPlan, crcs: seq<nat>, k: nat): bytes
    requires k <= |plan.entries| == |plan.offsets| == |crcs|
  {
    if k == 0 then [] else CentralHeaders(plan, crcs, k - 1) + CentralHeader(plan, k - 1, crcs[k - 1])
  }

  method CentralDirectory(plan: ZipPlan, crcs: seq<nat>) returns (out: bytes)
    requires |plan.entries| == |plan.offsets| == |crcs|
    ensures out == CentralHeaders(plan, crcs, |crcs|) + EndRecords(plan)
  {
    hide Put, CentralHeaderFields, CentralExtra, Zip64EndFields, LocatorFields, EndFields;
    out := [];
    for index := 0 to |plan.entries|
      invariant out == CentralHeaders(plan, crcs, index)
    {
      out := out + Put(CentralHeaderFields(plan, index, crcs[index]));
      out := out + plan.entries[index].name;
      out := out + Put(CentralExtra(plan, index));
    }
    if plan.zip64 {
      out := out + Put(Zip64EndFields(plan));
      out := out + Put(LocatorFields(plan));
    }
    out := out + Put(EndFields(plan));
  }

  // ---- The archive ----

  function CrcOf(content: bytes): (crc: nat)
    ensures crc <= U32_MAX
  {
    Crc.Crc32Of(content) as int
  }

  function Crcs(contents: seq<bytes>): (crcs: seq<nat>)
    ensures |crcs| == |contents|
    ensures forall i :: 0 <= i < |contents| ==> crcs[i] == CrcOf(contents[i])
  {
    seq(|contents|, i requires 0 <= i < |contents| => CrcOf(contents[i]))
  }

  /** Local header, content and data descriptor of one entry. */
  function Blob(plan: ZipPlan, index: nat, content: bytes): bytes
    requires index < |plan.entries|
  {
    LocalHeader(plan, index) + content + DataDescriptor(plan, index, CrcOf(content))
  }

  /** The first `k` entries as written. */
  function Body(plan: ZipPlan, contents: seq<bytes>, k: nat): bytes
    requires k <= |plan.entries| && k <= |contents|
  {
    if k == 0 then [] else Body(plan, contents, k - 1) + Blob(plan, k - 1, contents[k - 1])
  }

  /** The canonical archive of a plan and the contents of its entries. */
  function Archive(plan: ZipPlan, contents: seq<bytes>): bytes
    requires |plan.entries| == |plan.offsets| == |contents|
  {
    Body(plan, contents, |contents|) + (CentralHeaders(plan, Crcs(contents), |contents|) + EndRecords(plan))
  }

  /** The contents have the announced sizes. */
  predicate AsAnnounced(entries: seq<ZipEntry>, contents: seq<bytes>)
  {
    |contents| == |entries| && forall i :: 0 <= i < |entries| ==> |contents[i]| == entries[i].size
  }

  // ---- Plan agrees with print ----

  // Each record's fields fit their widths when the plan is printable, and start at the offsets listed.

  predicate Printable(plan: ZipPlan)
  {
    && |plan.offsets| == |plan.entries|
    && plan.dosTime <= U16_MAX && plan.dosDate <= U16_MAX
    && (forall e <- plan.entries :: |e.name| <= U16_MAX)
    && (forall i :: 0 <= i < |plan.entries| ==> InField(plan, plan.entries[i].size) && InField(plan, plan.offsets[i]))
    && InField(plan, plan.centralOffset) && InField(plan, plan.centralSize)
    && InField(plan, plan.centralOffset + plan.centralSize)
    && (if plan.zip64 then |plan.entries| < U64_LIMIT else |plan.entries| < U16_MAX)
  }

  /** A size or offset that its field holds, and that no reader takes for a ZIP64 sentinel. */
  predicate InField(plan: ZipPlan, value: nat)
  {
    if plan.zip64 then value < U64_LIMIT else value < U32_MAX
  }

  lemma LocalHeaderShape(plan: ZipPlan, index: nat)
    requires index < |plan.entries|
    ensures Widths(LocalHeaderFields(plan, index)) == [4, 2, 2, 2, 2, 2, 4, 4, 4, 2, 2]
    ensures |Put(LocalHeaderFields(plan, index))| == 30
  {
    ShapeOf(LocalHeaderFields(plan, index),
            [4, 2, 2, 2, 2, 2, 4, 4, 4, 2, 2],
            [0, 4, 6, 8, 10, 12, 14, 18, 22, 26, 28, 30]);
  }

  lemma LocalExtraShape(plan: ZipPlan)
    ensures Widths(LocalExtra(plan)) == if plan.zip64 then [2, 2, 8, 8] else []
    ensures |Put(LocalExtra(plan))| == if plan.zip64 then 20 else 0
  {
    if plan.zip64 {
      ShapeOf(LocalExtra(plan), [2, 2, 8, 8], [0, 2, 4, 12, 20]);
    }
  }

  lemma DescriptorShape(plan: ZipPlan, index: nat, crc: nat)
    requires index < |plan.entries|
    ensures Widths(DescriptorFields(plan, index, crc)) == if plan.zip64 then [4, 4, 8, 8] else [4, 4, 4, 4]
    ensures |DataDescriptor(plan, index, crc)| == DescriptorLen(plan.zip64)
  {
    if plan.zip64 {
      ShapeOf(DescriptorFields(plan, index, crc), [4, 4, 8, 8], [0, 4, 8, 16, 24]);
    } else {
      ShapeOf(DescriptorFields(plan, index, crc), [4, 4, 4, 4], [0, 4, 8, 12, 16]);
    }
  }

  lemma CentralHeaderShape(plan: ZipPlan, index: nat, crc: nat)
    requires index < |plan.entries| == |plan.offsets|
    ensures Widths(CentralHeaderFields(plan, index, crc)) == [4, 2, 2, 2, 2, 2, 2, 4, 4, 4, 2, 2, 2, 2, 2, 4, 4]
    ensures |Put(CentralHeaderFields(plan, index, crc))| == 46
  {
    ShapeOf(CentralHeaderFields(plan, index, crc),
            [4, 2, 2, 2, 2, 2, 2, 4, 4, 4, 2, 2, 2, 2, 2, 4, 4],
            [0, 4, 6, 8, 10, 12, 14, 16, 20, 24, 28, 30, 32, 34, 36, 38, 42, 46]);
  }

  lemma CentralExtraShape(plan: ZipPlan, index: nat)
    requires index < |plan.entries| == |plan.offsets|
    ensures Widths(CentralExtra(plan, index)) == if plan.zip64 then [2, 2, 8, 8, 8] else []
    ensures |Put(CentralExtra(plan, index))| == if plan.zip64 then 28 else 0
  {
    if plan.zip64 {
      ShapeOf(CentralExtra(plan, index), [2, 2, 8, 8, 8], [0, 2, 4, 12, 20, 28]);
    }
  }

  lemma Zip64EndShape(plan: ZipPlan)
    ensures Widths(Zip64EndFields(plan)) == [4, 8, 2, 2, 4, 4, 8, 8, 8, 8] && |Put(Zip64EndFields(plan))| == 56
  {
    ShapeOf(Zip64EndFields(plan), [4, 8, 2, 2, 4, 4, 8, 8, 8, 8], [0, 4, 12, 14, 16, 20, 24, 32, 40, 48, 56]);
  }

  lemma LocatorShape(plan: ZipPlan)
    ensures Widths(LocatorFields(plan)) == [4, 4, 8, 4] && |Put(LocatorFields(plan))| == 20
  {
    ShapeOf(LocatorFields(plan), [4, 4, 8, 4], [0, 4, 8, 16, 20]);
  }

  lemma EndShape(plan: ZipPlan)
    ensures Widths(EndFields(plan)) == [4, 2, 2, 2, 2, 4, 4, 2] && |Put(EndFields(plan))| == 22
  {
    ShapeOf(EndFields(plan), [4, 2, 2, 2, 2, 4, 4, 2], [0, 4, 6, 8, 10, 12, 16, 20, 22]);
  }

  lemma BlobLength(plan: ZipPlan, index: nat, content: bytes)
    requires index < |plan.entries| && |content| == plan.entries[index].size
    ensures |Blob(plan, index, content)| == BlobLen(plan.entries[index], plan.zip64)
  {
    hide LocalHeaderFields, LocalExtra, DataDescriptor;
    LocalHeaderShape(plan, index);
    LocalExtraShape(plan);
    DescriptorShape(plan, index, CrcOf(content));
  }

  lemma CentralHeaderLength(plan: ZipPlan, index: nat, crc: nat)
    requires index < |plan.entries| == |plan.offsets|
    ensures |CentralHeader(plan, index, crc)| == CentralHeaderLen(plan.entries[index], plan.zip64)
  {
    hide CentralHeaderFields, CentralExtra;
    CentralHeaderShape(plan, index, crc);
    CentralExtraShape(plan, index);
  }

  lemma EndRecordsLength(plan: ZipPlan)
    ensures |EndRecords(plan)| == EndLen(plan.zip64)
  {
    hide Zip64EndFields, LocatorFields, EndFields;
    Zip64EndShape(plan);
    LocatorShape(plan);
    EndShape(plan);
  }

  /** The plan of `new`: when it stays classic nothing is cut off and nothing looks like a sentinel. */
  lemma NewPlanIsPrintable(entries: seq<ZipEntry>, zip64: bool, unixSecs: nat)
    requires forall e <- entries :: |e.name| <= U16_MAX
    requires zip64 || !NeedsZip64(entries)
    requires zip64 ==> TotalLen(entries, true) < U64_LIMIT
    ensures Printable(PlanWith(entries, zip64, unixSecs))
  {
    var plan := PlanWith(entries, zip64, unixSecs);
    DosDate.WordsFit(unixSecs);
    LengthOfMany(entries, zip64, |entries|);
    assert TotalLen(entries, zip64) < if zip64 then U64_LIMIT else U32_MAX;
    hide DosDate.DosDateTime, BodyLen, CentralLen;
    forall i | 0 <= i < |entries| ensures InField(plan, entries[i].size) && InField(plan, plan.offsets[i]) {
      EntryWithinBody(entries, zip64, i);
    }
    assert InField(plan, plan.centralOffset + plan.centralSize);
  }

  lemma EntryWithinBody(entries: seq<ZipEntry>, zip64: bool, i: nat)
    requires i < |entries|
    ensures BodyLen(entries, zip64, i) + entries[i].size <= BodyLen(entries, zip64, |entries|)
  {
    BodyGrows(entries, zip64, i + 1, |entries|);
  }

  lemma {:induction false} BodyGrows(entries: seq<ZipEntry>, zip64: bool, i: nat, k: nat)
    requires i <= k <= |entries|
    ensures BodyLen(entries, zip64, i) <= BodyLen(entries, zip64, k)
    decreases k - i
  {
    if i < k {
      BodyGrows(entries, zip64, i, k - 1);
    }
  }

  lemma {:induction false} LengthOfMany(entries: seq<ZipEntry>, zip64: bool, k: nat)
    requires k <= |entries|
    ensures k <= CentralLen(entries, zip64, k)
  {
    if k > 0 {
      LengthOfMany(entries, zip64, k - 1);
    }
  }

  lemma {:induction false} BodyLength(plan: ZipPlan, contents: seq<bytes>, k: nat)
    requires k <= |plan.entries| && AsAnnounced(plan.entries, contents)
    ensures |Body(plan, contents, k)| == BodyLen(plan.entries, plan.zip64, k)
  {
    hide Blob, BlobLen;
    if k > 0 {
      BodyLength(plan, contents, k - 1);
      BlobLength(plan, k - 1, contents[k - 1]);
    }
  }

  /** Every entry stands where the plan says. */
  lemma {:induction false} BlobAsPlanned(plan: ZipPlan, contents: seq<bytes>, i: nat, k: nat, rest: bytes)
    requires i < k <= |plan.entries| && AsAnnounced(plan.entries, contents)
    ensures At(Body(plan, contents, k) + rest, BodyLen(plan.entries, plan.zip64, i), Blob(plan, i, contents[i]))
  {
    hide Blob, BodyLen, At;
    var blob, before := Blob(plan, k - 1, contents[k - 1]), Body(plan, contents, k - 1);
    if i == k - 1 {
      BodyLength(plan, contents, i);
      AtMiddle(before, blob, rest);
    } else {
      BlobAsPlanned(plan, contents, i, k - 1, blob + rest);
      assert before + blob + rest == before + (blob + rest);
    }
  }

  lemma {:induction false} CentralLength(plan: ZipPlan, crcs: seq<nat>, k: nat)
    requires k <= |plan.entries| == |plan.offsets| == |crcs|
    ensures |CentralHeaders(plan, crcs, k)| == CentralLen(plan.entries, plan.zip64, k)
  {
    hide CentralHeader, CentralHeaderLen;
    if k > 0 {
      CentralLength(plan, crcs, k - 1);
      CentralHeaderLength(plan, k - 1, crcs[k - 1]);
    }
  }

  /** Every central header stands where the plan says, from any start. */
  lemma {:induction false} CentralHeaderAsPlanned(
    plan: ZipPlan, crcs: seq<nat>, i: nat, k: nat, before: bytes, rest: bytes)
    requires i < k <= |plan.entries| == |plan.offsets| == |crcs|
    ensures At(before + (CentralHeaders(plan, crcs, k) + rest),
               |before| + CentralLen(plan.entries, plan.zip64, i), CentralHeader(plan, i, crcs[i]))
  {
    hide CentralHeader, CentralLen, At;
    var header, soFar := CentralHeader(plan, k - 1, crcs[k - 1]), CentralHeaders(plan, crcs, k - 1);
    if i == k - 1 {
      CentralLength(plan, crcs, i);
      AtMiddle(before + soFar, header, rest);
      assert before + soFar + header + rest == before + (soFar + header + rest);
    } else {
      CentralHeaderAsPlanned(plan, crcs, i, k - 1, before, header + rest);
      assert soFar + header + rest == soFar + (header + rest);
    }
  }

  lemma BlobInArchive(plan: ZipPlan, contents: seq<bytes>, i: nat)
    requires Planned(plan) && AsAnnounced(plan.entries, contents) && i < |contents|
    ensures At(Archive(plan, contents), plan.offsets[i], Blob(plan, i, contents[i]))
  {
    hide Body, Blob, BodyLen, CentralHeaders, EndRecords, At;
    var n := |contents|;
    BlobAsPlanned(plan, contents, i, n, CentralHeaders(plan, Crcs(contents), n) + EndRecords(plan));
  }

  lemma CentralHeaderInArchive(plan: ZipPlan, contents: seq<bytes>, i: nat)
    requires Planned(plan) && AsAnnounced(plan.entries, contents) && i < |contents|
    ensures At(Archive(plan, contents), plan.centralOffset + CentralLen(plan.entries, plan.zip64, i),
               CentralHeader(plan, i, CrcOf(contents[i])))
  {
    hide CrcOf, Body, CentralHeaders, CentralHeader, EndRecords, BodyLen, CentralLen, At, TotalLen, Offsets;
    var n := |contents|;
    BodyLength(plan, contents, n);
    assert |plan.offsets| == |plan.entries|;
    assert Crcs(contents)[i] == CrcOf(contents[i]);
    CentralHeaderAsPlanned(plan, Crcs(contents), i, n, Body(plan, contents, n), EndRecords(plan));
  }

  lemma EndInArchive(plan: ZipPlan, contents: seq<bytes>)
    requires Planned(plan) && AsAnnounced(plan.entries, contents)
    ensures |Archive(plan, contents)| == plan.totalLen
    ensures At(Archive(plan, contents), plan.centralOffset + plan.centralSize, EndRecords(plan))
  {
    hide Body, CentralHeaders, EndRecords, BodyLen, CentralLen, At, CrcOf;
    var n := |contents|;
    var body, central, end := Body(plan, contents, n), CentralHeaders(plan, Crcs(contents), n), EndRecords(plan);
    BodyLength(plan, contents, n);
    CentralLength(plan, Crcs(contents), n);
    EndRecordsLength(plan);
    AtEnd(body, central, end);
  }

  /** The whole archive as planned: places of all records, and the announced length. */
  lemma ArchiveAsPlanned(plan: ZipPlan, contents: seq<bytes>)
    requires Planned(plan) && AsAnnounced(plan.entries, contents)
    ensures var z := Archive(plan, contents);
            && |z| == plan.totalLen
            && (forall i :: 0 <= i < |contents| ==> At(z, plan.offsets[i], Blob(plan, i, contents[i])))
            && (forall i :: 0 <= i < |contents| ==>
                  At(z, plan.centralOffset + CentralLen(plan.entries, plan.zip64, i),
                     CentralHeader(plan, i, CrcOf(contents[i]))))
            && At(z, plan.centralOffset + plan.centralSize, EndRecords(plan))
  {
    hide At, Archive, Blob, CentralHeader, CentralLen, CrcOf, BodyLen, TotalLen;
    EndInArchive(plan, contents);
    forall i | 0 <= i < |contents|
      ensures At(Archive(plan, contents), plan.offsets[i], Blob(plan, i, contents[i]))
      ensures At(Archive(plan, contents), plan.centralOffset + CentralLen(plan.entries, plan.zip64, i),
                 CentralHeader(plan, i, CrcOf(contents[i])))
    {
      BlobInArchive(plan, contents, i);
      CentralHeaderInArchive(plan, contents, i);
    }
  }
}
