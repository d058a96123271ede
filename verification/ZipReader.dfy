/** A reader of ZIP archives after PKWARE APPNOTE.TXT, and the proof that it recovers what the writer wrote. */
module ZipReader {
  import opened Bytes
  import opened Zip
  import DosDate

  /** What a reader learns of one entry. */
  datatype Member = Member(name: bytes, utf8: bool, dosTime: nat, dosDate: nat, crc: nat, content: bytes)

  /** The fields of a record at a position, when the record lies inside the file. */
  function ReadAt(z: bytes, pos: nat, widths: seq<nat>): (r: Option<seq<nat>>)
    ensures r.Some? ==> |r.value| == |widths| && pos + Sum(widths) <= |z|
  {
    if pos + Sum(widths) <= |z| then Some(Get(z[pos..], widths)) else None
  }

  function Slice(z: bytes, pos: nat, len: nat): Option<bytes>
  {
    if pos + len <= |z| then Some(z[pos..pos + len]) else None
  }

  // ---- Section 4.5.3: the ZIP64 extended information extra field ----

  /** The data of the first extra block with the given header id (section 4.5.1). */
  function FindExtra(extra: bytes, id: nat): Option<bytes>
    decreases |extra|
  {
    var head := ReadAt(extra, 0, [2, 2]);
    if head.None? || |extra| < 4 then None
    else if head.value[0] == id then Slice(extra, 4, head.value[1])
    else if 4 + head.value[1] <= |extra| then FindExtra(extra[4 + head.value[1]..], id)
    else None
  }

  /** The next 8-byte value of the block when the short field holds the sentinel, else the short field. */
  function Widen(data: bytes, short: nat): Option<(nat, bytes)>
  {
    if short != U32_MAX then Some((short, data))
    else if |data| >= 8 then Some((Value(data[..8]), data[8..]))
    else None
  }

  datatype Sizes = Sizes(size: nat, stored: nat, offset: nat)

  /** Size, stored size and local header offset of a central header, widened where they are sentinels. */
  function WidenAll(extra: bytes, size: nat, stored: nat, offset: nat): Option<Sizes>
  {
    if size != U32_MAX && stored != U32_MAX && offset != U32_MAX then Some(Sizes(size, stored, offset))
    else
      var block := FindExtra(extra, 1);
      if block.None? then None
      else
        var first := Widen(block.value, size);
        if first.None? then None
        else
          var second := Widen(first.value.1, stored);
          if second.None? then None
          else
            var third := Widen(second.value.1, offset);
            if third.None? then None
            else Some(Sizes(first.value.0, second.value.0, third.value.0))
  }

  // ---- Sections 4.3.7 and 4.3.9: local header, content, data descriptor ----

  predicate DescriptorAgrees(z: bytes, pos: nat, wide: bool, crc: nat, size: nat)
  {
    ReadAt(z, pos, if wide then [4, 4, 8, 8] else [4, 4, 4, 4]) == Some([0x0807_4b50, crc, size, size])
  }

  function LocalWidths(): seq<nat>
  {
    [4, 2, 2, 2, 2, 2, 4, 4, 4, 2, 2]
  }

  /** What the central header says of an entry before its checksum (section 4.4). */
  datatype Common = Common(version: nat, flags: nat, compression: nat, dosTime: nat, dosDate: nat)
  {
    /** Stored, with sizes in a descriptor behind the content, and by a version this reader knows. */
    predicate Readable()
    {
      version <= 45 && compression == 0 && (flags / 8) % 2 == 1
    }
  }

  /** The local header repeats the central one and leaves checksum and sizes to the descriptor (section 4.4.4). */
  predicate LocalAgrees(h: seq<nat>, common: Common)
    requires |h| == 11
  {
    && h[0] == 0x0403_4b50 && common.Readable()
    && common == Common(h[1], h[2], h[3], h[4], h[5]) && h[6] == h[7] == h[8] == 0
  }

  /**
   * The content behind an extra field, with its descriptor. A ZIP64 field makes the descriptor wide, holds both
   * sizes (section 4.5.3) and needs version 4.5 (section 4.4.3.2).
   */
  function ReadContent(z: bytes, start: nat, extra: bytes, version: nat, crc: nat, size: nat): Option<bytes>
  {
    var field := FindExtra(extra, 1);
    var wide := field.Some?;
    var content := Slice(z, start, size);
    if content.None? || CrcOf(content.value) != crc || (wide && (version < 45 || |field.value| != 16)) then None
    else if !DescriptorAgrees(z, start + size, wide, crc, size) then None
    else content
  }

  /** The content of a stored entry whose local header is at `pos`. */
  function ReadLocal(z: bytes, pos: nat, common: Common, name: bytes, crc: nat, size: nat): Option<bytes>
  {
    var h := ReadAt(z, pos, LocalWidths());
    if h.None? || !LocalAgrees(h.value, common) then None
    else
      var nameLen, extraLen := h.value[9], h.value[10];
      var extra := Slice(z, pos + 30 + nameLen, extraLen);
      if Slice(z, pos + 30, nameLen) != Some(name) || extra.None? then None
      else ReadContent(z, pos + 30 + nameLen + extraLen, extra.value, common.version, crc, size)
  }

  // ---- Section 4.3.12: the central directory ----

  function CentralWidths(): seq<nat>
  {
    [4, 2, 2, 2, 2, 2, 2, 4, 4, 4, 2, 2, 2, 2, 2, 4, 4]
  }

  /** The entry a central header with fields `h` at `pos` leads to. */
  function MemberOf(z: bytes, pos: nat, h: seq<nat>): Option<Member>
    requires |h| == 17
  {
    var name := Slice(z, pos + 46, h[10]);
    var extra := Slice(z, pos + 46 + h[10], h[11]);
    if name.None? || extra.None? then None
    else
      var sizes := WidenAll(extra.value, h[9], h[8], h[16]);
      if sizes.None? || sizes.value.size != sizes.value.stored then None
      else
        var common := Common(h[2], h[3], h[4], h[5], h[6]);
        var content := ReadLocal(z, sizes.value.offset, common, name.value, h[7], sizes.value.size);
        if content.None? then None
        else Some(Member(name.value, (h[3] / 2048) % 2 == 1, h[5], h[6], h[7], content.value))
  }

  /** One central header at `pos` with the entry it leads to, and the position after it. */
  function ReadCentral(z: bytes, pos: nat): Option<(Member, nat)>
  {
    var h := ReadAt(z, pos, CentralWidths());
    if h.None? then None
    else if h.value[0] != 0x0201_4b50 || h.value[13] != 0 then None
    else
      var member := MemberOf(z, pos, h.value);
      if member.None? then None
      else Some((member.value, pos + 46 + h.value[10] + h.value[11] + h.value[12]))
  }

  /** `count` central headers from `pos`, and the position after the last. */
  function ReadDirectory(z: bytes, pos: nat, count: nat): Option<(seq<Member>, nat)>
    decreases count
  {
    if count == 0 then Some(([], pos))
    else
      var first := ReadCentral(z, pos);
      if first.None? then None
      else
        var others := ReadDirectory(z, first.value.1, count - 1);
        if others.None? then None
        else Some(([first.value.0] + others.value.0, others.value.1))
  }

  // ---- Sections 4.3.14 to 4.3.16: the end records ----

  datatype Directory = Directory(count: nat, size: nat, offset: nat)

  /** Follows the ZIP64 locator in front of the end record at `pos`. */
  function ReadZip64End(z: bytes, pos: nat): Option<Directory>
  {
    if pos < 20 then None
    else
      var l := ReadAt(z, pos - 20, [4, 4, 8, 4]);
      if l.None? || l.value[0] != 0x0706_4b50 || l.value[1] != 0 || l.value[3] != 1 then None
      else
        var r := ReadAt(z, l.value[2], [4, 8, 2, 2, 4, 4, 8, 8, 8, 8]);
        if r.None? || r.value[0] != 0x0606_4b50 || r.value[3] > 45 || r.value[6] != r.value[7] then None
        else if r.value[1] != 44 || r.value[4] != 0 || r.value[5] != 0 || l.value[2] + 56 != pos - 20 then None
        else Some(Directory(r.value[7], r.value[8], r.value[9]))
  }

  /** The end record in the last 22 bytes; the ZIP64 records are followed only on a sentinel. */
  function ReadEnd(z: bytes): Option<Directory>
  {
    if |z| < 22 then None
    else
      var e := ReadAt(z, |z| - 22, [4, 2, 2, 2, 2, 4, 4, 2]);
      if e.None? || e.value[0] != 0x0605_4b50 || e.value[3] != e.value[4] || e.value[7] != 0 then None
      else if e.value[1] != 0 || e.value[2] != 0 then None
      else if e.value[4] == U16_MAX || e.value[5] == U32_MAX || e.value[6] == U32_MAX then
        ReadZip64End(z, |z| - 22)
      else Some(Directory(e.value[4], e.value[5], e.value[6]))
  }

  function ReadArchive(z: bytes): Option<seq<Member>>
  {
    var d := ReadEnd(z);
    if d.None? then None
    else
      var members := ReadDirectory(z, d.value.offset, d.value.count);
      if members.None? || members.value.1 != d.value.offset + d.value.size then None
      else Some(members.value.0)
  }

  // ---- The round trip ----

  /** A printed record is read back from where it stands. */
  lemma ReadPrinted(z: bytes, pos: nat, fields: seq<Field>, widths: seq<nat>)
    requires At(z, pos, Put(fields)) && Fits(fields) && Widths(fields) == widths
    ensures ReadAt(z, pos, widths) == Some(Values(fields))
  {
    PutLength(fields);
    var rest := z[pos + |Put(fields)|..];
    assert z[pos..] == Put(fields) + rest;
    GetOfPut(fields, rest);
  }

  /** The parts of three consecutive pieces. */
  lemma AtThree(z: bytes, pos: nat, a: bytes, b: bytes, c: bytes)
    requires At(z, pos, a + b + c)
    ensures At(z, pos, a) && At(z, pos + |a|, b) && At(z, pos + |a| + |b|, c)
  {
    AtSplit(z, pos, a + b, c);
    AtSplit(z, pos, a, b);
  }

  lemma SliceOfAt(z: bytes, pos: nat, part: bytes)
    requires At(z, pos, part)
    ensures Slice(z, pos, |part|) == Some(part)
  {
  }

  lemma LocalHeaderFits(plan: ZipPlan, index: nat)
    requires Printable(plan) && index < |plan.entries|
    ensures Fits(LocalHeaderFields(plan, index)) && Fits(LocalExtra(plan))
  {
    WidthBounds();
    assert plan.entries[index] in plan.entries;
  }

  lemma DescriptorFits(plan: ZipPlan, index: nat, crc: nat)
    requires Printable(plan) && index < |plan.entries| && crc <= U32_MAX
    ensures Fits(DescriptorFields(plan, index, crc))
  {
    WidthBounds();
  }

  lemma CentralHeaderFits(plan: ZipPlan, index: nat, crc: nat)
    requires Printable(plan) && index < |plan.entries| && crc <= U32_MAX
    ensures Fits(CentralHeaderFields(plan, index, crc)) && Fits(CentralExtra(plan, index))
  {
    WidthBounds();
    assert plan.entries[index] in plan.entries;
  }

  lemma EndFits(plan: ZipPlan)
    requires Printable(plan)
    ensures Fits(EndFields(plan)) && Fits(LocatorFields(plan)) && (plan.zip64 ==> Fits(Zip64EndFields(plan)))
  {
    WidthBounds();
  }

  lemma ExtraBlock(id: nat, data: seq<Field>)
    requires id <= U16_MAX && |Put(data)| <= U16_MAX
    ensures FindExtra(Put([Field(2, id), Field(2, |Put(data)|)] + data), id) == Some(Put(data))
  {
    var head := [Field(2, id), Field(2, |Put(data)|)];
    var extra := Put(head + data);
    PutConcat(head, data);
    WidthBounds();
    ShapeOf(head, [2, 2], [0, 2, 4]);
    assert extra[0..4] == Put(head) && extra[4..4 + |Put(data)|] == Put(data);
    assert At(extra, 0, Put(head));
    ReadPrinted(extra, 0, head, [2, 2]);
  }

  lemma LocalExtraIsFound(plan: ZipPlan)
    ensures FindExtra(Put(LocalExtra(plan)), 1).Some? <==> plan.zip64
    ensures plan.zip64 ==> |FindExtra(Put(LocalExtra(plan)), 1).value| == 16
  {
    if plan.zip64 {
      var data := [Field(8, 0), Field(8, 0)];
      ShapeOf(data, [8, 8], [0, 8, 16]);
      assert LocalExtra(plan) == [Field(2, 1), Field(2, 16)] + data;
      ExtraBlock(1, data);
    }
  }

  function CommonOf(plan: ZipPlan): Common
  {
    Common(plan.Version(), FLAGS, 0, plan.dosTime, plan.dosDate)
  }

  /** The fields a reader uses of the local header of entry `i`. */
  predicate LocalValues(h: seq<nat>, plan: ZipPlan, i: nat)
    requires i < |plan.entries|
  {
    && |h| == 11 && LocalAgrees(h, CommonOf(plan))
    && h[9] == |plan.entries[i].name| && h[10] == if plan.zip64 then 20 else 0
  }

  lemma LocalHeaderValues(plan: ZipPlan, i: nat)
    requires i < |plan.entries|
    ensures LocalValues(Values(LocalHeaderFields(plan, i)), plan, i)
  {
  }

  lemma LocalHeaderRead(z: bytes, pos: nat, plan: ZipPlan, i: nat)
    requires Printable(plan) && i < |plan.entries| && At(z, pos, Put(LocalHeaderFields(plan, i)))
    ensures var h := ReadAt(z, pos, LocalWidths());
            h.Some? && LocalValues(h.value, plan, i)
  {
    LocalHeaderShape(plan, i);
    LocalHeaderFits(plan, i);
    LocalHeaderValues(plan, i);
    hide At, ReadAt, LocalHeaderFields, LocalValues;
    ReadPrinted(z, pos, LocalHeaderFields(plan, i), LocalWidths());
  }

  lemma DescriptorRead(z: bytes, pos: nat, plan: ZipPlan, i: nat, crc: nat)
    requires Printable(plan) && i < |plan.entries| && crc <= U32_MAX && At(z, pos, DataDescriptor(plan, i, crc))
    ensures DescriptorAgrees(z, pos, plan.zip64, crc, plan.entries[i].size)
  {
    DescriptorShape(plan, i, crc);
    DescriptorFits(plan, i, crc);
    hide At, ReadAt;
    ReadPrinted(z, pos, DescriptorFields(plan, i, crc), if plan.zip64 then [4, 4, 8, 8] else [4, 4, 4, 4]);
    var size := plan.entries[i].size;
    assert Values(DescriptorFields(plan, i, crc)) == [0x0807_4b50, crc, size, size];
  }

  /** The reader finds the content of an entry behind its local header. */
  lemma LocalRoundTrip(z: bytes, pos: nat, plan: ZipPlan, i: nat, content: bytes)
    requires Printable(plan) && i < |plan.entries| && |content| == plan.entries[i].size
    requires At(z, pos, Blob(plan, i, content))
    ensures ReadLocal(z, pos, CommonOf(plan), plan.entries[i].name, CrcOf(content), |content|) == Some(content)
  {
    hide At, ReadAt, Slice, CrcOf, LocalExtra, DataDescriptor, Blob, LocalHeader, ReadContent, LocalAgrees, LocalWidths;
    var name, extra := plan.entries[i].name, Put(LocalExtra(plan));
    LocalPartsAt(z, pos, plan, i, content);
    LocalHeaderRead(z, pos, plan, i);
    assert LocalValues(ReadAt(z, pos, LocalWidths()).value, plan, i);
    SliceOfAt(z, pos + 30, name);
    SliceOfAt(z, pos + 30 + |name|, extra);
    LocalExtraShape(plan);
    assert CommonOf(plan).version == plan.Version();
    ContentRead(z, pos + 30 + |name| + |extra|, plan, i, content);
    hide *;
    LocalFound(z, pos, ReadAt(z, pos, LocalWidths()).value, CommonOf(plan), name, extra,
               CrcOf(content), content);
  }

  lemma LocalFound(
    z: bytes, pos: nat, h: seq<nat>, common: Common, name: bytes, extra: bytes, crc: nat, content: bytes)
    requires ReadAt(z, pos, LocalWidths()) == Some(h)
    requires |h| == 11 && LocalAgrees(h, common) && h[9] == |name| && h[10] == |extra|
    requires Slice(z, pos + 30, |name|) == Some(name) && Slice(z, pos + 30 + |name|, |extra|) == Some(extra)
    requires ReadContent(z, pos + 30 + |name| + |extra|, extra, common.version, crc, |content|) == Some(content)
    ensures ReadLocal(z, pos, common, name, crc, |content|) == Some(content)
  {
    hide ReadAt, Slice, LocalAgrees, ReadContent, LocalWidths;
  }

  lemma ContentRead(z: bytes, start: nat, plan: ZipPlan, i: nat, content: bytes)
    requires Printable(plan) && i < |plan.entries| && |content| == plan.entries[i].size
    requires At(z, start, content) && At(z, start + |content|, DataDescriptor(plan, i, CrcOf(content)))
    ensures ReadContent(z, start, Put(LocalExtra(plan)), plan.Version(), CrcOf(content), |content|) == Some(content)
  {
    hide At, Slice, CrcOf, FindExtra, LocalExtra, DataDescriptor, DescriptorAgrees, Put;
    LocalExtraIsFound(plan);
    SliceOfAt(z, start, content);
    DescriptorRead(z, start + |content|, plan, i, CrcOf(content));
    hide Printable;
  }

  lemma LocalPartsAt(z: bytes, pos: nat, plan: ZipPlan, i: nat, content: bytes)
    requires i < |plan.entries| && At(z, pos, Blob(plan, i, content))
    ensures var name, extra := plan.entries[i].name, Put(LocalExtra(plan));
            var start := pos + 30 + |name| + |extra|;
            && At(z, pos, Put(LocalHeaderFields(plan, i)))
            && At(z, pos + 30, name) && At(z, pos + 30 + |name|, extra)
            && At(z, start, content) && At(z, start + |content|, DataDescriptor(plan, i, CrcOf(content)))
  {
    hide At, CrcOf, LocalHeaderFields, LocalExtra, DataDescriptor;
    LocalHeaderShape(plan, i);
    AtThree(z, pos, LocalHeader(plan, i), content, DataDescriptor(plan, i, CrcOf(content)));
    AtThree(z, pos, Put(LocalHeaderFields(plan, i)), plan.entries[i].name, Put(LocalExtra(plan)));
  }

  lemma WidenPrinted(data: bytes, value: nat, rest: bytes)
    requires value < U64_LIMIT && data == LittleEndian(8, value) + rest
    ensures Widen(data, U32_MAX) == Some((value, rest))
  {
    WidthBounds();
    ValueOfLittleEndian(8, value);
    assert data[..8] == LittleEndian(8, value) && data[8..] == rest;
  }

  lemma CentralExtraRead(plan: ZipPlan, i: nat)
    requires Printable(plan) && i < |plan.entries|
    ensures var size, offset := plan.entries[i].size, plan.offsets[i];
            var short := if plan.zip64 then U32_MAX else size;
            WidenAll(Put(CentralExtra(plan, i)), short, short, if plan.zip64 then U32_MAX else offset)
              == Some(Sizes(size, size, offset))
  {
    var size, offset := plan.entries[i].size, plan.offsets[i];
    if plan.zip64 {
      var data := [Field(8, size), Field(8, size), Field(8, offset)];
      ShapeOf(data, [8, 8, 8], [0, 8, 16, 24]);
      assert CentralExtra(plan, i) == [Field(2, 1), Field(2, 24)] + data;
      ExtraBlock(1, data);
      hide FindExtra, LittleEndian, Widen, CentralExtra;
      PutThree(data);
      var tail := LittleEndian(8, offset) + [];
      WidenPrinted(Put(data), size, LittleEndian(8, size) + tail);
      WidenPrinted(LittleEndian(8, size) + tail, size, tail);
      WidenPrinted(tail, offset, []);
    }
  }

  lemma PutThree(data: seq<Field>)
    requires |data| == 3
    ensures Put(data) == LittleEndian(data[0].width, data[0].value)
                       + (LittleEndian(data[1].width, data[1].value)
                          + (LittleEndian(data[2].width, data[2].value) + []))
  {
    hide LittleEndian;
    assert Put(data[1..][1..][1..]) == [];
    assert Put(data[1..][1..]) == LittleEndian(data[2].width, data[2].value) + [];
    assert Put(data[1..]) == LittleEndian(data[1].width, data[1].value) + Put(data[1..][1..]);
  }

  /** The fields a reader uses of the central header of entry `i`. */
  predicate CentralValues(h: seq<nat>, plan: ZipPlan, i: nat, crc: nat)
    requires i < |plan.entries| == |plan.offsets|
  {
    && |h| == 17
    && h[0] == 0x0201_4b50 && h[2] == plan.Version() && h[3] == FLAGS && h[4] == 0 && h[12] == 0 && h[13] == 0
    && h[5] == plan.dosTime && h[6] == plan.dosDate && h[7] == crc
    && h[8] == h[9] == (if plan.zip64 then U32_MAX else plan.entries[i].size)
    && h[10] == |plan.entries[i].name| && h[11] == (if plan.zip64 then 28 else 0)
    && h[16] == (if plan.zip64 then U32_MAX else plan.offsets[i])
  }

  lemma CentralHeaderValues(plan: ZipPlan, i: nat, crc: nat)
    requires i < |plan.entries| == |plan.offsets|
    ensures CentralValues(Values(CentralHeaderFields(plan, i, crc)), plan, i, crc)
  {
  }

  lemma CentralHeaderRead(z: bytes, pos: nat, plan: ZipPlan, i: nat, crc: nat)
    requires Printable(plan) && i < |plan.entries| && crc <= U32_MAX
    requires At(z, pos, Put(CentralHeaderFields(plan, i, crc)))
    ensures var r := ReadAt(z, pos, CentralWidths());
            r.Some? && CentralValues(r.value, plan, i, crc)
  {
    CentralHeaderShape(plan, i, crc);
    CentralHeaderFits(plan, i, crc);
    CentralHeaderValues(plan, i, crc);
    hide At, ReadAt, CentralHeaderFields;
    ReadPrinted(z, pos, CentralHeaderFields(plan, i, crc), CentralWidths());
  }

  function MemberFor(plan: ZipPlan, i: nat, content: bytes): Member
    requires i < |plan.entries|
  {
    Member(plan.entries[i].name, true, plan.dosTime, plan.dosDate, CrcOf(content), content)
  }

  lemma MemberRoundTrip(z: bytes, pos: nat, plan: ZipPlan, i: nat, content: bytes, h: seq<nat>)
    requires Printable(plan) && i < |plan.entries| && |content| == plan.entries[i].size
    requires At(z, pos, CentralHeader(plan, i, CrcOf(content)))
    requires At(z, plan.offsets[i], Blob(plan, i, content))
    requires CentralValues(h, plan, i, CrcOf(content))
    ensures MemberOf(z, pos, h) == Some(MemberFor(plan, i, content))
  {
    hide At, Slice, CrcOf, Blob, ReadLocal, WidenAll, CentralExtra, CentralHeaderFields;
    var crc := CrcOf(content);
    var name, extra := plan.entries[i].name, Put(CentralExtra(plan, i));
    CentralHeaderShape(plan, i, crc);
    CentralExtraShape(plan, i);
    AtThree(z, pos, Put(CentralHeaderFields(plan, i, crc)), name, extra);
    SliceOfAt(z, pos + 46, name);
    SliceOfAt(z, pos + 46 + |name|, extra);
    CentralExtraRead(plan, i);
    LocalRoundTrip(z, plan.offsets[i], plan, i, content);
  }

  /** A central header leads the reader to its entry. */
  lemma CentralRoundTrip(z: bytes, pos: nat, plan: ZipPlan, i: nat, content: bytes)
    requires Printable(plan) && i < |plan.entries| && |content| == plan.entries[i].size
    requires At(z, pos, CentralHeader(plan, i, CrcOf(content)))
    requires At(z, plan.offsets[i], Blob(plan, i, content))
    ensures ReadCentral(z, pos)
              == Some((MemberFor(plan, i, content), pos + CentralHeaderLen(plan.entries[i], plan.zip64)))
  {
    hide At, ReadAt, CrcOf, Blob, MemberOf, MemberFor, CentralHeader, CentralHeaderFields, Sum, Put;
    var crc := CrcOf(content);
    CentralPartAt(z, pos, plan, i, crc);
    assert |plan.offsets| == |plan.entries|;
    hide Printable;
    CentralHeaderRead(z, pos, plan, i, crc);
    var h := ReadAt(z, pos, CentralWidths()).value;
    MemberRoundTrip(z, pos, plan, i, content, h);
  }

  lemma CentralPartAt(z: bytes, pos: nat, plan: ZipPlan, i: nat, crc: nat)
    requires i < |plan.entries| == |plan.offsets| && At(z, pos, CentralHeader(plan, i, crc))
    ensures At(z, pos, Put(CentralHeaderFields(plan, i, crc)))
  {
    hide At, CentralHeaderFields, CentralExtra;
    AtThree(z, pos, Put(CentralHeaderFields(plan, i, crc)), plan.entries[i].name, Put(CentralExtra(plan, i)));
  }

  lemma EndValues(plan: ZipPlan)
    requires !plan.zip64
    ensures var v, n := Values(EndFields(plan)), |plan.entries|;
            v == [0x0605_4b50, 0, 0, n, n, plan.centralSize, plan.centralOffset, 0]
  {
  }

  lemma EndValuesZip64(plan: ZipPlan)
    requires plan.zip64
    ensures var v := Values(EndFields(plan));
            v == [0x0605_4b50, 0, 0, U16_MAX, U16_MAX, U32_MAX, U32_MAX, 0]
  {
  }

  lemma Zip64EndValues(plan: ZipPlan)
    ensures var v, n := Values(Zip64EndFields(plan)), |plan.entries|;
            v == [0x0606_4b50, 44, 45, 45, 0, 0, n, n, plan.centralSize, plan.centralOffset]
    ensures Values(LocatorFields(plan)) == [0x0706_4b50, 0, plan.centralOffset + plan.centralSize, 1]
  {
  }

  /** The end records lead the reader to the directory, in both formats. */
  lemma EndRoundTrip(z: bytes, plan: ZipPlan)
    requires Printable(plan) && |z| == plan.centralOffset + plan.centralSize + EndLen(plan.zip64)
    requires At(z, plan.centralOffset + plan.centralSize, EndRecords(plan))
    ensures ReadEnd(z) == Some(Directory(|plan.entries|, plan.centralSize, plan.centralOffset))
  {
    if plan.zip64 {
      hide *;
      EndRoundTripZip64(z, plan);
    } else {
      hide *;
      EndRoundTripClassic(z, plan);
    }
  }

  lemma EndRoundTripClassic(z: bytes, plan: ZipPlan)
    requires Printable(plan) && !plan.zip64 && |z| == plan.centralOffset + plan.centralSize + EndLen(plan.zip64)
    requires At(z, plan.centralOffset + plan.centralSize, EndRecords(plan))
    ensures ReadEnd(z) == Some(Directory(|plan.entries|, plan.centralSize, plan.centralOffset))
  {
    EndShape(plan);
    EndFits(plan);
    EndValues(plan);
    assert EndRecords(plan) == Put(EndFields(plan));
    var n := |plan.entries|;
    assert InField(plan, plan.centralSize) && InField(plan, plan.centralOffset);
    assert n != U16_MAX && plan.centralSize != U32_MAX && plan.centralOffset != U32_MAX;
    hide At, ReadAt, ReadZip64End, EndFields, EndRecords, Put, Values, Widths, Fits;
    ReadPrinted(z, |z| - 22, EndFields(plan), [4, 2, 2, 2, 2, 4, 4, 2]);
    hide Printable;
    var e := ReadAt(z, |z| - 22, [4, 2, 2, 2, 2, 4, 4, 2]);
    assert e == Some([0x0605_4b50, 0, 0, n, n, plan.centralSize, plan.centralOffset, 0]);
    assert e.value[0] == 0x0605_4b50 && e.value[3] == n && e.value[4] == n;
    assert e.value[5] == plan.centralSize && e.value[6] == plan.centralOffset && e.value[7] == 0;
  }

  lemma EndRoundTripZip64(z: bytes, plan: ZipPlan)
    requires Printable(plan) && plan.zip64 && |z| == plan.centralOffset + plan.centralSize + EndLen(plan.zip64)
    requires At(z, plan.centralOffset + plan.centralSize, EndRecords(plan))
    ensures ReadEnd(z) == Some(Directory(|plan.entries|, plan.centralSize, plan.centralOffset))
  {
    var pos := plan.centralOffset + plan.centralSize;
    EndShape(plan);
    EndFits(plan);
    Zip64EndShape(plan);
    LocatorShape(plan);
    EndValuesZip64(plan);
    hide At, ReadAt, ReadZip64End, EndFields, Zip64EndFields, LocatorFields, Put, Values, Widths, Fits;
    AtThree(z, pos, Put(Zip64EndFields(plan)), Put(LocatorFields(plan)), Put(EndFields(plan)));
    ReadPrinted(z, pos + 76, EndFields(plan), [4, 2, 2, 2, 2, 4, 4, 2]);
    Zip64EndRead(z, pos, plan);
  }

  lemma Zip64EndRead(z: bytes, pos: nat, plan: ZipPlan)
    requires Printable(plan) && plan.zip64 && pos == plan.centralOffset + plan.centralSize
    requires At(z, pos, Put(Zip64EndFields(plan))) && At(z, pos + 56, Put(LocatorFields(plan)))
    ensures ReadZip64End(z, pos + 76) == Some(Directory(|plan.entries|, plan.centralSize, plan.centralOffset))
  {
    Zip64EndShape(plan);
    LocatorShape(plan);
    EndFits(plan);
    hide At, ReadAt, Zip64EndFields, LocatorFields, Printable, Put, Values, Widths, Fits;
    ReadPrinted(z, pos, Zip64EndFields(plan), [4, 8, 2, 2, 4, 4, 8, 8, 8, 8]);
    ReadPrinted(z, pos + 56, LocatorFields(plan), [4, 4, 8, 4]);
    Zip64EndValues(plan);
    var l, r := [0x0706_4b50, 0, pos, 1], [0x0606_4b50, 44, 45, 45, 0, 0, |plan.entries|, |plan.entries|,
                                           plan.centralSize, plan.centralOffset];
    assert ReadAt(z, pos + 56, [4, 4, 8, 4]) == Some(l) && l[0] == 0x0706_4b50 && l[1] == 0 && l[2] == pos && l[3] == 1;
    assert ReadAt(z, pos, [4, 8, 2, 2, 4, 4, 8, 8, 8, 8]) == Some(r);
    assert r[0] == 0x0606_4b50 && r[1] == 44 && r[3] == 45 && r[4] == r[5] == 0;
    assert r[6] == r[7] == |plan.entries| && r[8] == plan.centralSize && r[9] == plan.centralOffset;
  }

  function MembersFrom(plan: ZipPlan, contents: seq<bytes>, i: nat): seq<Member>
    requires i <= |plan.entries| == |contents|
    decreases |contents| - i
  {
    if i == |contents| then [] else [MemberFor(plan, i, contents[i])] + MembersFrom(plan, contents, i + 1)
  }

  lemma {:induction false} DirectoryRoundTrip(z: bytes, plan: ZipPlan, contents: seq<bytes>, i: nat)
    requires Printable(plan) && AsAnnounced(plan.entries, contents) && i <= |contents|
    requires forall j :: 0 <= j < |contents| ==> At(z, plan.offsets[j], Blob(plan, j, contents[j]))
    requires forall j :: 0 <= j < |contents| ==>
               At(z, plan.centralOffset + CentralLen(plan.entries, plan.zip64, j),
                  CentralHeader(plan, j, CrcOf(contents[j])))
    ensures ReadDirectory(z, plan.centralOffset + CentralLen(plan.entries, plan.zip64, i), |contents| - i)
              == Some((MembersFrom(plan, contents, i),
                       plan.centralOffset + CentralLen(plan.entries, plan.zip64, |contents|)))
    decreases |contents| - i
  {
    hide At, Blob, CentralHeader, CrcOf, ReadCentral, MemberFor, Printable, CentralLen, CentralHeaderLen;
    if i < |contents| {
      CentralLenStep(plan, i);
      CentralRoundTrip(
        z, plan.centralOffset + CentralLen(plan.entries, plan.zip64, i), plan, i, contents[i]);
      DirectoryRoundTrip(z, plan, contents, i + 1);
    }
  }

  lemma CentralLenStep(plan: ZipPlan, i: nat)
    requires i < |plan.entries|
    ensures CentralLen(plan.entries, plan.zip64, i + 1)
         == CentralLen(plan.entries, plan.zip64, i) + CentralHeaderLen(plan.entries[i], plan.zip64)
  {
  }

  lemma CentralLenIsZero(plan: ZipPlan)
    ensures CentralLen(plan.entries, plan.zip64, 0) == 0
  {
  }

  /** What the reader must recover: names, dates, checksums and contents, in order. */
  function Members(plan: ZipPlan, contents: seq<bytes>): (members: seq<Member>)
    requires |plan.entries| == |contents|
  {
    seq(|contents|, i requires 0 <= i < |contents| => MemberFor(plan, i, contents[i]))
  }

  lemma {:induction false} MembersFromIs(plan: ZipPlan, contents: seq<bytes>, i: nat)
    requires i <= |plan.entries| == |contents|
    ensures MembersFrom(plan, contents, i) == Members(plan, contents)[i..]
    decreases |contents| - i
  {
    if i < |contents| {
      MembersFromIs(plan, contents, i + 1);
    }
  }

  /** A printable archive is read back in full. */
  lemma PrintedArchiveRoundTrip(plan: ZipPlan, contents: seq<bytes>)
    requires Planned(plan) && Printable(plan) && AsAnnounced(plan.entries, contents)
    ensures ReadArchive(Archive(plan, contents)) == Some(Members(plan, contents))
  {
    hide Printable, Archive, At, Blob, CentralHeader, CrcOf, EndRecords, CentralLen, BodyLen;
    hide ReadEnd, ReadDirectory, MemberFor;
    var z := Archive(plan, contents);
    ArchiveAsPlanned(plan, contents);
    CentralLenIsZero(plan);
    EndRoundTrip(z, plan);
    DirectoryRoundTrip(z, plan, contents, 0);
    MembersFromIs(plan, contents, 0);
  }

  /**
   * For any entries whose names are under 65536 bytes and whose archive length is within u64, the archive
   * of the plan that `new` chooses, classic or ZIP64, gives back every name, date, checksum and content in order.
   */
  lemma ArchiveRoundTrip(entries: seq<ZipEntry>, unixSecs: nat, contents: seq<bytes>)
    requires forall e <- entries :: |e.name| <= U16_MAX
    requires TotalLen(entries, true) < U64_LIMIT
    requires AsAnnounced(entries, contents)
    ensures var plan := Kept(PlanWith(entries, ChoosesZip64(entries), unixSecs));
            ReadArchive(Archive(plan, contents)) == Some(Members(plan, contents))
  {
    NewPlanIsExact(entries, unixSecs);
    NewPlanIsPrintable(entries, NeedsZip64(entries), unixSecs);
    hide DosDate.DosDateTime, Printable, Archive, Wrap, ReadArchive, Members;
    PrintedArchiveRoundTrip(PlanWith(entries, NeedsZip64(entries), unixSecs), contents);
  }

  /** The same for the plan that is ZIP64 even when it need not be. */
  lemma Zip64ArchiveRoundTrip(entries: seq<ZipEntry>, unixSecs: nat, contents: seq<bytes>)
    requires forall e <- entries :: |e.name| <= U16_MAX
    requires TotalLen(entries, true) < U64_LIMIT
    requires AsAnnounced(entries, contents)
    ensures var plan := PlanWith(entries, true, unixSecs);
            ReadArchive(Archive(plan, contents)) == Some(Members(plan, contents))
  {
    NewPlanIsPrintable(entries, true, unixSecs);
    hide DosDate.DosDateTime, Printable, Archive;
    PrintedArchiveRoundTrip(PlanWith(entries, true, unixSecs), contents);
  }
}
