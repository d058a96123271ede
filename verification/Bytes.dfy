/** Bytes, little-endian fields and positions inside a byte string. */
module Bytes {

  type byte = x: int | 0 <= x < 256

  type bytes = seq<byte>

  datatype Option<+T> = None | Some(value: T)

  /** 256 to the power of `width`. */
  function Pow256(width: nat): (p: nat)
    ensures p >= 1
  {
    if width == 0 then 1 else 256 * Pow256(width - 1)
  }

  /** `value.to_le_bytes()` after an `as` cast to `width` bytes: high bytes are dropped. */
  function LittleEndian(width: nat, value: nat): (s: bytes)
    ensures |s| == width
  {
    if width == 0 then [] else [value % 256] + LittleEndian(width - 1, value / 256)
  }

  /** The number a little-endian byte string stands for. */
  function Value(s: bytes): nat
  {
    if s == [] then 0 else s[0] + 256 * Value(s[1..])
  }

  /** Reading back a value that fits its field gives the value. */
  lemma {:induction false} ValueOfLittleEndian(width: nat, value: nat)
    requires value < Pow256(width)
    ensures Value(LittleEndian(width, value)) == value
  {
    if width > 0 {
      ValueOfLittleEndian(width - 1, value / 256);
      assert LittleEndian(width, value)[1..] == LittleEndian(width - 1, value / 256);
    }
  }

  /** The widths fields are written with. */
  lemma WidthBounds()
    ensures Pow256(2) == 0x1_0000
    ensures Pow256(4) == 0x1_0000_0000
    ensures Pow256(8) == 0x1_0000_0000_0000_0000
  {
    assert Pow256(1) == 256;
    assert Pow256(3) == 256 * Pow256(2);
    assert Pow256(5) == 256 * Pow256(4);
    assert Pow256(6) == 256 * Pow256(5);
    assert Pow256(7) == 256 * Pow256(6);
  }

  // ---- Records: consecutive fields ----

  /** One `put_u16` / `put_u32` / `put_u64`. */
  datatype Field = Field(width: nat, value: nat)

  /** The bytes of consecutive `put_…` calls. */
  function Put(fields: seq<Field>): bytes
  {
    if fields == [] then [] else LittleEndian(fields[0].width, fields[0].value) + Put(fields[1..])
  }

  function Sum(widths: seq<nat>): nat
  {
    if widths == [] then 0 else widths[0] + Sum(widths[1..])
  }

  /** Reads consecutive fields of the given widths. */
  function Get(s: bytes, widths: seq<nat>): (values: seq<nat>)
    requires Sum(widths) <= |s|
    ensures |values| == |widths|
  {
    if widths == [] then [] else [Value(s[..widths[0]])] + Get(s[widths[0]..], widths[1..])
  }

  predicate Fits(fields: seq<Field>)
  {
    forall i :: 0 <= i < |fields| ==> fields[i].value < Pow256(fields[i].width)
  }

  function Widths(fields: seq<Field>): (w: seq<nat>)
    ensures |w| == |fields|
    ensures forall i :: 0 <= i < |fields| ==> w[i] == fields[i].width
  {
    seq(|fields|, i requires 0 <= i < |fields| => fields[i].width)
  }

  function Values(fields: seq<Field>): (v: seq<nat>)
    ensures |v| == |fields|
    ensures forall i :: 0 <= i < |fields| ==> v[i] == fields[i].value
  {
    seq(|fields|, i requires 0 <= i < |fields| => fields[i].value)
  }

  lemma {:induction false} PutLength(fields: seq<Field>)
    ensures |Put(fields)| == Sum(Widths(fields))
  {
    if fields != [] {
      PutLength(fields[1..]);
      assert Widths(fields)[1..] == Widths(fields[1..]);
    }
  }

  /** Fields that fit are read back, whatever follows the record. */
  lemma {:induction false} GetOfPut(fields: seq<Field>, rest: bytes)
    requires Fits(fields)
    ensures Sum(Widths(fields)) <= |Put(fields) + rest|
    ensures Get(Put(fields) + rest, Widths(fields)) == Values(fields)
  {
    PutLength(fields);
    if fields != [] {
      var head := LittleEndian(fields[0].width, fields[0].value);
      var s := Put(fields) + rest;
      PutLength(fields[1..]);
      assert Widths(fields)[1..] == Widths(fields[1..]);
      assert s[..fields[0].width] == head;
      assert s[fields[0].width..] == Put(fields[1..]) + rest;
      ValueOfLittleEndian(fields[0].width, fields[0].value);
      GetOfPut(fields[1..], rest);
      assert Values(fields) == [fields[0].value] + Values(fields[1..]);
    }
  }

  lemma {:induction false} PutConcat(a: seq<Field>, b: seq<Field>)
    ensures Put(a + b) == Put(a) + Put(b)
  {
    if a == [] {
      assert a + b == b;
    } else {
      PutConcat(a[1..], b);
      assert (a + b)[1..] == a[1..] + b;
    }
  }

  /** The sum of widths whose running offsets are listed. */
  lemma SumOf(widths: seq<nat>, offsets: seq<nat>)
    requires |offsets| == |widths| + 1 && offsets[0] == 0
    requires forall i :: 0 <= i < |widths| ==> offsets[i + 1] == offsets[i] + widths[i]
    ensures Sum(widths) == offsets[|widths|]
  {
    SumOfSuffix(widths, offsets, 0);
    assert widths[0..] == widths;
  }

  lemma {:induction false} SumOfSuffix(widths: seq<nat>, offsets: seq<nat>, k: nat)
    requires k <= |widths| && |offsets| == |widths| + 1
    requires forall i :: 0 <= i < |widths| ==> offsets[i + 1] == offsets[i] + widths[i]
    ensures offsets[k] + Sum(widths[k..]) == offsets[|widths|]
    decreases |widths| - k
  {
    if k < |widths| {
      SumOfSuffix(widths, offsets, k + 1);
      assert widths[k..][1..] == widths[k + 1..];
      assert offsets[k + 1] == offsets[k] + widths[k];
    }
  }

  /** The shape of a record: its widths and its length. */
  lemma ShapeOf(fields: seq<Field>, widths: seq<nat>, offsets: seq<nat>)
    requires |fields| == |widths| && |offsets| == |widths| + 1 && offsets[0] == 0
    requires forall i :: 0 <= i < |widths| ==> fields[i].width == widths[i]
    requires forall i :: 0 <= i < |widths| ==> offsets[i + 1] == offsets[i] + widths[i]
    ensures Widths(fields) == widths
    ensures |Put(fields)| == offsets[|widths|]
  {
    assert Widths(fields) == widths;
    PutLength(fields);
    SumOf(widths, offsets);
  }

  // ---- Positions ----

  /** `part` stands at position `pos` of `whole`. */
  predicate At(whole: bytes, pos: nat, part: bytes)
  {
    pos + |part| <= |whole| && whole[pos..pos + |part|] == part
  }

  lemma AtSplit(whole: bytes, pos: nat, a: bytes, b: bytes)
    ensures At(whole, pos, a + b) <==> At(whole, pos, a) && At(whole, pos + |a|, b)
  {
    if At(whole, pos, a + b) {
      assert a == (a + b)[..|a|];
      assert b == (a + b)[|a|..];
    }
    if At(whole, pos, a) && At(whole, pos + |a|, b) {
      assert whole[pos..pos + |a + b|] == whole[pos..pos + |a|] + whole[pos + |a|..pos + |a| + |b|];
    }
  }

  lemma AtMiddle(before: bytes, part: bytes, after: bytes)
    ensures At(before + part + after, |before|, part)
  {
  }

  lemma AtEnd(a: bytes, b: bytes, c: bytes)
    ensures At(a + (b + c), |a| + |b|, c)
  {
    AtMiddle(a + b, c, []);
    assert a + (b + c) == a + b + c + [];
  }

  // ---- Byte strings in pieces ----

  function Concat(chunks: seq<bytes>): bytes
  {
    if chunks == [] then [] else Concat(chunks[..|chunks| - 1]) + chunks[|chunks| - 1]
  }

  lemma ConcatAppend(chunks: seq<bytes>, k: nat)
    requires k < |chunks|
    ensures Concat(chunks[..k + 1]) == Concat(chunks[..k]) + chunks[k]
  {
    assert chunks[..k + 1][..k] == chunks[..k];
  }

  lemma {:induction false} ConcatSplit(a: seq<bytes>, b: seq<bytes>)
    ensures Concat(a + b) == Concat(a) + Concat(b)
    decreases |b|
  {
    if b == [] {
      assert a + b == a;
    } else {
      var most := b[..|b| - 1];
      ConcatSplit(a, most);
      assert (a + b)[..|a + b| - 1] == a + most;
    }
  }

  lemma ConcatFirst(chunks: seq<bytes>)
    requires chunks != []
    ensures Concat(chunks) == chunks[0] + Concat(chunks[1..])
  {
    assert chunks == chunks[..1] + chunks[1..];
    ConcatSplit(chunks[..1], chunks[1..]);
    assert Concat(chunks[..1]) == chunks[0];
  }
}
