/** Names of archive entries: safe paths inside the archive, made unique without regard to case. */
module ZipNames {
  import opened Bytes

  const MAX_ZIP_FILES := 10_000
  const MAX_NAME_BYTES := 1000

  // ---- Characters ----

  predicate IsControl(c: char)
  {
    c <= '\U{1F}' || '\U{7F}' <= c <= '\U{9F}'
  }

  /** Unicode White_Space. */
  predicate IsWhite(c: char)
  {
    || '\U{09}' <= c <= '\U{0D}' || c == ' ' || c == '\U{85}' || c == '\U{A0}' || c == '\U{1680}'
    || '\U{2000}' <= c <= '\U{200A}' || c == '\U{2028}' || c == '\U{2029}' || c == '\U{202F}'
    || c == '\U{205F}' || c == '\U{3000}'
  }

  /** The UTF-8 bytes of a character. */
  function Utf8Char(c: char): (s: bytes)
    ensures 1 <= |s| <= 4
  {
    var x := c as int;
    if x < 0x80 then [x]
    else if x < 0x800 then [0xC0 + x / 64, 0x80 + x % 64]
    else if x < 0x1_0000 then [0xE0 + x / 4096, 0x80 + (x / 64) % 64, 0x80 + x % 64]
    else [0xF0 + x / 262_144, 0x80 + (x / 4096) % 64, 0x80 + (x / 64) % 64, 0x80 + x % 64]
  }

  function Utf8(s: string): bytes
  {
    if s == [] then [] else Utf8(s[..|s| - 1]) + Utf8Char(s[|s| - 1])
  }

  /** Lower case, character by character; what each letter maps to is left open. */
  function LowerCase(lower: char -> string, s: string): string
  {
    if s == [] then [] else LowerCase(lower, s[..|s| - 1]) + lower(s[|s| - 1])
  }

  ghost predicate KeepsSuffixCharacters(lower: char -> string)
  {
    forall c | c in "0123456789 ()" :: lower(c) == [c]
  }

  // ---- Cleaning ----

  function WithSlashes(s: string): string
  {
    seq(|s|, i requires 0 <= i < |s| => if s[i] == '\\' then '/' else s[i])
  }

  /** Position of the last occurrence of `c`. */
  function LastIndex(s: string, c: char): (r: Option<nat>)
    ensures r.Some? ==> r.value < |s| && s[r.value] == c && c !in s[r.value + 1..]
    ensures r.None? <==> c !in s
  {
    if s == [] then None
    else if s[|s| - 1] == c then Some(|s| - 1)
    else
      assert s == s[..|s| - 1] + [s[|s| - 1]];
      LastIndex(s[..|s| - 1], c)
  }

  function Split(s: string): (parts: seq<string>)
    ensures parts != []
    decreases |s|
  {
    match LastIndex(s, '/')
    case None => [s]
    case Some(i) => Split(s[..i]) + [s[i + 1..]]
  }

  function Join(parts: seq<string>): string
  {
    if parts == [] then ""
    else if |parts| == 1 then parts[0]
    else Join(parts[..|parts| - 1]) + "/" + parts[|parts| - 1]
  }

  function WithoutControls(s: string): (r: string)
    ensures forall c :: c in r ==> c in s && !IsControl(c)
  {
    if s == [] then []
    else
      var last := s[|s| - 1];
      WithoutControls(s[..|s| - 1]) + (if IsControl(last) then [] else [last])
  }

  function Trim(s: string): (r: string)
    ensures forall c :: c in r ==> c in s
    decreases |s|
  {
    if s == [] then []
    else if IsWhite(s[0]) then Trim(s[1..])
    else if IsWhite(s[|s| - 1]) then Trim(s[..|s| - 1])
    else s
  }

  predicate Proper(part: string)
  {
    part != "" && part != "." && part != ".."
  }

  predicate NoControls(s: string)
  {
    forall c <- s :: !IsControl(c)
  }

  function CleanParts(parts: seq<string>): (r: seq<string>)
    ensures forall p <- r :: Proper(p) && NoControls(p)
    ensures (forall p <- parts :: '/' !in p) ==> forall p <- r :: '/' !in p
  {
    if parts == [] then []
    else
      var part := Trim(WithoutControls(parts[|parts| - 1]));
      CleanParts(parts[..|parts| - 1]) + (if Proper(part) then [part] else [])
  }

  function CleanPath(name: string): string
  {
    Join(CleanParts(Split(WithSlashes(name))))
  }

  /** The longest prefix of at most `MAX_NAME_BYTES` bytes. */
  function Cut(s: string): (r: string)
    ensures r <= s && |Utf8(r)| <= MAX_NAME_BYTES
  {
    if |Utf8(s)| > MAX_NAME_BYTES then Cut(s[..|s| - 1]) else s
  }

  lemma {:induction false} CutIsLongest(s: string, p: string)
    requires p <= s && |Utf8(p)| <= MAX_NAME_BYTES
    ensures p <= Cut(s)
    decreases |s|
  {
    if |Utf8(s)| > MAX_NAME_BYTES {
      assert p != s;
      CutIsLongest(s[..|s| - 1], p);
    }
  }

  function CleanName(name: string): string
  {
    var cut := Cut(CleanPath(name));
    if cut == "" then "file" else cut
  }

  method CleanEntryName(name: string) returns (r: string)
    ensures r == CleanName(name)
  {
    var joined := CleanPath(name);
    while |Utf8(joined)| > MAX_NAME_BYTES
      invariant Cut(joined) == Cut(CleanPath(name))
    {
      joined := joined[..|joined| - 1];
    }
    r := if joined == "" then "file" else joined;
  }

  // ---- Suffixes ----

  function Digit(d: nat): (c: char)
    requires d < 10
    ensures c in "0123456789"
  {
    "0123456789"[d]
  }

  function Decimal(n: nat): (s: string)
    ensures s != [] && forall c :: c in s ==> c in "0123456789"
  {
    if n < 10 then [Digit(n)] else Decimal(n / 10) + [Digit(n % 10)]
  }

  /** The end of the folders. */
  function FolderLength(name: string): (k: nat)
    ensures k <= |name|
  {
    match LastIndex(name, '/')
    case None => 0
    case Some(i) => i + 1
  }

  /** The end of the stem of a name without folders. */
  function StemOfFile(file: string): (k: nat)
    ensures k <= |file|
  {
    match LastIndex(file, '.')
    case Some(dot) => if dot > 0 then dot else |file|
    case None => |file|
  }

  /** The end of the stem: before the extension of the last component, when it has one. */
  function StemLength(name: string): (k: nat)
    ensures k <= |name|
  {
    FolderLength(name) + StemOfFile(name[FolderLength(name)..])
  }

  function Mark(n: nat): string
  {
    " (" + Decimal(n) + ")"
  }

  function WithSuffix(name: string, n: nat): string
  {
    name[..StemLength(name)] + Mark(n) + name[StemLength(name)..]
  }

  // ---- Where the suffix goes ----

  predicate IsFolder(dir: string)
  {
    dir == "" || dir[|dir| - 1] == '/'
  }

  /** The extension starts at the last dot of the last component, unless that is its first character. */
  predicate HasParts(name: string, dir: string, stem: string, ext: string)
  {
    && name == dir + stem + ext
    && IsFolder(dir) && '/' !in stem && '/' !in ext
    && FileParts(stem, ext)
  }

  predicate FileParts(stem: string, ext: string)
  {
    if ext == "" then stem == "" || '.' !in stem[1..] else stem != "" && ext[0] == '.' && '.' !in ext[1..]
  }

  lemma LastIndexIs(a: string, c: char, b: string)
    requires c !in b
    ensures LastIndex(a + [c] + b, c) == Some(|a|)
  {
    var s := a + [c] + b;
    assert s[|a|] == c;
    assert s[|a| + 1..] == b;
  }

  lemma LastSlashOfFolder(dir: string, file: string)
    requires IsFolder(dir) && '/' !in file
    ensures FolderLength(dir + file) == |dir|
    ensures (dir + file)[|dir|..] == file
  {
    if dir == "" {
      assert dir + file == file;
    } else {
      LastIndexIs(dir[..|dir| - 1], '/', file);
      assert dir + file == dir[..|dir| - 1] + ['/'] + file;
    }
  }

  lemma StemWithoutDot(stem: string)
    requires stem == "" || '.' !in stem[1..]
    ensures StemOfFile(stem) == |stem|
  {
    var dot := LastIndex(stem, '.');
    hide LastIndex;
    assert forall i :: 1 <= i < |stem| ==> stem[i] in stem[1..];
  }

  lemma StemWithDot(stem: string, e: string)
    requires stem != "" && '.' !in e
    ensures StemOfFile(stem + ['.'] + e) == |stem|
  {
    hide LastIndex;
    LastIndexIs(stem, '.', e);
  }

  lemma StemOfParts(stem: string, ext: string)
    requires FileParts(stem, ext)
    ensures StemOfFile(stem + ext) == |stem|
  {
    hide StemOfFile;
    if ext == "" {
      StemWithoutDot(stem);
      assert stem + ext == stem;
    } else {
      StemWithDot(stem, ext[1..]);
      assert stem + ext == stem + ['.'] + ext[1..];
    }
  }

  lemma StemEnd(name: string, dir: string, stem: string, ext: string)
    requires HasParts(name, dir, stem, ext)
    ensures StemLength(name) == |dir + stem|
  {
    var file := stem + ext;
    hide StemOfFile, LastIndex, FileParts;
    LastSlashOfFolder(dir, file);
    assert name == dir + file;
    StemOfParts(stem, ext);
  }

  /** The suffix goes between the stem and the extension, in the last component. */
  lemma SuffixPlace(name: string, n: nat, dir: string, stem: string, ext: string)
    requires HasParts(name, dir, stem, ext)
    ensures WithSuffix(name, n) == dir + stem + " (" + Decimal(n) + ")" + ext
  {
    StemEnd(name, dir, stem, ext);
    hide StemLength, Decimal, HasParts;
    assert name == dir + stem + ext by { PartsMakeName(name, dir, stem, ext); }
    assert name[..|dir + stem|] == dir + stem && name[|dir + stem|..] == ext;
  }

  lemma PartsMakeName(name: string, dir: string, stem: string, ext: string)
    requires HasParts(name, dir, stem, ext)
    ensures name == dir + stem + ext
  {
  }

  lemma PartsOfFile(file: string)
    requires '/' !in file
    ensures var k := StemOfFile(file);
            '/' !in file[..k] && '/' !in file[k..] && FileParts(file[..k], file[k..])
  {
    var k := StemOfFile(file);
    assert file == file[..k] + file[k..];
    assert forall c <- file[..k] :: c in file;
    assert forall c <- file[k..] :: c in file;
    match LastIndex(file, '.')
    case None =>
      assert file[k..] == "" && file[..k] == file;
      assert file != "" ==> forall c <- file[1..] :: c in file;
    case Some(dot) =>
      if dot > 0 {
        assert file[k..][1..] == file[dot + 1..];
      } else {
        assert file[..k] == file;
      }
  }

  lemma FolderOf(name: string)
    ensures IsFolder(name[..FolderLength(name)]) && '/' !in name[FolderLength(name)..]
  {
  }

  /** Every name has such parts. */
  lemma PartsExist(name: string) returns (dir: string, stem: string, ext: string)
    ensures HasParts(name, dir, stem, ext)
  {
    hide FolderLength, StemOfFile, FileParts, IsFolder;
    FolderOf(name);
    var file := name[FolderLength(name)..];
    PartsOfFile(file);
    dir, stem, ext := name[..FolderLength(name)], file[..StemOfFile(file)], file[StemOfFile(file)..];
    assert name == dir + stem + ext;
  }

  /** The `k`-th form of a name that is tried. */
  function Candidate(clean: string, k: nat): string
  {
    if k <= 1 then clean else WithSuffix(clean, k)
  }

  /** `out` is the cleaned name, with a number in front of its extension when `k` is at least 2. */
  ghost predicate Numbered(name: string, out: string, k: nat)
  {
    forall dir, stem, ext :: HasParts(CleanName(name), dir, stem, ext) ==>
      out == dir + stem + (if k >= 2 then " (" + Decimal(k) + ")" else "") + ext
  }

  lemma CandidateIsNumbered(name: string, k: nat)
    ensures Numbered(name, Candidate(CleanName(name), k), k)
  {
    var clean := CleanName(name);
    hide CleanName, HasParts, WithSuffix, Decimal;
    forall dir, stem, ext | HasParts(clean, dir, stem, ext)
      ensures Candidate(clean, k) == dir + stem + (if k >= 2 then " (" + Decimal(k) + ")" else "") + ext
    {
      if k >= 2 {
        SuffixPlace(clean, k, dir, stem, ext);
        assert dir + stem + " (" + Decimal(k) + ")" + ext == dir + stem + (" (" + Decimal(k) + ")") + ext;
      } else {
        PartsMakeName(clean, dir, stem, ext);
        assert dir + stem + "" + ext == dir + stem + ext;
      }
    }
  }

  // ---- No two candidates collide ----

  function DigitValue(c: char): nat
  {
    if '0' <= c <= '9' then c as int - '0' as int else 0
  }

  function DecimalValue(s: string): nat
  {
    if s == [] then 0 else 10 * DecimalValue(s[..|s| - 1]) + DigitValue(s[|s| - 1])
  }

  /** Decimal digits without leading zeros. */
  lemma {:induction false} DecimalRoundTrip(n: nat)
    ensures DecimalValue(Decimal(n)) == n && (n > 0 ==> Decimal(n)[0] != '0')
  {
    var s := Decimal(n);
    if n >= 10 {
      DecimalRoundTrip(n / 10);
      assert s[..|s| - 1] == Decimal(n / 10);
    }
  }

  lemma LowerAppend(lower: char -> string, s: string, c: char)
    ensures LowerCase(lower, s + [c]) == LowerCase(lower, s) + lower(c)
  {
    assert (s + [c])[..|s|] == s;
  }

  lemma {:induction false} LowerConcat(lower: char -> string, a: string, b: string)
    ensures LowerCase(lower, a + b) == LowerCase(lower, a) + LowerCase(lower, b)
  {
    if b == [] {
      assert a + b == a;
    } else {
      var front, last := b[..|b| - 1], b[|b| - 1];
      assert b == front + [last] && a + b == a + front + [last];
      hide LowerCase;
      LowerConcat(lower, a, front);
      LowerAppend(lower, front, last);
      LowerAppend(lower, a + front, last);
    }
  }

  lemma {:induction false} LowerKeeps(lower: char -> string, s: string)
    requires KeepsSuffixCharacters(lower) && forall c :: c in s ==> c in "0123456789 ()"
    ensures LowerCase(lower, s) == s
  {
    if s != [] {
      LowerKeeps(lower, s[..|s| - 1]);
      assert s == s[..|s| - 1] + [s[|s| - 1]];
    }
  }

  lemma LowerOfSuffix(lower: char -> string, name: string, n: nat)
    requires KeepsSuffixCharacters(lower)
    ensures LowerCase(lower, WithSuffix(name, n))
         == LowerCase(lower, name[..StemLength(name)]) + Mark(n) + LowerCase(lower, name[StemLength(name)..])
  {
    var stem, ext := name[..StemLength(name)], name[StemLength(name)..];
    LowerConcat(lower, stem + Mark(n), ext);
    LowerConcat(lower, stem, Mark(n));
    LowerKeeps(lower, Mark(n));
  }

  lemma CandidatesDiffer(lower: char -> string, clean: string, j: nat, k: nat)
    requires KeepsSuffixCharacters(lower) && 1 <= j < k
    ensures LowerCase(lower, Candidate(clean, j)) != LowerCase(lower, Candidate(clean, k))
  {
    var stem, ext := clean[..StemLength(clean)], clean[StemLength(clean)..];
    var a, b := LowerCase(lower, stem), LowerCase(lower, ext);
    LowerOfSuffix(lower, clean, k);
    if j == 1 {
      assert clean == stem + ext;
      LowerConcat(lower, stem, ext);
    } else {
      LowerOfSuffix(lower, clean, j);
      if a + Mark(j) + b == a + Mark(k) + b {
        SameMiddle(a, Mark(j), Mark(k), b);
        assert Decimal(j) == Mark(j)[2..|Mark(j)| - 1] == Mark(k)[2..|Mark(k)| - 1] == Decimal(k);
        DecimalRoundTrip(j);
        DecimalRoundTrip(k);
      }
    }
  }

  lemma SameMiddle(a: string, x: string, y: string, b: string)
    requires a + x + b == a + y + b
    ensures x == y
  {
    assert x == (a + x + b)[|a|..|a| + |x|];
    assert y == (a + y + b)[|a|..|a| + |y|];
  }

  /** Pigeonhole: `m` candidates in use need `m` names in use. */
  lemma {:induction false} CandidatesInUse(lower: char -> string, clean: string, used: set<string>, m: nat)
    requires KeepsSuffixCharacters(lower)
    requires forall k :: 1 <= k <= m ==> LowerCase(lower, Candidate(clean, k)) in used
    ensures m <= |used|
    decreases m
  {
    if m > 0 {
      var last := LowerCase(lower, Candidate(clean, m));
      forall k | 1 <= k <= m - 1
        ensures LowerCase(lower, Candidate(clean, k)) in used - {last}
      {
        CandidatesDiffer(lower, clean, k, m);
      }
      CandidatesInUse(lower, clean, used - {last}, m - 1);
      assert |used| == |used - {last}| + 1;
    }
  }

  // ---- Unique names ----

  function LowerNames(lower: char -> string, names: seq<string>): set<string>
  {
    set i | 0 <= i < |names| :: LowerCase(lower, names[i])
  }

  /** `out` is the first candidate for `name` that differs from every name in `used`, and which one it is. */
  predicate FirstFree(lower: char -> string, name: string, used: set<string>, out: string, k: nat)
  {
    && 1 <= k && out == Candidate(CleanName(name), k)
    && LowerCase(lower, out) !in used
    && forall j :: 1 <= j < k ==> LowerCase(lower, Candidate(CleanName(name), j)) in used
  }

  lemma LowerNamesAppend(lower: char -> string, out: seq<string>, name: string)
    ensures LowerNames(lower, out + [name]) == LowerNames(lower, out) + {LowerCase(lower, name)}
  {
    hide LowerCase;
    var all := out + [name];
    assert forall i :: 0 <= i < |out| ==> all[i] == out[i];
    assert all[|out|] == name;
  }

  /** The first free candidate for one name; the search ends because each miss uses up a name. */
  method FreeName(lower: char -> string, name: string, used: set<string>) returns (candidate: string, ghost k: nat)
    requires KeepsSuffixCharacters(lower)
    ensures LowerCase(lower, candidate) !in used
    ensures FirstFree(lower, name, used, candidate, k) && k <= |used| + 1
    ensures Numbered(name, candidate, k)
  {
    hide Numbered;
    hide LowerCase, CleanName, WithSuffix, KeepsSuffixCharacters;
    var clean := CleanEntryName(name);
    candidate := clean;
    var n := 2;
    while LowerCase(lower, candidate) in used
      invariant 2 <= n && candidate == Candidate(clean, n - 1)
      invariant forall j :: 1 <= j < n - 1 ==> LowerCase(lower, Candidate(clean, j)) in used
      decreases |used| + 2 - n
    {
      CandidatesInUse(lower, clean, used, n - 1);
      candidate := WithSuffix(clean, n);
      n := n + 1;
    }
    CandidatesInUse(lower, clean, used, n - 2);
    k := n - 1;
    CandidateIsNumbered(name, k);
  }

  /** Output `i` is the first free candidate after the outputs before it, found within `i + 1` tries. */
  predicate NameChosen(lower: char -> string, names: seq<string>, out: seq<string>, tries: seq<nat>, i: nat)
    requires i < |out| <= |names| && |tries| == |out|
  {
    FirstFree(lower, names[i], LowerNames(lower, out[..i]), out[i], tries[i]) && tries[i] <= i + 1
  }

  lemma ChoicesStay(
    lower: char -> string, names: seq<string>, out: seq<string>, tries: seq<nat>, name: string, k: nat)
    requires |tries| == |out| < |names|
    requires FirstFree(lower, names[|out|], LowerNames(lower, out), name, k) && k <= |out| + 1
    requires forall i :: 0 <= i < |out| ==> NameChosen(lower, names, out, tries, i)
    ensures forall i :: 0 <= i <= |out| ==> NameChosen(lower, names, out + [name], tries + [k], i)
  {
    hide FirstFree, LowerNames;
    var all := out + [name];
    forall i | 0 <= i <= |out|
      ensures NameChosen(lower, names, all, tries + [k], i)
    {
      assert all[..i] == out[..i];
      if i < |out| {
        assert NameChosen(lower, names, out, tries, i);
      } else {
        assert out[..i] == out;
      }
    }
  }

  lemma ChosenDiffer(
    lower: char -> string, names: seq<string>, out: seq<string>, tries: seq<nat>, i: nat, j: nat)
    requires i < j < |out| <= |names| && |tries| == |out| && NameChosen(lower, names, out, tries, j)
    ensures LowerCase(lower, out[i]) != LowerCase(lower, out[j])
  {
    assert out[..j][i] == out[i];
    assert LowerCase(lower, out[..j][i]) in LowerNames(lower, out[..j]);
  }

  lemma ChosenIsNumbered(lower: char -> string, names: seq<string>, out: seq<string>, tries: seq<nat>, i: nat)
    requires i < |out| <= |names| && |tries| == |out| && NameChosen(lower, names, out, tries, i)
    ensures Numbered(names[i], out[i], tries[i])
  {
    hide Numbered, Candidate, CleanName, LowerCase;
    CandidateIsNumbered(names[i], tries[i]);
  }

  /** The names of the entries. `tries[i]` tells how many candidates name `i` took. */
  method ZipEntryNames(lower: char -> string, names: seq<string>)
    returns (out: seq<string>, ghost tries: seq<nat>)
    requires KeepsSuffixCharacters(lower)
    ensures |out| == |tries| == |names|
    ensures forall i :: 0 <= i < |out| ==> NameChosen(lower, names, out, tries, i)
    ensures forall i :: 0 <= i < |out| ==> Numbered(names[i], out[i], tries[i])
    ensures forall i, j :: 0 <= i < j < |out| ==> LowerCase(lower, out[i]) != LowerCase(lower, out[j])
  {
    assert LowerNames(lower, []) == {};
    hide Numbered, LowerCase, CleanName, KeepsSuffixCharacters, Candidate, LowerNames, NameChosen;
    var used: set<string> := {};
    out, tries := [], [];
    for i := 0 to |names|
      invariant |out| == |tries| == i && used == LowerNames(lower, out) && |used| <= i
      invariant forall j :: 0 <= j < i ==> NameChosen(lower, names, out, tries, j)
    {
      var candidate, k := FreeName(lower, names[i], used);
      LowerNamesAppend(lower, out, candidate);
      ChoicesStay(lower, names, out, tries, candidate, k);
      out, tries := out + [candidate], tries + [k];
      used := used + {LowerCase(lower, candidate)};
    }
    forall i | 0 <= i < |out| ensures Numbered(names[i], out[i], tries[i]) {
      ChosenIsNumbered(lower, names, out, tries, i);
    }
    forall i, j | 0 <= i < j < |out|
      ensures LowerCase(lower, out[i]) != LowerCase(lower, out[j])
    {
      ChosenDiffer(lower, names, out, tries, i, j);
    }
  }

  /** A name is changed from its cleaned form exactly when an earlier output collides with that form. */
  lemma ChangedOnlyOnCollision(lower: char -> string, name: string, used: set<string>, out: string, k: nat)
    requires FirstFree(lower, name, used, out, k)
    ensures out == CleanName(name) <==> LowerCase(lower, CleanName(name)) !in used
    ensures out != CleanName(name) ==> k >= 2 && out == WithSuffix(CleanName(name), k)
  {
    if k >= 2 {
      assert Candidate(CleanName(name), 1) == CleanName(name);
      assert |WithSuffix(CleanName(name), k)| > |CleanName(name)|;
    }
  }

  // ---- Length ----

  lemma Utf8Append(s: string, c: char)
    ensures Utf8(s + [c]) == Utf8(s) + Utf8Char(c)
  {
    hide Utf8Char;
    assert (s + [c])[..|s|] == s;
  }

  lemma {:induction false} Utf8Concat(a: string, b: string)
    ensures Utf8(a + b) == Utf8(a) + Utf8(b)
  {
    hide Utf8Char;
    if b == [] {
      assert a + b == a;
    } else {
      var front, last := b[..|b| - 1], b[|b| - 1];
      assert b == front + [last] && a + b == a + front + [last];
      hide Utf8;
      Utf8Concat(a, front);
      Utf8Append(front, last);
      Utf8Append(a + front, last);
    }
  }

  lemma {:induction false} Utf8OfAscii(s: string)
    requires forall i :: 0 <= i < |s| ==> s[i] as int < 0x80
    ensures |Utf8(s)| == |s|
  {
    if s != [] {
      Utf8OfAscii(s[..|s| - 1]);
    }
  }

  /** For at most `MAX_ZIP_FILES` names no candidate is longer than 1008 bytes. */
  lemma CandidateBytes(name: string, k: nat)
    requires k <= MAX_ZIP_FILES
    ensures |Utf8(Candidate(CleanName(name), k))| <= 1008
  {
    CleanBytes(name);
    hide Utf8, CleanName, Decimal, WithSuffix;
    if k > 1 {
      DecimalLength(k);
      SuffixBytes(CleanName(name), k);
    }
  }

  lemma CleanBytes(name: string)
    ensures |Utf8(CleanName(name))| <= MAX_NAME_BYTES
  {
    hide CleanPath;
    Utf8OfAscii("file");
    hide Utf8;
  }

  lemma SuffixBytes(name: string, k: nat)
    ensures |Utf8(WithSuffix(name, k))| == |Utf8(name)| + |Decimal(k)| + 3
  {
    hide Utf8, Decimal, StemLength;
    var stem, ext := name[..StemLength(name)], name[StemLength(name)..];
    Utf8Concat(stem + Mark(k), ext);
    Utf8Concat(stem, Mark(k));
    Utf8Concat(stem, ext);
    assert name == stem + ext;
    assert forall i :: 0 <= i < |Mark(k)| ==> Mark(k)[i] in Decimal(k) || Mark(k)[i] in " ()";
    Utf8OfAscii(Mark(k));
  }

  lemma DecimalLength(k: nat)
    requires k <= 10_000
    ensures |Decimal(k)| <= 5
  {
    if k >= 10 {
      var k1 := k / 10;
      if k1 >= 10 {
        var k2 := k1 / 10;
        if k2 >= 10 {
          var k3 := k2 / 10;
          assert |Decimal(k3)| <= 2;
          assert |Decimal(k2)| <= 3;
        }
        assert |Decimal(k1)| <= 4;
      }
    }
  }

  // ---- Safety ----

  /** No control characters, no leading slash; every component is a real name. */
  predicate SafePath(s: string)
  {
    Plain(s) && forall part <- Split(s) :: Proper(part)
  }

  function LastComponent(s: string): string
  {
    Split(s)[|Split(s)| - 1]
  }

  predicate FoldersProper(s: string)
  {
    forall part <- Split(s)[..|Split(s)| - 1] :: Proper(part)
  }

  lemma SafeByComponents(s: string)
    ensures SafePath(s) <==> Plain(s) && FoldersProper(s) && Proper(LastComponent(s))
  {
    hide Plain, Proper, Split;
    var parts := Split(s);
    assert parts == parts[..|parts| - 1] + [parts[|parts| - 1]];
  }

  predicate Plain(s: string)
  {
    s != "" && s[0] != '/' && NoControls(s)
  }

  lemma {:induction false} LastSlashOf(dir: string, file: string)
    requires '/' !in file
    ensures LastIndex(dir + "/" + file, '/') == Some(|dir|)
  {
    var s := dir + "/" + file;
    if file != "" {
      var front := file[..|file| - 1];
      assert s[|s| - 1] in file;
      LastSlashOf(dir, front);
      assert s[..|s| - 1] == dir + "/" + front;
    }
  }

  lemma SplitAtLast(dir: string, file: string)
    requires '/' !in file
    ensures Split(dir + "/" + file) == Split(dir) + [file]
  {
    hide LastIndex;
    LastSlashOf(dir, file);
    var s := dir + "/" + file;
    assert s[..|dir|] == dir && s[|dir| + 1..] == file;
  }

  lemma SplitOne(s: string)
    requires '/' !in s
    ensures Split(s) == [s]
  {
  }

  /** Joining parts without slashes and splitting gives the parts back. */
  lemma {:induction false} SplitJoin(parts: seq<string>)
    requires parts != [] && forall p <- parts :: '/' !in p
    ensures Split(Join(parts)) == parts
    decreases |parts|
  {
    hide Split;
    var last := parts[|parts| - 1];
    if |parts| == 1 {
      assert parts == [last];
      SplitOne(last);
    } else {
      var front := parts[..|parts| - 1];
      SplitJoin(front);
      SplitAtLast(Join(front), last);
      assert parts == front + [last];
    }
  }

  lemma {:induction false} JoinIsPlain(parts: seq<string>)
    requires parts != [] && forall p <- parts :: Proper(p) && NoControls(p) && '/' !in p
    ensures Plain(Join(parts))
    decreases |parts|
  {
    if |parts| == 1 {
      assert parts[0] in parts && parts[0][0] in parts[0];
    } else {
      var front, last := parts[..|parts| - 1], parts[|parts| - 1];
      JoinIsPlain(front);
      assert last in parts && NoControls(last);
      assert forall c <- Join(parts) :: c in Join(front) || c == '/' || c in last;
    }
  }

  lemma {:induction false} SplitHasNoSlashes(s: string)
    ensures forall p <- Split(s) :: '/' !in p
    decreases |s|
  {
    match LastIndex(s, '/')
    case None =>
    case Some(i) => SplitHasNoSlashes(s[..i]);
  }

  lemma PrefixIsPlain(s: string, cut: string)
    requires cut <= s && cut != "" && Plain(s)
    ensures Plain(cut)
  {
    assert forall c <- cut :: c in s;
  }

  lemma FileIsSafe()
    ensures SafePath("file")
  {
    SplitOne("file");
  }

  /** Wherever joined real names are cut, only the last component can come out wrong. */
  lemma {:induction false} FoldersOfPrefix(parts: seq<string>, cut: string)
    requires parts != [] && forall p <- parts :: Proper(p) && '/' !in p
    requires cut <= Join(parts)
    ensures FoldersProper(cut)
    decreases |parts|
  {
    hide Split, Proper;
    var front, last := parts[..|parts| - 1], parts[|parts| - 1];
    if |parts| == 1 {
      assert forall c <- cut :: c in last;
      SplitOne(cut);
    } else if |cut| <= |Join(front)| {
      assert cut <= Join(front);
      FoldersOfPrefix(front, cut);
    } else {
      var rest := cut[|Join(front)| + 1..];
      assert cut == Join(front) + "/" + rest && rest <= last;
      assert forall c <- rest :: c in last;
      SplitAtLast(Join(front), rest);
      SplitJoin(front);
      assert (front + [rest])[..|front|] == front;
    }
  }

  /** The cleaned name is plain and its folders are real names; it is a safe path unless it had to be cut. */
  lemma CleanIsSafe(name: string)
    ensures Plain(CleanName(name)) && FoldersProper(CleanName(name))
    ensures |Utf8(CleanPath(name))| <= MAX_NAME_BYTES ==> SafePath(CleanName(name))
  {
    var parts := CleanParts(Split(WithSlashes(name)));
    SplitHasNoSlashes(WithSlashes(name));
    FileIsSafe();
    SafeByComponents("file");
    hide Split, SafePath, Plain, CleanParts, Utf8, FoldersProper;
    if parts != [] {
      JoinIsPlain(parts);
      PartsAreSafe(parts);
      FoldersOfPrefix(parts, Cut(Join(parts)));
      if Cut(Join(parts)) != "" {
        PrefixIsPlain(Join(parts), Cut(Join(parts)));
      }
    }
  }

  lemma PartsAreSafe(parts: seq<string>)
    requires parts != [] && forall p <- parts :: Proper(p) && NoControls(p) && '/' !in p
    ensures SafePath(Join(parts))
  {
    JoinIsPlain(parts);
    SplitJoin(parts);
  }

  lemma SuffixIsPlain(name: string, n: nat)
    requires Plain(name)
    ensures Plain(WithSuffix(name, n))
  {
    var mark := Mark(n);
    assert mark[0] == ' ';
    assert forall c <- WithSuffix(name, n) :: c in name || c in mark;
  }

  lemma MarkIsReal(a: string, n: nat, b: string)
    ensures Proper(a + Mark(n) + b)
    ensures '/' !in a && '/' !in b ==> '/' !in a + Mark(n) + b
  {
    var s := a + Mark(n) + b;
    assert s[|a| + 1] == '(';
    assert forall c <- s :: c in a || c in Mark(n) || c in b;
  }

  /** A suffix keeps a path plain and makes its last component, whatever it was, a real name. */
  lemma SuffixIsSafe(name: string, n: nat)
    requires Plain(name) && FoldersProper(name)
    ensures SafePath(WithSuffix(name, n))
  {
    SuffixIsPlain(name, n);
    StemInLastPart(name);
    var k := StemLength(name);
    var slash := LastIndex(name, '/');
    hide Split, Mark, Plain, Proper, StemLength, LastIndex;
    if slash.None? {
      SplitOne(name);
      MarkIsReal(name[..k], n, name[k..]);
      SplitOne(WithSuffix(name, n));
    } else {
      var i := slash.value;
      var dir, a, b := name[..i], name[i + 1..k], name[k..];
      MarkIsReal(a, n, b);
      RejoinAtStem(name, i, k, Mark(n));
      SplitAtLast(dir, a + Mark(n) + b);
      SplitAtLast(dir, a + b);
      assert Split(name)[..|Split(name)| - 1] == Split(dir);
    }
  }

  lemma StemInLastPart(name: string)
    ensures var slash := LastIndex(name, '/');
            slash.Some? ==> slash.value < StemLength(name) && '/' !in name[slash.value + 1..StemLength(name)]
    ensures var slash := LastIndex(name, '/');
            slash.Some? ==> '/' !in name[StemLength(name)..]
  {
    var slash := LastIndex(name, '/');
    if slash.Some? {
      var file, k := name[slash.value + 1..], StemLength(name);
      assert forall c <- name[slash.value + 1..k] :: c in file;
      assert forall c <- name[k..] :: c in file;
    }
  }

  lemma RejoinAtStem(name: string, i: nat, k: nat, mark: string)
    requires i < k <= |name| && name[i] == '/'
    ensures name == name[..i] + "/" + (name[i + 1..k] + name[k..])
    ensures name[..k] + mark + name[k..] == name[..i] + "/" + (name[i + 1..k] + mark + name[k..])
  {
    assert name[..k] == name[..i] + "/" + name[i + 1..k];
  }

  /**
   * Every output is a plain path whose folders are real names. It is a safe path if and only if it got a
   * suffix or the cleaned name ends in a real name, which it does unless it was cut.
   */
  lemma OutputIsSafe(lower: char -> string, name: string, used: set<string>, out: string, k: nat)
    requires FirstFree(lower, name, used, out, k)
    ensures Plain(out) && FoldersProper(out)
    ensures SafePath(out)
       <==> LowerCase(lower, CleanName(name)) in used || Proper(LastComponent(CleanName(name)))
    ensures |Utf8(CleanPath(name))| <= MAX_NAME_BYTES ==> SafePath(out)
  {
    CleanIsSafe(name);
    var clean := CleanName(name);
    SafeByComponents(clean);
    SafeByComponents(out);
    TakenUnlessFirst(lower, name, used, out, k);
    hide SafePath, FoldersProper, Plain, Proper, LastComponent, CleanName, FirstFree;
    if k > 1 {
      SuffixIsSafe(clean, k);
    }
  }

  lemma TakenUnlessFirst(lower: char -> string, name: string, used: set<string>, out: string, k: nat)
    requires FirstFree(lower, name, used, out, k)
    ensures k >= 1 && (k > 1 <==> LowerCase(lower, CleanName(name)) in used)
    ensures out == if k > 1 then WithSuffix(CleanName(name), k) else CleanName(name)
  {
    hide CleanName, LowerCase;
    if k > 1 {
      assert Candidate(CleanName(name), 1) == CleanName(name);
    }
  }

  // ---- A name whose cut end is `..` ----

  /** Characters that cleaning leaves alone. */
  predicate Ordinary(s: string)
  {
    forall i :: 0 <= i < |s| ==> '.' <= s[i] <= 'z' && s[i] != '/' && s[i] != '\\'
  }

  predicate Letters(s: string)
  {
    forall i :: 0 <= i < |s| ==> 'a' <= s[i] <= 'z'
  }

  lemma {:induction false} NoControlsToRemove(s: string)
    requires Ordinary(s)
    ensures WithoutControls(s) == s
  {
    if s != "" {
      var front := s[..|s| - 1];
      assert s == front + [s[|s| - 1]] && !IsControl(s[|s| - 1]);
      NoControlsToRemove(front);
    }
  }

  lemma NothingToClean(s: string)
    requires s != "" && Ordinary(s)
    ensures WithoutControls(s) == s && Trim(s) == s
  {
    NoControlsToRemove(s);
    hide WithoutControls;
  }

  lemma OnePart(parts: seq<string>, part: string)
    requires part != "" && Ordinary(part) && Proper(part)
    ensures CleanParts(parts + [part]) == CleanParts(parts) + [part]
  {
    NothingToClean(part);
    hide Trim, WithoutControls, Proper;
    assert (parts + [part])[..|parts|] == parts;
  }

  lemma CleanOfTwo(a: string, b: string)
    requires a != "" && Ordinary(a) && Proper(a) && b != "" && Ordinary(b) && Proper(b)
    ensures CleanPath(a + "/" + b) == a + "/" + b
  {
    var name := a + "/" + b;
    assert WithSlashes(name) == name;
    assert '/' !in a && '/' !in b;
    SplitOne(a);
    SplitAtLast(a, b);
    hide Split, Proper, Ordinary, WithSlashes, CleanParts, Trim, WithoutControls;
    OnePart([], a);
    OnePart([a], b);
    assert CleanParts([]) == [] by { NoParts(); }
    assert [] + [a] == [a] && [a] + [b] == [a, b];
    JoinTwo(a, b);
  }

  lemma NoParts()
    ensures CleanParts([]) == []
  {
  }

  lemma JoinTwo(a: string, b: string)
    ensures Join([a, b]) == a + "/" + b
  {
    assert [a, b][..1] == [a];
  }

  lemma LettersAreProper(a: string)
    requires a != "" && Letters(a)
    ensures Ordinary(a) && Proper(a)
  {
    assert 'a' <= a[0] <= 'z';
  }

  /** Cutting can leave `..`: 997 letters, a slash and `..b` become the same without the `b`. */
  lemma CutCanLeaveDotDot(lower: char -> string, a: string)
    requires |a| == 997 && Letters(a)
    ensures FirstFree(lower, a + "/..b", {}, a + "/..", 1)
    ensures LastComponent(a + "/..") == ".." && !SafePath(a + "/..")
  {
    CutsToDotDot(a);
    EndsInDotDot(a);
    SafeByComponents(a + "/..");
    hide CleanName, LowerCase, SafePath, LastComponent;
  }

  lemma EndsInDotDot(a: string)
    ensures LastComponent(a + "/..") == ".."
  {
    hide Split;
    SplitAtLast(a, "..");
    assert a + "/.." == a + "/" + "..";
  }

  lemma CutsToDotDot(a: string)
    requires |a| == 997 && Letters(a)
    ensures CleanName(a + "/..b") == a + "/.."
  {
    var full, short := a + "/" + "..b", a + "/..";
    LettersAreProper(a);
    assert Ordinary("..b") && Proper("..b");
    LettersAreAscii(a);
    hide *;
    CleanOfTwo(a, "..b");
    assert full == a + "/..b" && full[..|full| - 1] == short;
    Utf8OfAscii(full);
    Utf8OfAscii(short);
    CutOnce(a + "/..b", short);
  }

  lemma LettersAreAscii(a: string)
    requires Letters(a)
    ensures forall i :: 0 <= i < |a + "/..b"| ==> (a + "/..b")[i] as int < 0x80
  {
  }

  lemma CutOnce(full: string, short: string)
    requires full != "" && full[..|full| - 1] == short && short != ""
    requires CleanPath(full) == full && |Utf8(full)| == 1001 && |Utf8(short)| == 1000
    ensures CleanName(full) == short
  {
    hide CleanPath, Utf8;
    assert Cut(full) == Cut(short) == short;
  }
}
