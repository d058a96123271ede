/** What cleaning a name does to every name, and how a reader gets the names of an archive back. */
module ZipNameForms {
  import opened Bytes
  import opened ZipNames

  // ---- Cleaning one component ----

  predicate AllWhite(s: string)
  {
    forall i :: 0 <= i < |s| ==> IsWhite(s[i])
  }

  /** No white space at the ends. */
  predicate Trimmed(s: string)
  {
    s != "" ==> !IsWhite(s[0]) && !IsWhite(s[|s| - 1])
  }

  /** Trimming takes white space from both ends and nothing else. */
  lemma {:induction false} TrimTakesEnds(s: string) returns (a: string, b: string)
    ensures s == a + Trim(s) + b && AllWhite(a) && AllWhite(b) && Trimmed(Trim(s))
    decreases |s|
  {
    hide IsWhite;
    if s == "" {
      a, b := "", "";
    } else if IsWhite(s[0]) {
      a, b := TrimTakesEnds(s[1..]);
      WhiteInFront(s, a, Trim(s), b);
      a := [s[0]] + a;
    } else if IsWhite(s[|s| - 1]) {
      a, b := TrimTakesEnds(s[..|s| - 1]);
      WhiteBehind(s, a, Trim(s), b);
      b := b + [s[|s| - 1]];
    } else {
      a, b := "", "";
    }
  }

  lemma WhiteInFront(s: string, a: string, t: string, b: string)
    requires s != "" && IsWhite(s[0]) && s[1..] == a + t + b && AllWhite(a)
    ensures s == ([s[0]] + a) + t + b && AllWhite([s[0]] + a)
  {
    hide IsWhite;
    assert s == [s[0]] + s[1..];
  }

  lemma WhiteBehind(s: string, a: string, t: string, b: string)
    requires s != "" && IsWhite(s[|s| - 1]) && s[..|s| - 1] == a + t + b && AllWhite(b)
    ensures s == a + t + (b + [s[|s| - 1]]) && AllWhite(b + [s[|s| - 1]])
  {
    hide IsWhite;
    assert s == s[..|s| - 1] + [s[|s| - 1]];
  }

  lemma {:induction false} TrimmedStays(s: string)
    requires Trimmed(s)
    ensures Trim(s) == s
  {
  }

  lemma LastControl(s: string, c: char)
    ensures WithoutControls(s + [c]) == WithoutControls(s) + if IsControl(c) then "" else [c]
  {
    hide IsControl;
    assert (s + [c])[..|s|] == s;
  }

  /** Removing control characters is done character by character. */
  lemma {:induction false} ControlsGoOneByOne(a: string, b: string)
    ensures WithoutControls(a + b) == WithoutControls(a) + WithoutControls(b)
  {
    hide *;
    if b == "" {
      NothingToRemove();
      assert a + b == a;
      assert WithoutControls(a) + "" == WithoutControls(a);
    } else {
      var front, last := b[..|b| - 1], b[|b| - 1];
      assert b == front + [last];
      Regroup(a, front, [last]);
      ControlsGoOneByOne(a, front);
      LastControl(front, last);
      LastControl(a + front, last);
      Regroup(WithoutControls(a), WithoutControls(front), if IsControl(last) then "" else [last]);
    }
  }

  lemma NothingToRemove()
    ensures WithoutControls("") == ""
  {
  }

  lemma Regroup<T>(a: seq<T>, b: seq<T>, c: seq<T>)
    ensures a + b + c == a + (b + c)
  {
  }

  lemma OneControl(c: char)
    ensures WithoutControls([c]) == if IsControl(c) then "" else [c]
  {
    assert [c][..0] == "";
    assert WithoutControls("") == "";
  }

  /** `t` is `part` without its control characters and then without the white space at its ends. */
  ghost predicate Cleaned(part: string, t: string)
  {
    exists a, b :: WithoutControls(part) == a + t + b && AllWhite(a) && AllWhite(b) && Trimmed(t)
  }

  /** A name without folders becomes its cleaned form, or nothing when that is no real name. */
  lemma CleanOfOne(part: string, t: string)
    requires '/' !in part && '\\' !in part && Cleaned(part, t)
    ensures CleanPath(part) == if Proper(t) then t else ""
  {
    assert WithSlashes(part) == part;
    SplitOne(part);
    var a, b := TrimTakesEnds(WithoutControls(part));
    OneTrim(WithoutControls(part), t);
    hide Trim, WithoutControls, Proper;
    var u := Trim(WithoutControls(part));
    assert [part][..0] == [] && CleanParts([]) == [];
    assert CleanParts([part]) == if Proper(u) then [u] else [];
  }

  /** There is one way to trim a string. */
  lemma OneTrim(s: string, t: string)
    requires Trimmed(t) && exists a, b :: s == a + t + b && AllWhite(a) && AllWhite(b)
    ensures Trim(s) == t
  {
    var a, b :| s == a + t + b && AllWhite(a) && AllWhite(b);
    TrimWhiteAround(a, t, b);
  }

  lemma {:induction false} TrimWhiteAround(a: string, t: string, b: string)
    requires Trimmed(t) && AllWhite(a) && AllWhite(b)
    ensures Trim(a + t + b) == t
    decreases |a| + |b|
  {
    hide IsWhite;
    var s := a + t + b;
    if a != "" {
      TrimWhiteAround(a[1..], t, b);
      assert s[1..] == a[1..] + t + b;
    } else if b != "" && t == "" {
      TrimWhiteAround(a, t, b[1..]);
      assert s[0] == b[0] && s[1..] == a + t + b[1..];
    } else if b != "" {
      TrimWhiteAround(a, t, b[..|b| - 1]);
      assert s[0] == t[0] && s[|s| - 1] == b[|b| - 1] && s[..|s| - 1] == a + t + b[..|b| - 1];
    } else {
      assert s == t;
    }
  }

  // ---- Cleaning a path ----

  /** Paths put together; an empty one adds nothing. */
  function Glued(a: string, b: string): string
  {
    if a == "" then b else if b == "" then a else a + "/" + b
  }

  lemma {:induction false} SplitAt(x: string, y: string)
    ensures Split(x + "/" + y) == Split(x) + Split(y)
    decreases |y|
  {
    var slash := LastIndex(y, '/');
    hide Split, LastIndex;
    if slash.None? {
      SplitAtLast(x, y);
      SplitOne(y);
    } else {
      var y1, y2 := y[..slash.value], y[slash.value + 1..];
      assert y == y1 + "/" + y2;
      SplitAt(x, y1);
      SplitAtMore(x, y1, y2);
    }
  }

  lemma SplitAtMore(x: string, y1: string, y2: string)
    requires '/' !in y2 && Split(x + "/" + y1) == Split(x) + Split(y1)
    ensures Split(x + "/" + (y1 + "/" + y2)) == Split(x) + Split(y1 + "/" + y2)
  {
    hide Split;
    SplitAtLast(x + "/" + y1, y2);
    SplitAtLast(y1, y2);
    assert x + "/" + (y1 + "/" + y2) == (x + "/" + y1) + "/" + y2;
    assert Split(x) + Split(y1) + [y2] == Split(x) + (Split(y1) + [y2]);
  }

  lemma LastPart(parts: seq<string>, part: string)
    ensures var t := Trim(WithoutControls(part));
            CleanParts(parts + [part]) == CleanParts(parts) + if Proper(t) then [t] else []
  {
    hide Trim, WithoutControls, Proper;
    assert (parts + [part])[..|parts|] == parts;
  }

  lemma {:induction false} CleanPartsConcat(p: seq<string>, q: seq<string>)
    ensures CleanParts(p + q) == CleanParts(p) + CleanParts(q)
    decreases |q|
  {
    hide Trim, WithoutControls, Proper;
    if q == [] {
      assert p + q == p;
    } else {
      hide CleanParts;
      var front, last := q[..|q| - 1], q[|q| - 1];
      assert q == front + [last];
      Regroup(p, front, [last]);
      CleanPartsConcat(p, front);
      LastPart(front, last);
      LastPart(p + front, last);
      var t := Trim(WithoutControls(last));
      Regroup(CleanParts(p), CleanParts(front), if Proper(t) then [t] else []);
    }
  }

  lemma {:induction false} JoinConcat(p: seq<string>, q: seq<string>)
    requires p != [] && q != []
    ensures Join(p + q) == Join(p) + "/" + Join(q)
    decreases |q|
  {
    var n := |q| - 1;
    assert (p + q)[..|p + q| - 1] == p + q[..n];
    if n == 0 {
      assert p + q[..n] == p;
    } else {
      JoinConcat(p, q[..n]);
      assert Join(p) + "/" + Join(q[..n]) + "/" + q[n] == Join(p) + "/" + (Join(q[..n]) + "/" + q[n]);
    }
  }

  lemma JoinOfProper(parts: seq<string>)
    requires forall i :: 0 <= i < |parts| ==> parts[i] != ""
    ensures Join(parts) == "" <==> parts == []
  {
  }

  /** Folders, with either slash, are cleaned one by one and put together again in order. */
  lemma CleanOfFolders(a: string, separator: char, b: string)
    requires separator == '/' || separator == '\\'
    ensures CleanPath(a + [separator] + b) == Glued(CleanPath(a), CleanPath(b))
  {
    var x, y := WithSlashes(a), WithSlashes(b);
    assert WithSlashes(a + [separator] + b) == x + "/" + y;
    SplitAt(x, y);
    CleanPartsConcat(Split(x), Split(y));
    hide CleanParts, Split, WithSlashes;
    JoinOfTwo(CleanParts(Split(x)), CleanParts(Split(y)));
  }

  lemma JoinOfTwo(p: seq<string>, q: seq<string>)
    requires forall part <- p :: Proper(part)
    requires forall part <- q :: Proper(part)
    ensures Join(p + q) == Glued(Join(p), Join(q))
  {
    assert forall i :: 0 <= i < |p| ==> p[i] in p;
    assert forall i :: 0 <= i < |q| ==> q[i] in q;
    JoinOfProper(p);
    JoinOfProper(q);
    hide Join;
    if p != [] && q != [] {
      JoinConcat(p, q);
    } else {
      assert p == [] ==> p + q == q;
      assert q == [] ==> p + q == p;
    }
  }

  // ---- Names that need no cleaning ----

  /** A safe path of trimmed components with `/` only, of at most 1000 bytes. */
  predicate CleanForm(name: string)
  {
    && SafePath(name) && '\\' !in name && |Utf8(name)| <= 1000
    && forall part <- Split(name) :: Trimmed(part)
  }

  lemma {:induction false} NothingRemoved(s: string)
    requires NoControls(s)
    ensures WithoutControls(s) == s
  {
    if s != "" {
      assert s == s[..|s| - 1] + [s[|s| - 1]] && s[|s| - 1] in s;
      assert forall c <- s[..|s| - 1] :: c in s;
      NothingRemoved(s[..|s| - 1]);
    }
  }

  lemma {:induction false} CleanPartsStay(parts: seq<string>)
    requires forall part <- parts :: Proper(part) && NoControls(part) && Trimmed(part)
    ensures CleanParts(parts) == parts
    decreases |parts|
  {
    if parts != [] {
      hide *;
      var front, last := parts[..|parts| - 1], parts[|parts| - 1];
      assert last in parts && parts == front + [last];
      CleanPartsStay(front);
      NothingRemoved(last);
      TrimmedStays(last);
      LastPart(front, last);
    }
  }

  /** Splitting loses nothing. */
  lemma {:induction false} JoinSplit(s: string)
    ensures Join(Split(s)) == s
    decreases |s|
  {
    match LastIndex(s, '/')
    case None => SplitOne(s);
    case Some(i) =>
      JoinSplit(s[..i]);
      var parts := Split(s);
      assert parts[..|parts| - 1] == Split(s[..i]) && parts[|parts| - 1] == s[i + 1..];
      assert s == s[..i] + "/" + s[i + 1..];
  }

  lemma {:induction false} PartsHaveItsCharacters(s: string)
    ensures forall part <- Split(s) :: forall c <- part :: c in s
    decreases |s|
  {
    match LastIndex(s, '/')
    case None => SplitOne(s);
    case Some(i) =>
      PartsHaveItsCharacters(s[..i]);
      forall part | part in Split(s) ensures forall c <- part :: c in s {
        if part in Split(s[..i]) {
          assert forall c <- part :: c in s[..i];
        } else {
          assert part == s[i + 1..];
        }
      }
  }

  lemma CleanFormStays(name: string)
    requires CleanForm(name)
    ensures CleanName(name) == name
  {
    assert WithSlashes(name) == name;
    PartsHaveItsCharacters(name);
    var parts := Split(name);
    JoinSplit(name);
    assert forall part <- parts :: NoControls(part);
    CleanPartsStay(parts);
    hide Split, CleanParts, Utf8;
    assert CleanPath(name) == name;
  }

  lemma {:induction false} CleanPartsAreTrimmed(parts: seq<string>)
    ensures forall part <- CleanParts(parts) :: Trimmed(part)
    decreases |parts|
  {
    hide Trim, WithoutControls, Proper, Trimmed;
    if parts != [] {
      var t := Trim(WithoutControls(parts[|parts| - 1]));
      var a, b := TrimTakesEnds(WithoutControls(parts[|parts| - 1]));
      CleanPartsAreTrimmed(parts[..|parts| - 1]);
    }
  }

  lemma {:induction false} TrimIsShorter(s: string)
    ensures |Trim(s)| <= |s|
    decreases |s|
  {
    if s != "" {
      if IsWhite(s[0]) {
        TrimIsShorter(s[1..]);
      } else if IsWhite(s[|s| - 1]) {
        TrimIsShorter(s[..|s| - 1]);
      }
    }
  }

  lemma {:induction false} ControlsRemovedIsShorter(s: string)
    ensures |WithoutControls(s)| <= |s|
  {
    if s != "" {
      ControlsRemovedIsShorter(s[..|s| - 1]);
    }
  }

  lemma {:induction false} CleanPartsAreShorter(parts: seq<string>)
    ensures |Join(CleanParts(parts))| <= |Join(parts)|
    decreases |parts|
  {
    hide Trim, WithoutControls, Proper;
    if parts != [] {
      var front, last := parts[..|parts| - 1], parts[|parts| - 1];
      CleanPartsAreShorter(front);
      ControlsRemovedIsShorter(last);
      TrimIsShorter(WithoutControls(last));
      var t := Trim(WithoutControls(last));
      var clean := CleanParts(front);
      assert clean != [] ==> front != [];
      if Proper(t) {
        assert (clean + [t])[..|clean|] == clean;
      } else {
        assert clean + [] == clean;
      }
    }
  }

  lemma {:induction false} JoinHasTheirCharacters(parts: seq<string>, c: char)
    requires c != '/' && forall part <- parts :: c !in part
    ensures c !in Join(parts)
    decreases |parts|
  {
    if |parts| == 1 {
      assert parts[0] in parts;
    } else if parts != [] {
      JoinHasTheirCharacters(parts[..|parts| - 1], c);
      assert parts[|parts| - 1] in parts;
    }
  }

  lemma {:induction false} CleanPartsHaveTheirCharacters(parts: seq<string>, c: char)
    requires forall part <- parts :: c !in part
    ensures forall part <- CleanParts(parts) :: c !in part
    decreases |parts|
  {
    hide Proper;
    if parts != [] {
      assert parts[|parts| - 1] in parts;
      CleanPartsHaveTheirCharacters(parts[..|parts| - 1], c);
    }
  }

  lemma CleanPathFacts(name: string)
    ensures |CleanPath(name)| <= |name| && '\\' !in CleanPath(name)
    ensures CleanPath(name) != "" ==> forall part <- Split(CleanPath(name)) :: Trimmed(part)
  {
    var slashed := WithSlashes(name);
    var parts := Split(slashed);
    var clean := CleanParts(parts);
    JoinSplit(slashed);
    CleanPartsAreShorter(parts);
    PartsHaveItsCharacters(slashed);
    assert '\\' !in slashed;
    SplitHasNoSlashes(slashed);
    hide Split, WithSlashes, Trimmed;
    CleanPartsHaveTheirCharacters(parts, '\\');
    JoinHasTheirCharacters(clean, '\\');
    CleanPartsAreTrimmed(parts);
    if clean != [] {
      SplitJoin(clean);
    }
  }

  lemma FileIsCleanForm()
    ensures CleanForm("file")
  {
    FileIsSafe();
    SplitOne("file");
    Utf8OfAscii("file");
  }

  /** A name is left as it is if and only if it is a safe path of trimmed components, and not too long. */
  lemma CleanedIsCleanForm(name: string)
    ensures CleanName(name) == name <==> CleanForm(name)
  {
    CleanPathFacts(name);
    CleanIsSafe(name);
    FileIsCleanForm();
    if CleanForm(name) {
      CleanFormStays(name);
    }
    assert name <= CleanPath(name) && |CleanPath(name)| <= |name| ==> name == CleanPath(name);
    hide CleanPath, Split, SafePath, Utf8;
  }

  /** Nothing left gives `file`; else the cleaned path is kept as far as 1000 bytes go. */
  lemma CleanedThenCut(name: string)
    ensures CleanPath(name) == "" ==> CleanName(name) == "file"
    ensures CleanPath(name) != "" ==>
              && CleanName(name) <= CleanPath(name) && 0 < |Utf8(CleanName(name))| <= 1000
              && forall p :: p <= CleanPath(name) && |Utf8(p)| <= 1000 ==> p <= CleanName(name)
  {
    var path := CleanPath(name);
    hide CleanPath;
    if path == "" {
      assert Utf8("") == [];
    } else {
      assert path[..1][..0] == "" && Utf8("") == [];
      assert |Utf8(path[..1])| <= 4;
      hide Utf8;
      CutIsLongest(path, path[..1]);
      forall p | p <= path && |Utf8(p)| <= 1000 ensures p <= CleanName(name) {
        CutIsLongest(path, p);
      }
      NotEmpty(CleanName(name));
    }
  }

  lemma NotEmpty(s: string)
    requires s != ""
    ensures |Utf8(s)| > 0
  {
  }

  // ---- Reading names back ----

  predicate IsContinuation(b: byte)
  {
    0x80 <= b <= 0xBF
  }

  predicate IsScalar(x: int)
  {
    0 <= x < 0xD800 || 0xE000 <= x < 0x11_0000
  }

  function Six(b: byte): nat
    requires IsContinuation(b)
  {
    b as int - 0x80
  }

  /** The first character of a UTF-8 string and its length, after section 3 of RFC 3629. */
  function FirstChar(s: bytes): (r: Option<(char, nat)>)
    ensures r.Some? ==> 1 <= r.value.1 <= |s|
  {
    if s == [] then None
    else
      var lead := s[0] as int;
      if lead < 0x80 then Some((lead as char, 1))
      else if 0xC2 <= lead <= 0xDF && |s| >= 2 && IsContinuation(s[1]) then
        Some((((lead - 0xC0) * 64 + Six(s[1])) as char, 2))
      else if 0xE0 <= lead <= 0xEF && |s| >= 3 && IsContinuation(s[1]) && IsContinuation(s[2]) then
        var x := (lead - 0xE0) * 4096 + Six(s[1]) * 64 + Six(s[2]);
        if 0x800 <= x && IsScalar(x) then Some((x as char, 3)) else None
      else if 0xF0 <= lead <= 0xF4 && |s| >= 4
           && IsContinuation(s[1]) && IsContinuation(s[2]) && IsContinuation(s[3]) then
        var x := (lead - 0xF0) * 262_144 + Six(s[1]) * 4096 + Six(s[2]) * 64 + Six(s[3]);
        if 0x1_0000 <= x && IsScalar(x) then Some((x as char, 4)) else None
      else None
  }

  function DecodeUtf8(s: bytes): Option<string>
    decreases |s|
  {
    if s == [] then Some("")
    else
      var first := FirstChar(s);
      if first.None? then None
      else
        var rest := DecodeUtf8(s[first.value.1..]);
        if rest.None? then None else Some([first.value.0] + rest.value)
  }

  /** The groups of six bits. */
  lemma SixBits(x: nat)
    requires x < 0x20_0000
    ensures x == (x / 64) * 64 + x % 64
    ensures x / 64 == (x / 4096) * 64 + (x / 64) % 64
    ensures x / 4096 == (x / 262_144) * 64 + (x / 4096) % 64
  {
  }

  lemma FirstCharRoundTrip(c: char, rest: bytes)
    ensures FirstChar(Utf8Char(c) + rest) == Some((c, |Utf8Char(c)|))
  {
    if c as int < 0x800 {
      ShortRoundTrip(c, rest);
    } else if c as int < 0x1_0000 {
      ThreeRoundTrip(c, rest);
    } else {
      FourRoundTrip(c, rest);
    }
  }

  lemma ShortRoundTrip(c: char, rest: bytes)
    requires c as int < 0x800
    ensures FirstChar(Utf8Char(c) + rest) == Some((c, |Utf8Char(c)|))
  {
  }

  lemma ThreeRoundTrip(c: char, rest: bytes)
    requires 0x800 <= c as int < 0x1_0000
    ensures FirstChar(Utf8Char(c) + rest) == Some((c, |Utf8Char(c)|))
  {
    var x := c as int;
    SixBits(x);
    var s := Utf8Char(c) + rest;
    assert s[0] == 0xE0 + x / 4096 && Six(s[1]) == (x / 64) % 64 && Six(s[2]) == x % 64;
  }

  lemma FourRoundTrip(c: char, rest: bytes)
    requires 0x1_0000 <= c as int
    ensures FirstChar(Utf8Char(c) + rest) == Some((c, |Utf8Char(c)|))
  {
    var x := c as int;
    SixBits(x);
    var s := Utf8Char(c) + rest;
    assert s[0] == 0xF0 + x / 262_144;
    assert Six(s[1]) == (x / 4096) % 64 && Six(s[2]) == (x / 64) % 64 && Six(s[3]) == x % 64;
  }

  lemma Utf8First(s: string)
    requires s != ""
    ensures Utf8(s) == Utf8Char(s[0]) + Utf8(s[1..])
  {
    hide Utf8Char;
    Utf8Concat([s[0]], s[1..]);
    assert s == [s[0]] + s[1..];
    assert [s[0]][..0] == "" && Utf8("") == [];
    assert Utf8([s[0]]) == Utf8Char(s[0]);
  }

  /** The bytes of a name decode to the name. */
  lemma {:induction false} Utf8RoundTrip(s: string)
    ensures DecodeUtf8(Utf8(s)) == Some(s)
    decreases |s|
  {
    hide FirstChar, Utf8Char;
    if s != "" {
      Utf8First(s);
      Utf8RoundTrip(s[1..]);
      FirstCharRoundTrip(s[0], Utf8(s[1..]));
      var all, n := Utf8(s), |Utf8Char(s[0])|;
      assert all[n..] == Utf8(s[1..]);
      assert s == [s[0]] + s[1..];
    }
  }
}
