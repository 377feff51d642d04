/** Python text as a sequence of code points, the handful of `str` methods the
    scraper relies on, and the text stage of `clean_html` (scraper.py:37-42). */
module Texts {
  import opened Seqs

  /** One element of a Python `str`: any code point, lone surrogates included. */
  newtype CodePoint = c: int | 0 <= c < 0x11_0000

  type Text = seq<CodePoint>

  const SPACE: CodePoint := 0x20
  const LF: CodePoint := 0x0A
  const CR: CodePoint := 0x0D
  const DOT: CodePoint := 0x2E
  const NEWLINE: Text := [LF]
  const DOUBLE_SPACE: Text := [SPACE, SPACE]

  /** The string literal `s` as code points. */
  function Str(s: string): (r: Text)
    ensures |r| == |s|
    ensures forall k :: 0 <= k < |s| ==> r[k] as int == s[k] as int
  {
    seq(|s|, k requires 0 <= k < |s| => s[k] as int as CodePoint)
  }

  /** Python's `str.isspace` for one code point (Unicode White_Space as Python sees it). */
  predicate IsSpace(c: CodePoint) {
    || 0x09 <= c <= 0x0D
    || 0x1C <= c <= 0x20
    || c == 0x85 || c == 0xA0 || c == 0x1680
    || 0x2000 <= c <= 0x200A
    || c == 0x2028 || c == 0x2029 || c == 0x202F || c == 0x205F || c == 0x3000
  }

  /** The line boundaries of Python's `str.splitlines` (`\r\n` counts as one). */
  predicate IsLineBreak(c: CodePoint) {
    || 0x0A <= c <= 0x0D
    || 0x1C <= c <= 0x1E
    || c == 0x85 || c == 0x2028 || c == 0x2029
  }

  /** Code points that UTF-8 cannot encode. */
  predicate IsSurrogate(c: CodePoint) {
    0xD800 <= c <= 0xDFFF
  }

  predicate NoLineBreak(s: Text) {
    forall k :: 0 <= k < |s| ==> !IsLineBreak(s[k])
  }

  predicate NoSurrogate(s: Text) {
    forall k :: 0 <= k < |s| ==> !IsSurrogate(s[k])
  }

  /** No leading and no trailing whitespace. */
  predicate Stripped(s: Text) {
    s == [] || (!IsSpace(s[0]) && !IsSpace(s[|s| - 1]))
  }

  /** `sep` occurs in `s` at index `k`. */
  predicate OccursAt(s: Text, sep: Text, k: int) {
    0 <= k <= |s| - |sep| && s[k..k + |sep|] == sep
  }

  /** `sep` does not occur anywhere in `s`. */
  ghost predicate Free(s: Text, sep: Text) {
    forall k :: !OccursAt(s, sep, k)
  }

  /** `r` is a contiguous part of `s`. */
  ghost predicate Infix(r: Text, s: Text) {
    exists i :: OccursAt(s, r, i)
  }

  /** Python's `s.lstrip()`: removes exactly the leading whitespace. */
  function StripLeft(s: Text): (r: Text)
    ensures |r| <= |s| && r == s[|s| - |r|..]
    ensures forall k :: 0 <= k < |s| - |r| ==> IsSpace(s[k])
    ensures r == [] || !IsSpace(r[0])
  {
    if s != [] && IsSpace(s[0]) then StripLeft(s[1..]) else s
  }

  /** Python's `s.rstrip()`: removes exactly the trailing whitespace. */
  function StripRight(s: Text): (r: Text)
    ensures |r| <= |s| && r == s[..|r|]
    ensures forall k :: |r| <= k < |s| ==> IsSpace(s[k])
    ensures r == [] || !IsSpace(r[|r| - 1])
  {
    if s != [] && IsSpace(s[|s| - 1]) then StripRight(s[..|s| - 1]) else s
  }

  /** `r` occurs in `s` at index `i`, and everything of `s` before and
      after that occurrence is whitespace. */
  predicate TrimmedAt(s: Text, r: Text, i: int) {
    OccursAt(s, r, i)
    && (forall k :: 0 <= k < i ==> IsSpace(s[k]))
    && (forall k :: i + |r| <= k < |s| ==> IsSpace(s[k]))
  }

  /** Python's `s.strip()`: removes exactly the leading and the trailing
      whitespace and keeps everything between. */
  function Strip(s: Text): (r: Text)
    ensures Stripped(r)
    ensures exists i :: TrimmedAt(s, r, i)
    ensures Stripped(s) ==> r == s
  {
    var l := StripLeft(s);
    var r := StripRight(l);
    StripTrimmed(s, l, r);
    assert Stripped(s) ==> l == s && r == l by {
      if Stripped(s) && s != [] {
        assert !IsSpace(s[0]) && |l| == |s|;
        assert !IsSpace(l[|l| - 1]);
      }
    }
    r
  }

  /** A suffix of `s` after leading whitespace, cut before its own trailing
      whitespace, is the middle of `s` with only whitespace around it. */
  lemma StripTrimmed(s: Text, l: Text, r: Text)
    requires |l| <= |s| && l == s[|s| - |l|..]
    requires forall k :: 0 <= k < |s| - |l| ==> IsSpace(s[k])
    requires |r| <= |l| && r == l[..|r|]
    requires forall k :: |r| <= k < |l| ==> IsSpace(l[k])
    ensures TrimmedAt(s, r, |s| - |l|)
  {
    var off := |s| - |l|;
    forall k | 0 <= k < |r| ensures s[off + k] == r[k] {
      assert r[k] == l[k];
    }
    assert s[off..off + |r|] == r;
    forall k | off + |r| <= k < |s| ensures IsSpace(s[k]) {
      assert s[k] == l[k - off];
    }
  }

  /** Python's `sep.join(parts)`. */
  function Join(parts: seq<Text>, sep: Text): Text {
    if |parts| == 0 then []
    else if |parts| == 1 then parts[0]
    else parts[0] + sep + Join(parts[1..], sep)
  }

  /** Python's `s.split(sep)` for a non-empty separator: cut at every
      occurrence of `sep`, scanning left to right without overlap. */
  function Split(s: Text, sep: Text): (r: seq<Text>)
    requires |sep| > 0
    ensures |r| >= 1
    decreases |s|
  {
    if |s| < |sep| then [s]
    else if s[..|sep|] == sep then [[]] + Split(s[|sep|..], sep)
    else
      var t := Split(s[1..], sep);
      [[s[0]] + t[0]] + t[1..]
  }

  /** Length of the first line of `s`: the index of its first line boundary. */
  function LineEnd(s: Text): (e: nat)
    ensures e <= |s|
    ensures forall k :: 0 <= k < e ==> !IsLineBreak(s[k])
    ensures e < |s| ==> IsLineBreak(s[e])
  {
    if s == [] || IsLineBreak(s[0]) then 0 else 1 + LineEnd(s[1..])
  }

  /** Width of the line boundary at `e`: two for `\r\n`, one otherwise. */
  function BreakWidth(s: Text, e: nat): (w: nat)
    requires e < |s|
    ensures 1 <= w <= |s| - e
  {
    if s[e] == CR && e + 1 < |s| && s[e + 1] == LF then 2 else 1
  }

  /** Python's `s.splitlines()`: no trailing empty line for a final boundary. */
  function SplitLines(s: Text): (r: seq<Text>)
    ensures forall l :: l in r ==> NoLineBreak(l)
    decreases |s|
  {
    if s == [] then []
    else
      var e := LineEnd(s);
      if e == |s| then [s] else [s[..e]] + SplitLines(s[e + BreakWidth(s, e)..])
  }

  /** `chunk for chunk in (phrase.strip() for phrase in phrases) if chunk`. */
  function KeepChunks(phrases: seq<Text>): seq<Text> {
    if phrases == [] then []
    else
      var c := Strip(phrases[0]);
      (if c == [] then [] else [c]) + KeepChunks(phrases[1..])
  }

  /** The chunks of scraper.py:37-39: every line stripped, split on two
      spaces, every phrase stripped, empty phrases dropped. */
  function Chunks(lines: seq<Text>): seq<Text> {
    if lines == [] then []
    else KeepChunks(Split(Strip(lines[0]), DOUBLE_SPACE)) + Chunks(lines[1..])
  }

  /** `s.encode('utf-8', errors='ignore').decode('utf-8')`: drops every
      code point UTF-8 cannot encode and keeps the others in order. */
  function DropSurrogates(s: Text): (r: Text)
    ensures NoSurrogate(r)
    ensures |r| <= |s|
  {
    if s == [] then []
    else (if IsSurrogate(s[0]) then [] else [s[0]]) + DropSurrogates(s[1..])
  }

  predicate IsUpperAscii(c: CodePoint) {
    0x41 <= c <= 0x5A
  }

  /** `s.lower()` on the ASCII letters: no capital is left, every capital
      becomes its small letter and every other code point stays in place. */
  function Lower(s: Text): (r: Text)
    ensures |r| == |s|
    ensures forall k :: 0 <= k < |r| ==> !IsUpperAscii(r[k])
    ensures forall k :: 0 <= k < |s| && !IsUpperAscii(s[k]) ==> r[k] == s[k]
    ensures forall k :: 0 <= k < |s| && IsUpperAscii(s[k]) ==> r[k] as int == s[k] as int + 0x20
  {
    seq(|s|, k requires 0 <= k < |s| => if IsUpperAscii(s[k]) then s[k] + 0x20 else s[k])
  }

  /** `s.replace('.', '')`: the text with every dot taken out and every
      other code point kept. */
  function RemoveDots(s: Text): (r: Text)
    ensures |r| <= |s|
    ensures DOT !in r
  {
    if s == [] then []
    else (if s[0] == DOT then [] else [s[0]]) + RemoveDots(s[1..])
  }

  /** The text stage of `clean_html` (scraper.py:37-42). */
  function CleanText(s: Text): (r: Text)
    ensures NoSurrogate(r)
  {
    DropSurrogates(Join(Chunks(SplitLines(s)), NEWLINE))
  }

  /** What every line of a cleaned text looks like. */
  ghost predicate CleanLine(c: Text) {
    c != [] && Stripped(c) && NoLineBreak(c) && Free(c, DOUBLE_SPACE)
  }

  // ---------------------------------------------------------------------
  // Split and Join

  lemma JoinCons(x: CodePoint, t: seq<Text>, sep: Text)
    requires |t| >= 1
    ensures Join([[x] + t[0]] + t[1..], sep) == [x] + Join(t, sep)
  {
    var r := [[x] + t[0]] + t[1..];
    if |t| > 1 {
      assert r[1..] == t[1..];
    }
  }

  /** Joining the pieces of a split with the separator gives back the text. */
  lemma {:induction false} SplitJoin(s: Text, sep: Text)
    requires |sep| > 0
    ensures Join(Split(s, sep), sep) == s
    decreases |s|
  {
    if |s| < |sep| {
    } else if s[..|sep|] == sep {
      SplitJoin(s[|sep|..], sep);
      var t := Split(s[|sep|..], sep);
      assert ([[]] + t)[1..] == t;
      assert s == sep + s[|sep|..];
    } else {
      SplitJoin(s[1..], sep);
      var t := Split(s[1..], sep);
      JoinCons(s[0], t, sep);
      assert s == [s[0]] + s[1..];
    }
  }

  lemma {:induction false} JoinStartsWith(parts: seq<Text>, sep: Text)
    requires |parts| >= 1
    ensures |parts[0]| <= |Join(parts, sep)|
    ensures Join(parts, sep)[..|parts[0]|] == parts[0]
  {
  }

  /** Every part of a join is a contiguous part of the joined text. */
  lemma {:induction false} JoinInfix(parts: seq<Text>, sep: Text, k: nat)
    requires k < |parts|
    ensures Infix(parts[k], Join(parts, sep))
    decreases |parts|
  {
    var j := Join(parts, sep);
    if k == 0 {
      JoinStartsWith(parts, sep);
      assert OccursAt(j, parts[0], 0);
    } else {
      JoinInfix(parts[1..], sep, k - 1);
      var rest := Join(parts[1..], sep);
      var i :| OccursAt(rest, parts[k], i);
      var off := |parts[0]| + |sep|;
      assert j == parts[0] + sep + rest;
      assert j[off + i..off + i + |parts[k]|] == rest[i..i + |parts[k]|];
      assert OccursAt(j, parts[k], off + i);
    }
  }

  lemma SplitInfix(s: Text, sep: Text)
    requires |sep| > 0
    ensures forall p :: p in Split(s, sep) ==> Infix(p, s)
  {
    SplitJoin(s, sep);
    var r := Split(s, sep);
    forall p | p in r ensures Infix(p, s) {
      var k :| 0 <= k < |r| && r[k] == p;
      JoinInfix(r, sep, k);
    }
  }

  /** No piece of a split contains the separator. */
  lemma {:induction false} SplitFree(s: Text, sep: Text)
    requires |sep| > 0
    ensures forall p :: p in Split(s, sep) ==> Free(p, sep)
    decreases |s|
  {
    if |s| < |sep| {
      forall k ensures !OccursAt(s, sep, k) { }
    } else if s[..|sep|] == sep {
      SplitFree(s[|sep|..], sep);
      forall k ensures !OccursAt([], sep, k) { }
    } else {
      SplitFree(s[1..], sep);
      var t := Split(s[1..], sep);
      SplitJoin(s[1..], sep);
      JoinStartsWith(t, sep);
      var p := [s[0]] + t[0];
      assert p == s[..|p|];
      forall k ensures !OccursAt(p, sep, k) {
        if k == 0 {
          assert 0 <= |p| - |sep| ==> p[0..|sep|] == s[..|sep|];
        } else if 0 < k <= |p| - |sep| {
          assert p[k..k + |sep|] == t[0][k - 1..k - 1 + |sep|];
          assert t[0] in t;
          assert !OccursAt(t[0], sep, k - 1);
        }
      }
    }
  }

  /** A text in which the separator does not occur splits into itself. */
  lemma {:induction false} SplitOfFree(s: Text, sep: Text)
    requires |sep| > 0 && Free(s, sep)
    ensures Split(s, sep) == [s]
    decreases |s|
  {
    if |s| >= |sep| {
      assert !OccursAt(s, sep, 0);
      assert Free(s[1..], sep) by {
        forall k ensures !OccursAt(s[1..], sep, k) {
          if 0 <= k <= |s[1..]| - |sep| {
            assert s[1..][k..k + |sep|] == s[k + 1..k + 1 + |sep|];
            assert !OccursAt(s, sep, k + 1);
          }
        }
      }
      SplitOfFree(s[1..], sep);
      assert [s[0]] + s[1..] == s;
    }
  }

  // ---------------------------------------------------------------------
  // Contiguous parts keep character-wise properties

  lemma InfixKeeps(r: Text, s: Text)
    requires Infix(r, s)
    ensures NoLineBreak(s) ==> NoLineBreak(r)
    ensures NoSurrogate(s) ==> NoSurrogate(r)
  {
    var i :| OccursAt(s, r, i);
    assert forall k :: 0 <= k < |r| ==> r[k] == s[i + k];
  }

  lemma SliceOfSlice(s: Text, i: nat, n: nat, k: nat, m: nat)
    requires i + n <= |s| && k + m <= n
    ensures s[i..i + n][k..k + m] == s[i + k..i + k + m]
  {
    var a, b := s[i..i + n][k..k + m], s[i + k..i + k + m];
    forall j | 0 <= j < m ensures a[j] == b[j] {
    }
  }

  lemma InfixFree(r: Text, s: Text, sep: Text)
    requires Infix(r, s) && Free(s, sep)
    ensures Free(r, sep)
  {
    var i :| OccursAt(s, r, i);
    assert r == s[i..i + |r|];
    forall k ensures !OccursAt(r, sep, k) {
      if 0 <= k <= |r| - |sep| {
        SliceOfSlice(s, i, |r|, k, |sep|);
        assert r[k..k + |sep|] == s[i + k..i + k + |sep|];
        assert !OccursAt(s, sep, i + k) by {
          assert Free(s, sep);
        }
      }
    }
  }

  /** Every line `splitlines` returns is a contiguous part of the text. */
  lemma {:induction false} SplitLinesInfix(s: Text)
    ensures forall l :: l in SplitLines(s) ==> Infix(l, s)
    decreases |s|
  {
    if s != [] {
      var e := LineEnd(s);
      if e == |s| {
        assert OccursAt(s, s, 0);
      } else {
        var off := e + BreakWidth(s, e);
        var rest := s[off..];
        SplitLinesInfix(rest);
        assert OccursAt(s, s[..e], 0);
        forall l | l in SplitLines(rest) ensures Infix(l, s) {
          var i :| OccursAt(rest, l, i);
          assert s[off + i..off + i + |l|] == rest[i..i + |l|];
          assert OccursAt(s, l, off + i);
        }
      }
    }
  }

  // ---------------------------------------------------------------------
  // Properties of the text stage

  lemma {:induction false} KeepChunksClean(phrases: seq<Text>)
    requires forall p :: p in phrases ==> NoLineBreak(p) && Free(p, DOUBLE_SPACE)
    ensures forall c :: c in KeepChunks(phrases) ==> CleanLine(c)
    ensures (forall p :: p in phrases ==> NoSurrogate(p)) ==>
              forall c :: c in KeepChunks(phrases) ==> NoSurrogate(c)
  {
    if phrases != [] {
      var c := Strip(phrases[0]);
      InfixKeeps(c, phrases[0]);
      InfixFree(c, phrases[0], DOUBLE_SPACE);
      KeepChunksClean(phrases[1..]);
    }
  }

  /** Every chunk is non-empty, stripped, free of line boundaries and of two
      consecutive spaces, and is surrogate-free when its lines are. */
  lemma {:induction false} ChunksClean(lines: seq<Text>)
    requires forall l :: l in lines ==> NoLineBreak(l)
    ensures forall c :: c in Chunks(lines) ==> CleanLine(c)
    ensures (forall l :: l in lines ==> NoSurrogate(l)) ==>
              forall c :: c in Chunks(lines) ==> NoSurrogate(c)
  {
    if lines != [] {
      var line := Strip(lines[0]);
      InfixKeeps(line, lines[0]);
      var phrases := Split(line, DOUBLE_SPACE);
      SplitInfix(line, DOUBLE_SPACE);
      SplitFree(line, DOUBLE_SPACE);
      forall p | p in phrases ensures NoLineBreak(p) && (NoSurrogate(line) ==> NoSurrogate(p)) {
        InfixKeeps(p, line);
      }
      KeepChunksClean(phrases);
      ChunksClean(lines[1..]);
    }
  }

  lemma {:induction false} LineEndAt(s: Text, e: nat)
    requires e < |s| && IsLineBreak(s[e])
    requires forall k :: 0 <= k < e ==> !IsLineBreak(s[k])
    ensures LineEnd(s) == e
    decreases e
  {
    if e > 0 {
      LineEndAt(s[1..], e - 1);
    }
  }

  lemma {:induction false} LineEndAll(s: Text)
    requires NoLineBreak(s)
    ensures LineEnd(s) == |s|
    decreases |s|
  {
    if s != [] {
      LineEndAll(s[1..]);
    }
  }

  /** Lines without boundaries, joined with `\n`, split back into themselves. */
  lemma {:induction false} SplitLinesJoin(cs: seq<Text>)
    requires forall c :: c in cs ==> c != [] && NoLineBreak(c)
    ensures SplitLines(Join(cs, NEWLINE)) == cs
    decreases |cs|
  {
    if |cs| == 1 {
      LineEndAll(cs[0]);
    } else if |cs| > 1 {
      var s := Join(cs, NEWLINE);
      var e := |cs[0]|;
      assert s == cs[0] + NEWLINE + Join(cs[1..], NEWLINE);
      assert cs[0] in cs;
      assert s[e] == LF;
      assert forall k :: 0 <= k < e ==> s[k] == cs[0][k];
      LineEndAt(s, e);
      assert BreakWidth(s, e) == 1;
      assert s[..e] == cs[0];
      assert s[e + 1..] == Join(cs[1..], NEWLINE);
      assert forall c :: c in cs[1..] ==> c in cs;
      SplitLinesJoin(cs[1..]);
      assert cs == [cs[0]] + cs[1..];
    }
  }

  /** The chunks of lines that are already clean are those lines. */
  lemma {:induction false} ChunksOfClean(cs: seq<Text>)
    requires forall c :: c in cs ==> CleanLine(c)
    ensures Chunks(cs) == cs
    decreases |cs|
  {
    if cs != [] {
      var head, tail := cs[0], cs[1..];
      assert head in cs;
      assert forall c :: c in tail ==> c in cs;
      ChunksOfClean(tail);
      ChunksOfCleanLine(head);
      ChunksCons(head, tail);
      HeadTail(cs);
    }
  }

  lemma ChunksCons(line: Text, rest: seq<Text>)
    ensures Chunks([line] + rest) == KeepChunks(Split(Strip(line), DOUBLE_SPACE)) + Chunks(rest)
  {
    assert ([line] + rest)[1..] == rest;
  }

  lemma ChunksOfCleanLine(c: Text)
    requires CleanLine(c)
    ensures KeepChunks(Split(Strip(c), DOUBLE_SPACE)) == [c]
  {
    SplitOfFree(c, DOUBLE_SPACE);
    assert KeepChunks([c]) == [c] + KeepChunks([]);
  }

  lemma {:induction false} JoinNoSurrogate(parts: seq<Text>, sep: Text)
    requires NoSurrogate(sep)
    requires forall p :: p in parts ==> NoSurrogate(p)
    ensures NoSurrogate(Join(parts, sep))
    decreases |parts|
  {
    if |parts| == 1 {
      assert parts[0] in parts;
    } else if |parts| > 1 {
      assert parts[0] in parts;
      assert forall p :: p in parts[1..] ==> p in parts;
      JoinNoSurrogate(parts[1..], sep);
      var rest := Join(parts[1..], sep);
      assert Join(parts, sep) == parts[0] + sep + rest;
    }
  }

  /** The chunks of a surrogate-free text, all clean and surrogate-free. */
  lemma CleanChunks(s: Text)
    requires NoSurrogate(s)
    ensures forall c :: c in Chunks(SplitLines(s)) ==> CleanLine(c) && NoSurrogate(c)
    ensures CleanText(s) == Join(Chunks(SplitLines(s)), NEWLINE)
  {
    var lines := SplitLines(s);
    SplitLinesInfix(s);
    forall l | l in lines ensures NoSurrogate(l) {
      InfixKeeps(l, s);
    }
    ChunksClean(lines);
    JoinNoSurrogate(Chunks(lines), NEWLINE);
    DropSurrogatesOfFree(Join(Chunks(lines), NEWLINE));
  }

  /** For surrogate-free input, the lines of the cleaned text are exactly the
      chunks, and each is non-empty, stripped and free of double spaces. */
  lemma CleanTextLines(s: Text)
    requires NoSurrogate(s)
    ensures SplitLines(CleanText(s)) == Chunks(SplitLines(s))
    ensures forall l :: l in SplitLines(CleanText(s)) ==> CleanLine(l)
  {
    CleanChunks(s);
    SplitLinesJoin(Chunks(SplitLines(s)));
  }

  /** Cleaning a cleaned, surrogate-free text changes nothing. */
  lemma CleanTextIdempotent(s: Text)
    requires NoSurrogate(s)
    ensures CleanText(CleanText(s)) == CleanText(s)
  {
    CleanChunks(s);
    var cs := Chunks(SplitLines(s));
    SplitLinesJoin(cs);
    ChunksOfClean(cs);
  }

  /** Because the surrogates are dropped after the whitespace is normalised,
      a lone surrogate can leave a leading space behind: `"\ud800 x"` cleans
      to `" x"`, which cleans again to `"x"`. */
  lemma SurrogateBreaksIdempotence(s: Text)
    requires s == [0xD800, SPACE, 0x78]
    ensures CleanText(s) == [SPACE, 0x78]
    ensures CleanText(CleanText(s)) == [0x78]
    ensures !CleanLine(CleanText(s))
  {
    SurrogateThenSpace(s);
    SpaceThenX(s[1..]);
    assert CleanText(s)[0] == SPACE;
  }

  lemma SingleLineClean(s: Text)
    requires CleanLine(s)
    ensures Join(Chunks(SplitLines(s)), NEWLINE) == s
  {
    LineEndAll(s);
    assert SplitLines(s) == [s];
    ChunksOfClean([s]);
  }

  lemma SurrogateThenSpace(s: Text)
    requires s == [0xD800, SPACE, 0x78]
    ensures CleanText(s) == s[1..]
  {
    SurrogateLine(s);
    SingleLineClean(s);
    SurrogateDropped(s);
  }

  lemma SurrogateLine(s: Text)
    requires s == [0xD800, SPACE, 0x78]
    ensures CleanLine(s)
  {
    NoAdjacentSpaces(s);
  }

  lemma SurrogateDropped(s: Text)
    requires s == [0xD800, SPACE, 0x78]
    ensures DropSurrogates(s) == s[1..]
  {
    assert NoSurrogate(s[1..]);
    DropSurrogatesOfFree(s[1..]);
    assert s == [s[0]] + s[1..];
    DropSurrogatesCons(s[0], s[1..]);
  }

  lemma SpaceThenX(t: Text)
    requires t == [SPACE, 0x78]
    ensures CleanText(t) == t[1..]
  {
    var x := t[1..];
    LineEndAll(t);
    assert SplitLines(t) == [t];
    assert StripLeft(t) == StripLeft(x) == x;
    assert Strip(t) == x;
    assert Split(x, DOUBLE_SPACE) == [x];
    KeepOneChunk(x);
    ChunksCons(t, []);
    assert Chunks([t]) == [x];
    DropSurrogatesOfFree(x);
  }

  /** A text with no two adjacent spaces is free of double spaces. */
  lemma NoAdjacentSpaces(s: Text)
    requires forall k :: 0 <= k < |s| - 1 ==> s[k] != SPACE || s[k + 1] != SPACE
    ensures Free(s, DOUBLE_SPACE)
  {
    forall k ensures !OccursAt(s, DOUBLE_SPACE, k) {
      if 0 <= k <= |s| - 2 {
        assert s[k..k + 2][0] == s[k] && s[k..k + 2][1] == s[k + 1];
      }
    }
  }

  lemma KeepOneChunk(c: Text)
    requires c != [] && Stripped(c)
    ensures KeepChunks([c]) == [c]
  {
    assert [c][1..] == [];
  }

  lemma DropSurrogatesCons(c: CodePoint, t: Text)
    ensures DropSurrogates([c] + t) == (if IsSurrogate(c) then [] else [c]) + DropSurrogates(t)
  {
    assert ([c] + t)[1..] == t;
  }

  /** Dropping works code point by code point: the result for a text is
      the results for its two halves, one after the other. */
  lemma {:induction false} DropSurrogatesAppend(a: Text, b: Text)
    ensures DropSurrogates(a + b) == DropSurrogates(a) + DropSurrogates(b)
    decreases |a|
  {
    if a == [] {
      assert a + b == b;
    } else {
      DropSurrogatesAppend(a[1..], b);
      DropSurrogatesTail(a, b);
      var h: Text := if IsSurrogate(a[0]) then [] else [a[0]];
      var x, y := DropSurrogates(a[1..]), DropSurrogates(b);
      assert h + (x + y) == h + x + y;
    }
  }

  lemma DropSurrogatesTail(a: Text, b: Text)
    requires a != []
    ensures var h: Text := if IsSurrogate(a[0]) then [] else [a[0]];
      DropSurrogates(a + b) == h + DropSurrogates(a[1..] + b)
      && DropSurrogates(a) == h + DropSurrogates(a[1..])
  {
    var ab := a + b;
    assert ab[0] == a[0];
    assert ab[1..] == a[1..] + b;
  }

  /** Nothing but the text's own code points is left... */
  lemma {:induction false} DropSurrogatesFrom(s: Text)
    ensures forall c :: c in DropSurrogates(s) ==> c in s
    decreases |s|
  {
    if s != [] {
      DropSurrogatesFrom(s[1..]);
      assert forall c :: c in s[1..] ==> c in s;
    }
  }

  /** ...and every code point UTF-8 can encode is kept. */
  lemma {:induction false} DropSurrogatesKeepsOthers(s: Text)
    ensures forall k :: 0 <= k < |s| && !IsSurrogate(s[k]) ==> s[k] in DropSurrogates(s)
    decreases |s|
  {
    if s != [] {
      DropSurrogatesKeepsOthers(s[1..]);
      forall k | 0 < k < |s| ensures s[k] == s[1..][k - 1] { }
    }
  }

  /** A text UTF-8 can encode comes back unchanged. */
  lemma {:induction false} DropSurrogatesOfFree(s: Text)
    requires NoSurrogate(s)
    ensures DropSurrogates(s) == s
    decreases |s|
  {
    if s != [] {
      DropSurrogatesOfFree(s[1..]);
      HeadTail(s);
    }
  }

  // ---------------------------------------------------------------------
  // What UTF-8 can encode

  /** A concatenation can be encoded exactly when both halves can. */
  lemma NoSurrogateAppend(a: Text, b: Text)
    ensures NoSurrogate(a + b) <==> NoSurrogate(a) && NoSurrogate(b)
  {
    if NoSurrogate(a + b) {
      forall k | 0 <= k < |a| ensures !IsSurrogate(a[k]) {
        assert (a + b)[k] == a[k];
      }
      forall k | 0 <= k < |b| ensures !IsSurrogate(b[k]) {
        assert (a + b)[|a| + k] == b[k];
      }
    }
    if NoSurrogate(a) && NoSurrogate(b) {
      forall k | 0 <= k < |a + b| ensures !IsSurrogate((a + b)[k]) {
        if k < |a| {
          assert (a + b)[k] == a[k];
        } else {
          assert (a + b)[k] == b[k - |a|];
        }
      }
    }
  }

  /** A string literal never holds a lone surrogate. */
  lemma StrEncodable(s: string)
    ensures NoSurrogate(Str(s))
  {
    forall k | 0 <= k < |s| ensures !IsSurrogate(Str(s)[k]) {
      var c := s[k];
      assert !(0xD800 <= c as int <= 0xDFFF);
    }
  }

  // ---------------------------------------------------------------------
  // Lower-casing and taking dots out

  lemma LowerOfLower(s: Text)
    requires forall k :: 0 <= k < |s| ==> !IsUpperAscii(s[k])
    ensures Lower(s) == s
  {
  }

  /** Nothing but the text's own code points is left. */
  lemma {:induction false} RemoveDotsFrom(s: Text)
    ensures forall c :: c in RemoveDots(s) ==> c in s
    decreases |s|
  {
    if s != [] {
      RemoveDotsFrom(s[1..]);
      assert forall c :: c in s[1..] ==> c in s;
    }
  }

  /** Every code point other than a dot is kept. */
  lemma {:induction false} RemoveDotsKeepsOthers(s: Text)
    ensures forall k :: 0 <= k < |s| && s[k] != DOT ==> s[k] in RemoveDots(s)
    decreases |s|
  {
    if s != [] {
      RemoveDotsKeepsOthers(s[1..]);
      forall k | 0 < k < |s| ensures s[k] == s[1..][k - 1] { }
    }
  }

  lemma {:induction false} RemoveDotsKeeps(s: Text)
    requires forall k :: 0 <= k < |s| ==> !IsUpperAscii(s[k])
    ensures forall k :: 0 <= k < |RemoveDots(s)| ==> !IsUpperAscii(RemoveDots(s)[k])
  {
    RemoveDotsFrom(s);
    forall k | 0 <= k < |RemoveDots(s)|
      ensures !IsUpperAscii(RemoveDots(s)[k])
    {
      assert RemoveDots(s)[k] in s;
    }
  }

  lemma {:induction false} RemoveDotsOfFree(s: Text)
    requires DOT !in s
    ensures RemoveDots(s) == s
  {
    if s != [] {
      assert DOT !in s[1..];
      RemoveDotsOfFree(s[1..]);
      HeadTail(s);
    }
  }

  /** Taking dots out works code point by code point: the result for a
      text is the results for its two halves, one after the other. */
  lemma {:induction false} RemoveDotsAppend(a: Text, b: Text)
    ensures RemoveDots(a + b) == RemoveDots(a) + RemoveDots(b)
    decreases |a|
  {
    if a == [] {
      assert a + b == b;
    } else {
      RemoveDotsAppend(a[1..], b);
      assert (a + b)[1..] == a[1..] + b;
    }
  }

  lemma LowerEncodable(s: Text)
    ensures NoSurrogate(Lower(s)) <==> NoSurrogate(s)
  {
  }
}
