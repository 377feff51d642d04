/** The command line (scraper.py:383-414): the base URL is normalised from
    the first argument, the output file is named after it, and the
    documentation is written only when the crawl found some. */
module Cli {
  import opened Wrappers
  import opened Texts
  import opened Html
  import opened Fetch
  import opened ClassPage
  import opened Crawl
  import opened Render

  const SLASH: CodePoint := 0x2F
  const HTTP: Text := Str("http")
  /** The forum prefix put in front of a bare Javadoc path (scraper.py:397). */
  const FORUM: Text := Str("https://forum.elo.com/javadoc/")
  const FILE_PREFIX: Text := Str("javadoc.")
  const FILE_SUFFIX: Text := Str(".md")

  predicate StartsWith(s: Text, p: Text) {
    |p| <= |s| && s[..|p|] == p
  }

  predicate EndsWithSlash(s: Text) {
    s != [] && s[|s| - 1] == SLASH
  }

  /** `s.rstrip('/')`: removes exactly the trailing slashes. */
  function StripSlashes(s: Text): (r: Text)
    ensures |r| <= |s| && r == s[..|r|]
    ensures forall k :: |r| <= k < |s| ==> s[k] == SLASH
    ensures !EndsWithSlash(r)
  {
    if EndsWithSlash(s) then StripSlashes(s[..|s| - 1]) else s
  }

  // ---------------------------------------------------------------------
  // The base URL (scraper.py:395-399)

  function NormaliseUrl(arg: Text): (r: Text) {
    var stripped := StripSlashes(arg);
    var base := if StartsWith(stripped, HTTP) then stripped else FORUM + stripped;
    if EndsWithSlash(base) then base else base + [SLASH]
  }

  // ---------------------------------------------------------------------
  // The output file name (scraper.py:404-405)

  /** The path segments the name is made of: `url_parts[4:]`, which skips
      the scheme, the empty text between the two slashes, the host and the
      first path segment. */
  function NameSegments(url: Text): seq<Text> {
    var parts := Split(StripSlashes(url), [SLASH]);
    if |parts| >= 4 then parts[4..] else []
  }

  /** `'.'.join(p for p in url_parts[4:] if p)` between the prefix and the
      suffix. */
  function OutputFilename(url: Text): Text {
    FILE_PREFIX + Join(NonEmpty(NameSegments(url)), [DOT]) + FILE_SUFFIX
  }

  // ---------------------------------------------------------------------
  // The run (scraper.py:401-414)

  /** What a run leaves behind. */
  datatype Ending =
    | NothingSaved                     // no documentation, or an unreachable site
    | Saved(file: Text, contents: Text)
    | CrawlNameError                   // the uncaught `NameError` of the crawl
    | WriteEncodeError(file: Text)     // `UnicodeEncodeError` while writing `file`

  function Run(web: Web, arg: Text): Ending {
    var url := NormaliseUrl(arg);
    match JavadocAt(web, url)
    case NameError => CrawlNameError
    case Returned(None) => NothingSaved
    case Returned(Some(d)) =>
      if d == [] then NothingSaved
      else
        match Written(d)
        case None => WriteEncodeError(OutputFilename(url))
        case Some(contents) => Saved(OutputFilename(url), contents)
  }

  method RunScraper(web: Web, arg: Text) returns (r: Ending)
    ensures r == Run(web, arg)
  {
    var url := NormaliseUrl(arg);
    var file := OutputFilename(url);
    var documentation := ScrapeJavadoc(web, url);
    match documentation
    case NameError =>
      r := CrawlNameError;
    case Returned(None) =>
      r := NothingSaved;
    case Returned(Some(d)) =>
      if d == [] {
        r := NothingSaved;
      } else {
        var written := SaveMarkdown(d);
        match written
        case None =>
          r := WriteEncodeError(file);
        case Some(contents) =>
          r := Saved(file, contents);
      }
  }

  // ---------------------------------------------------------------------
  // Properties of the base URL

  lemma StripOneSlash(x: Text)
    requires !EndsWithSlash(x)
    ensures StripSlashes(x + [SLASH]) == x
  {
    assert (x + [SLASH])[..|x|] == x;
  }

  lemma StartsWithHttp()
    ensures StartsWith(FORUM, HTTP)
    ensures forall s :: StartsWith(FORUM + s, HTTP)
    ensures EndsWithSlash(FORUM)
  {
    assert FORUM[..|HTTP|] == HTTP;
    forall s ensures StartsWith(FORUM + s, HTTP) {
      assert (FORUM + s)[..|HTTP|] == FORUM[..|HTTP|];
    }
  }

  /** The normalised URL is a base that starts with `http` and does not end
      with a slash, followed by exactly one slash. */
  lemma NormaliseUrlShape(arg: Text)
    ensures var r := NormaliseUrl(arg);
      EndsWithSlash(r) && r == StripSlashes(r) + [SLASH] && StartsWith(StripSlashes(r), HTTP)
  {
    var stripped := StripSlashes(arg);
    var r := NormaliseUrl(arg);
    StartsWithHttp();
    if StartsWith(stripped, HTTP) {
      StripOneSlash(stripped);
    } else if stripped == [] {
      var x := FORUM[..|FORUM| - 1];
      assert FORUM == x + [SLASH];
      assert !EndsWithSlash(x);
      StripOneSlash(x);
      assert x[..|HTTP|] == HTTP;
    } else {
      var x := FORUM + stripped;
      assert !EndsWithSlash(x);
      StripOneSlash(x);
    }
  }

  /** The argument, less its trailing slashes, gives the base: unchanged
      when it starts with `http`, after the forum prefix otherwise. */
  lemma NormaliseUrlBase(arg: Text)
    ensures var stripped := StripSlashes(arg);
      var r := NormaliseUrl(arg);
      (StartsWith(stripped, HTTP) ==> r == stripped + [SLASH])
      && (!StartsWith(stripped, HTTP) && stripped != [] ==> r == FORUM + stripped + [SLASH])
      && (stripped == [] ==> r == FORUM)
  {
    var stripped := StripSlashes(arg);
    StartsWithHttp();
    if stripped != [] {
      assert (FORUM + stripped)[|FORUM + stripped| - 1] == stripped[|stripped| - 1];
    } else {
      assert FORUM + stripped == FORUM;
    }
  }

  /** Normalising a normalised URL changes nothing. */
  lemma NormaliseUrlIdempotent(arg: Text)
    ensures NormaliseUrl(NormaliseUrl(arg)) == NormaliseUrl(arg)
  {
    NormaliseUrlShape(arg);
  }

  // ---------------------------------------------------------------------
  // Properties of the file name

  lemma FreeOfChar(s: Text, c: CodePoint)
    requires c !in s
    ensures Free(s, [c])
  {
    forall k ensures !OccursAt(s, [c], k) {
      if 0 <= k <= |s| - 1 {
        assert s[k..k + 1][0] == s[k];
      }
    }
  }

  lemma CharOfFree(s: Text, c: CodePoint)
    requires Free(s, [c])
    ensures c !in s
  {
    forall k | 0 <= k < |s| ensures s[k] != c {
      assert !OccursAt(s, [c], k);
      assert s[k..k + 1] == [s[k]];
    }
  }

  /** Splitting at the first separator character. */
  lemma {:induction false} SplitAtChar(a: Text, c: CodePoint, b: Text)
    requires c !in a
    ensures Split(a + [c] + b, [c]) == [a] + Split(b, [c])
    decreases |a|
  {
    var s := a + [c] + b;
    if a == [] {
      assert s[..1] == [c];
      assert s[1..] == b;
    } else {
      assert s[..1] == [a[0]];
      assert s[1..] == a[1..] + [c] + b;
      SplitAtChar(a[1..], c, b);
      assert [a[0]] + a[1..] == a;
    }
  }

  lemma {:induction false} JoinAvoids(parts: seq<Text>, sep: Text, c: CodePoint)
    requires forall p :: p in parts ==> c !in p
    requires c !in sep
    ensures c !in Join(parts, sep)
    decreases |parts|
  {
    if |parts| > 1 {
      assert parts[0] in parts;
      assert forall p :: p in parts[1..] ==> p in parts;
      JoinAvoids(parts[1..], sep, c);
    }
  }

  /** The file name is `javadoc.`, path segments joined with dots, and
      `.md`; none of the segments is empty and none holds a slash, so the
      name is a plain file name in the working directory. */
  lemma OutputFilenameSpec(url: Text)
    ensures var f := OutputFilename(url);
      StartsWith(f, FILE_PREFIX)
      && |FILE_SUFFIX| <= |f| && f[|f| - |FILE_SUFFIX|..] == FILE_SUFFIX
      && SLASH !in f
    ensures forall p :: p in NonEmpty(NameSegments(url)) ==> p != [] && SLASH !in p
  {
    var parts := Split(StripSlashes(url), [SLASH]);
    SplitFree(StripSlashes(url), [SLASH]);
    var segments := NonEmpty(NameSegments(url));
    forall p | p in segments ensures p != [] && SLASH !in p {
      NonEmptyIn(NameSegments(url), p);
      assert p in NameSegments(url);
      assert p in parts;
      CharOfFree(p, SLASH);
    }
    JoinAvoids(segments, [DOT], SLASH);
    var f := OutputFilename(url);
    assert f[..|FILE_PREFIX|] == FILE_PREFIX;
    assert f[|f| - |FILE_SUFFIX|..] == FILE_SUFFIX;
    assert SLASH !in FILE_PREFIX && SLASH !in FILE_SUFFIX;
  }

  /** The example URL, less its trailing slash, is six slash-separated
      pieces. */
  lemma ExamplePieces(stripped: Text)
    requires stripped == Str("https://forum.elo.com/javadoc/ix/23")
    ensures stripped == Str("https:") + [SLASH] + ([] + [SLASH] + (Str("forum.elo.com") + [SLASH]
      + (Str("javadoc") + [SLASH] + (Str("ix") + [SLASH] + Str("23")))))
  {
  }

  lemma ExampleSplit(stripped: Text)
    requires stripped == Str("https://forum.elo.com/javadoc/ix/23")
    ensures Split(stripped, [SLASH])
      == [Str("https:"), [], Str("forum.elo.com"), Str("javadoc"), Str("ix"), Str("23")]
  {
    ExamplePieces(stripped);
    var s := [SLASH];
    var p1, p2, p3, p4, p5, p6 :=
      Str("https:"), [], Str("forum.elo.com"), Str("javadoc"), Str("ix"), Str("23");
    ExampleSplitTail(p4 + s + (p5 + s + p6));
    SplitAtChar(p3, SLASH, p4 + s + (p5 + s + p6));
    SplitAtChar(p2, SLASH, p3 + s + (p4 + s + (p5 + s + p6)));
    SplitAtChar(p1, SLASH, p2 + s + (p3 + s + (p4 + s + (p5 + s + p6))));
  }

  lemma ExampleSplitTail(t: Text)
    requires t == Str("javadoc") + [SLASH] + (Str("ix") + [SLASH] + Str("23"))
    ensures Split(t, [SLASH]) == [Str("javadoc"), Str("ix"), Str("23")]
  {
    var s := [SLASH];
    var p4, p5, p6 := Str("javadoc"), Str("ix"), Str("23");
    FreeOfChar(p6, SLASH);
    SplitOfFree(p6, s);
    SplitAtChar(p5, SLASH, p6);
    SplitAtChar(p4, SLASH, p5 + s + p6);
  }

  /** The segments of the example URL. */
  lemma ExampleSegments(url: Text)
    requires url == Str("https://forum.elo.com/javadoc/ix/23/")
    ensures NameSegments(url) == [Str("ix"), Str("23")]
  {
    var stripped := Str("https://forum.elo.com/javadoc/ix/23");
    assert url == stripped + [SLASH];
    StripOneSlash(stripped);
    ExampleSplit(stripped);
  }

  /** `https://forum.elo.com/javadoc/ix/23/` is saved as `javadoc.ix.23.md`,
      and so is the bare argument `ix/23`. */
  lemma ExampleFilename(url: Text, arg: Text)
    requires url == Str("https://forum.elo.com/javadoc/ix/23/")
    requires arg == Str("ix/23")
    ensures NormaliseUrl(arg) == url
    ensures OutputFilename(url) == Str("javadoc.ix.23.md")
  {
    ExampleSegments(url);
    var segments := [Str("ix"), Str("23")];
    assert NonEmpty(segments[..1]) == [Str("ix")] by {
      assert segments[..1][..0] == [];
    }
    assert NonEmpty(segments) == segments;
    assert Join(segments, [DOT]) == Str("ix") + [DOT] + Str("23");
    assert StripSlashes(arg) == arg;
    assert arg[0] != HTTP[0];
    assert !StartsWith(arg, HTTP);
    assert url == FORUM + arg + [SLASH];
  }

  // ---------------------------------------------------------------------
  // Properties of the run

  /** A file is opened exactly when the crawl found documentation; it is
      named after the normalised URL, and a complete file begins with the
      document title and is valid UTF-8. */
  lemma RunSpec(web: Web, arg: Text)
    ensures Run(web, arg) == CrawlNameError <==> JavadocAt(web, NormaliseUrl(arg)) == NameError
    ensures Run(web, arg) == NothingSaved <==> JavadocAt(web, NormaliseUrl(arg)) == Returned(None)
    ensures Run(web, arg).Saved? || Run(web, arg).WriteEncodeError? ==>
      Run(web, arg).file == OutputFilename(NormaliseUrl(arg))
    ensures Run(web, arg).Saved? ==>
      var s := Run(web, arg).contents;
      |HEADER| <= |s| && s[..|HEADER|] == HEADER && NoSurrogate(s)
  {
    var url := NormaliseUrl(arg);
    JavadocNone(web, url);
    var r := JavadocAt(web, url);
    if r.Returned? && r.value.Some? && r.value.value != [] {
      var d := r.value.value;
      if Written(d).Some? {
        assert Run(web, arg) == Saved(OutputFilename(url), Markdown(d));
      } else {
        assert Run(web, arg) == WriteEncodeError(OutputFilename(url));
      }
    }
  }

  /** Every other field having been cleaned, writing the file fails exactly
      when a package name or a class name, taken from a link's text as it
      is, holds a lone surrogate. */
  lemma RunEncodeError(web: Web, arg: Text)
    ensures Run(web, arg).WriteEncodeError? <==>
      var r := JavadocAt(web, NormaliseUrl(arg));
      && r.Returned? && r.value.Some?
      && exists k :: 0 <= k < |r.value.value| && !NamesEncodable(r.value.value[k])
  {
    var url := NormaliseUrl(arg);
    var r := JavadocAt(web, url);
    JavadocEncodable(web, url);
    if r.Returned? && r.value.Some? {
      var d := r.value.value;
      assert forall k :: 0 <= k < |d| ==> d[k] in d;
      MarkdownEncodable(d);
    }
  }
}
