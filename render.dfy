/** The Markdown file written from the collected documentation
    (`save_markdown`, scraper.py:299-381). The text the file receives is
    modelled as a value: `Markdown` states it piece by piece and
    `SaveMarkdown` writes it with the source's loops. The file is opened
    with the UTF-8 encoding, which raises `UnicodeEncodeError` on a lone
    surrogate. */
module Render {
  import opened Wrappers
  import opened Texts
  import opened Seqs
  import opened ClassPage
  import opened PackagePage
  import opened Crawl

  const TITLE: Text := Str("# ELO Javadoc Documentation\n\n")
  const TOC_HEADING: Text := Str("## Table of Contents\n\n")
  /** Everything before the table of contents' entries. */
  const HEADER: Text := TITLE + TOC_HEADING
  /** The rule between the table of contents and the body. */
  const RULE: Text := Str("\n---\n\n")
  const CLASS_END: Text := Str("---\n\n")
  const FENCE_OPEN: Text := Str("```java\n")
  const FENCE_CLOSE: Text := Str("```\n\n")
  const PARAGRAPH_END: Text := Str("\n\n")
  const HYPHEN: CodePoint := 0x2D

  // ---------------------------------------------------------------------
  // Anchors

  /** The anchor of a package heading (scraper.py:310). */
  function PackageAnchor(name: Text): Text {
    RemoveDots(Lower(name))
  }

  /** The anchor of a class entry (scraper.py:312). */
  function ClassAnchor(package: Text, name: Text): Text {
    PackageAnchor(package) + [HYPHEN] + Lower(name)
  }

  // ---------------------------------------------------------------------
  // The table of contents (scraper.py:308-313)

  function TocPackageLine(name: Text): Text {
    Str("- [") + name + Str("](#") + PackageAnchor(name) + Str(")\n")
  }

  function TocClassLine(package: Text, name: Text): Text {
    Str("  - [") + name + Str("](#") + ClassAnchor(package, name) + Str(")\n")
  }

  /** The class lines of one package, as a function of the class. */
  function TocClassLineIn(package: Text): ClassEntry -> Text {
    (c: ClassEntry) => TocClassLine(package, c.name)
  }

  function TocEntry(p: Package): Text {
    TocPackageLine(p.name) + Each(p.classes, TocClassLineIn(p.name))
  }

  function Toc(d: Documentation): Text {
    Each(d, TocEntry)
  }

  // ---------------------------------------------------------------------
  // The body (scraper.py:317-381)

  /** A field written only when it is truthy: `**Package:** x`,
      `**Returns:** x`, `**Overrides:** x` and the bare paragraphs. */
  function Labelled(marker: Text, value: Text): Text {
    if value == [] then [] else marker + value + PARAGRAPH_END
  }

  function InheritancePart(value: Text): Text {
    if value == [] then [] else Str("**Inheritance:**\n\n") + value + PARAGRAPH_END
  }

  function DescriptionPart(value: Text): Text {
    if value == [] then [] else Str("### Description\n\n") + value + PARAGRAPH_END
  }

  function ParameterLine(p: Text): Text {
    Str("- ") + p + NEWLINE
  }

  function ParametersPart(ps: seq<Text>): Text {
    if ps == [] then [] else Str("**Parameters:**\n\n") + Each(ps, ParameterLine) + NEWLINE
  }

  /** The fenced Java block holding a signature, always written. */
  function Signature(signature: Text): Text {
    FENCE_OPEN + signature + NEWLINE + FENCE_CLOSE
  }

  function ConstructorBlock(c: ConstructorDoc): Text {
    Signature(c.signature) + Labelled([], c.description) + ParametersPart(c.parameters)
  }

  function MethodHeading(name: Text): Text {
    Str("#### ") + name + PARAGRAPH_END
  }

  function MethodBlock(m: MethodDoc): Text {
    MethodHeading(m.name) + Signature(m.signature) + Labelled([], m.description)
      + ParametersPart(m.parameters)
      + Labelled(Str("**Returns:** "), m.returnsDoc)
      + Labelled(Str("**Overrides:** "), m.overrides)
  }

  function ConstructorsPart(cs: seq<ConstructorDoc>): Text {
    if cs == [] then [] else Str("### Constructors\n\n") + Each(cs, ConstructorBlock)
  }

  function MethodsPart(ms: seq<MethodDoc>): Text {
    if ms == [] then [] else Str("### Methods\n\n") + Each(ms, MethodBlock)
  }

  function Fields(doc: ClassDoc): Text {
    Labelled(Str("**Package:** "), doc.package) + InheritancePart(doc.inheritance)
      + DescriptionPart(doc.description) + ConstructorsPart(doc.constructors)
      + MethodsPart(doc.methods)
  }

  function ClassHeading(name: Text): Text {
    Str("## Class ") + name + PARAGRAPH_END
  }

  function ClassSection(c: ClassEntry): Text {
    ClassHeading(c.name) + Fields(c.documentation) + CLASS_END
  }

  function PackageHeading(name: Text): Text {
    Str("# Package ") + name + PARAGRAPH_END
  }

  function PackageSection(p: Package): Text {
    PackageHeading(p.name) + Each(p.classes, ClassSection)
  }

  function Body(d: Documentation): Text {
    Each(d, PackageSection)
  }

  /** The whole file. */
  function Markdown(d: Documentation): (r: Text)
    ensures |HEADER| <= |r| && r[..|HEADER|] == HEADER
  {
    HEADER + Toc(d) + RULE + Body(d)
  }

  // ---------------------------------------------------------------------
  // The writer, loop by loop

  /** The table-of-contents lines of one package (scraper.py:310-313). */
  method WriteTocEntry(p: Package) returns (out: Text)
    ensures out == TocEntry(p)
  {
    var line := TocClassLineIn(p.name);
    var lines: Text := [];
    for j := 0 to |p.classes|
      invariant lines == Each(p.classes[..j], line)
    {
      lines := lines + TocClassLine(p.name, p.classes[j].name);
      EachSnoc(p.classes, j, line);
    }
    PrefixAll(p.classes);
    out := TocPackageLine(p.name) + lines;
  }

  /** The table of contents, package by package (scraper.py:309-313). */
  method WriteToc(d: Documentation) returns (out: Text)
    ensures out == Toc(d)
  {
    out := [];
    for k := 0 to |d|
      invariant out == Each(d[..k], TocEntry)
    {
      var entry := WriteTocEntry(d[k]);
      out := out + entry;
      EachSnoc(d, k, TocEntry);
    }
    PrefixAll(d);
  }

  /** One package's heading and class sections (scraper.py:318-381). */
  method WritePackage(p: Package) returns (out: Text)
    ensures out == PackageSection(p)
  {
    var sections: Text := [];
    for j := 0 to |p.classes|
      invariant sections == Each(p.classes[..j], ClassSection)
    {
      sections := sections + ClassSection(p.classes[j]);
      EachSnoc(p.classes, j, ClassSection);
    }
    PrefixAll(p.classes);
    out := PackageHeading(p.name) + sections;
  }

  /** The body, package by package (scraper.py:317-381). */
  method WriteBody(d: Documentation) returns (out: Text)
    ensures out == Body(d)
  {
    out := [];
    for k := 0 to |d|
      invariant out == Each(d[..k], PackageSection)
    {
      var section := WritePackage(d[k]);
      out := out + section;
      EachSnoc(d, k, PackageSection);
    }
    PrefixAll(d);
  }

  /** What the file receives: the whole Markdown when UTF-8 can encode it,
      and `None` when a write raises `UnicodeEncodeError`. */
  function Written(d: Documentation): (r: Option<Text>)
    ensures r.Some? ==> r.value == Markdown(d) && NoSurrogate(r.value)
  {
    if NoSurrogate(Markdown(d)) then Some(Markdown(d)) else None
  }

  /** Writes the header, the table of contents, the rule and the body in
      the order the source does; the written text is exactly `Markdown(d)`,
      and the write fails when that text holds a lone surrogate. */
  method SaveMarkdown(d: Documentation) returns (r: Option<Text>)
    ensures r == Written(d)
  {
    var toc := WriteToc(d);
    var body := WriteBody(d);
    var out := HEADER + toc + RULE + body;
    if NoSurrogate(out) {
      r := Some(out);
    } else {
      r := None;
    }
  }

  // ---------------------------------------------------------------------
  // Properties

  lemma InfixMiddle(a: Text, x: Text, b: Text)
    ensures Infix(x, a + x + b)
  {
    assert (a + x + b)[|a|..|a| + |x|] == x;
    assert OccursAt(a + x + b, x, |a|);
  }

  lemma InfixTrans(x: Text, y: Text, z: Text)
    requires Infix(x, y) && Infix(y, z)
    ensures Infix(x, z)
  {
    var i :| OccursAt(y, x, i);
    var j :| OccursAt(z, y, j);
    SliceOfSlice(z, j, |y|, i, |x|);
    assert OccursAt(z, x, j + i);
  }

  lemma InfixStart(x: Text, b: Text)
    ensures Infix(x, x + b)
  {
    InfixMiddle([], x, b);
    assert [] + x + b == x + b;
  }

  lemma InfixEnd(a: Text, x: Text)
    ensures Infix(x, a + x)
  {
    InfixMiddle(a, x, []);
    assert a + x + [] == a + x;
  }

  /** The piece written for an element is part of what the loop writes. */
  lemma EachInfix<T>(xs: seq<T>, k: nat, f: T -> Text)
    requires k < |xs|
    ensures Infix(f(xs[k]), Each(xs, f))
  {
    EachSplit(xs, k, f);
    InfixMiddle(Each(xs[..k], f), f(xs[k]), Each(xs[k + 1..], f));
  }

  /** Packages keep the dictionary's insertion order, in both the table of
      contents and the body: the file for two runs of packages is the file
      for the first followed, section by section, by that of the second. */
  lemma PackageOrder(a: Documentation, b: Documentation)
    ensures Toc(a + b) == Toc(a) + Toc(b)
    ensures Body(a + b) == Body(a) + Body(b)
  {
    EachAppend(a, b, TocEntry);
    EachAppend(a, b, PackageSection);
  }

  /** Classes keep the order of their package's list in the body... */
  lemma ClassOrder(name: Text, a: seq<ClassEntry>, b: seq<ClassEntry>)
    ensures PackageSection(Package(name, a + b))
      == PackageSection(Package(name, a)) + Each(b, ClassSection)
  {
    var h := PackageHeading(name);
    EachAppend(a, b, ClassSection);
    assert h + (Each(a, ClassSection) + Each(b, ClassSection))
      == h + Each(a, ClassSection) + Each(b, ClassSection);
  }

  /** ...and in the table of contents. */
  lemma TocClassOrder(name: Text, a: seq<ClassEntry>, b: seq<ClassEntry>)
    ensures TocEntry(Package(name, a + b))
      == TocEntry(Package(name, a)) + Each(b, TocClassLineIn(name))
  {
    var l := TocPackageLine(name);
    var f := TocClassLineIn(name);
    EachAppend(a, b, f);
    assert l + (Each(a, f) + Each(b, f)) == l + Each(a, f) + Each(b, f);
  }

  /** Every package gets a table-of-contents line and a heading. */
  lemma PackageListed(d: Documentation, k: nat)
    requires k < |d|
    ensures Infix(TocPackageLine(d[k].name), Markdown(d))
    ensures Infix(PackageHeading(d[k].name), Markdown(d))
  {
    var p := d[k];
    InfixStart(TocPackageLine(p.name), Each(p.classes, TocClassLineIn(p.name)));
    EachInfix(d, k, TocEntry);
    InfixTrans(TocPackageLine(p.name), TocEntry(p), Toc(d));
    InfixMiddle(HEADER, Toc(d), RULE + Body(d));
    assert Markdown(d) == HEADER + Toc(d) + (RULE + Body(d));
    InfixTrans(TocPackageLine(p.name), Toc(d), Markdown(d));
    InfixStart(PackageHeading(p.name), Each(p.classes, ClassSection));
    EachInfix(d, k, PackageSection);
    InfixTrans(PackageHeading(p.name), PackageSection(p), Body(d));
    InfixEnd(HEADER + Toc(d) + RULE, Body(d));
    InfixTrans(PackageHeading(p.name), Body(d), Markdown(d));
  }

  /** Every class of every package gets a table-of-contents line carrying
      its anchor, and a section of its own. */
  lemma ClassListed(d: Documentation, k: nat, j: nat)
    requires k < |d| && j < |d[k].classes|
    ensures Infix(TocClassLine(d[k].name, d[k].classes[j].name), Markdown(d))
    ensures Infix(ClassSection(d[k].classes[j]), Markdown(d))
  {
    var p := d[k];
    var line := TocClassLine(p.name, p.classes[j].name);
    EachInfix(p.classes, j, TocClassLineIn(p.name));
    InfixEnd(TocPackageLine(p.name), Each(p.classes, TocClassLineIn(p.name)));
    InfixTrans(line, Each(p.classes, TocClassLineIn(p.name)), TocEntry(p));
    EachInfix(d, k, TocEntry);
    InfixTrans(line, TocEntry(p), Toc(d));
    InfixMiddle(HEADER, Toc(d), RULE + Body(d));
    assert Markdown(d) == HEADER + Toc(d) + (RULE + Body(d));
    InfixTrans(line, Toc(d), Markdown(d));
    var section := ClassSection(p.classes[j]);
    EachInfix(p.classes, j, ClassSection);
    InfixEnd(PackageHeading(p.name), Each(p.classes, ClassSection));
    InfixTrans(section, Each(p.classes, ClassSection), PackageSection(p));
    EachInfix(d, k, PackageSection);
    InfixTrans(section, PackageSection(p), Body(d));
    InfixEnd(HEADER + Toc(d) + RULE, Body(d));
    InfixTrans(section, Body(d), Markdown(d));
  }

  /** A class section opens with its heading and closes with the rule. */
  lemma ClassSectionShape(c: ClassEntry)
    ensures var s := ClassSection(c);
      |ClassHeading(c.name)| + |CLASS_END| <= |s|
      && s[..|ClassHeading(c.name)|] == ClassHeading(c.name)
      && s[|s| - |CLASS_END|..] == CLASS_END
  {
  }

  /** Each optional part of a class section is left out exactly when its
      field is empty. */
  lemma FieldsOmitted(doc: ClassDoc)
    ensures Labelled(Str("**Package:** "), doc.package) == [] <==> doc.package == []
    ensures InheritancePart(doc.inheritance) == [] <==> doc.inheritance == []
    ensures DescriptionPart(doc.description) == [] <==> doc.description == []
    ensures ConstructorsPart(doc.constructors) == [] <==> doc.constructors == []
    ensures MethodsPart(doc.methods) == [] <==> doc.methods == []
  {
    assert |Str("**Package:** ")| > 0;
    assert |Str("**Inheritance:**\n\n")| > 0;
    assert |Str("### Description\n\n")| > 0;
    assert |Str("### Constructors\n\n")| > 0;
    assert |Str("### Methods\n\n")| > 0;
  }

  /** A method block always starts with its heading and its signature,
      even when both are empty, and carries the return and override lines
      exactly when those fields are set. */
  lemma MethodBlockShape(m: MethodDoc)
    ensures var h := MethodHeading(m.name) + Signature(m.signature);
      |h| <= |MethodBlock(m)| && MethodBlock(m)[..|h|] == h
    ensures Labelled(Str("**Returns:** "), m.returnsDoc) == [] <==> m.returnsDoc == []
    ensures Labelled(Str("**Overrides:** "), m.overrides) == [] <==> m.overrides == []
    ensures ParametersPart(m.parameters) == [] <==> m.parameters == []
  {
    assert |Str("**Returns:** ")| > 0;
    assert |Str("**Overrides:** ")| > 0;
    assert |Str("**Parameters:**\n\n")| > 0;
    var h := MethodHeading(m.name) + Signature(m.signature);
    var rest := Labelled([], m.description) + ParametersPart(m.parameters)
      + Labelled(Str("**Returns:** "), m.returnsDoc)
      + Labelled(Str("**Overrides:** "), m.overrides);
    assert MethodBlock(m) == h + rest;
  }

  /** A constructor block always starts with its fenced signature, even an
      empty one, and carries the description and the parameter list exactly
      when those fields are set. */
  lemma ConstructorBlockShape(c: ConstructorDoc)
    ensures var h := Signature(c.signature);
      |h| <= |ConstructorBlock(c)| && ConstructorBlock(c)[..|h|] == h
    ensures Labelled([], c.description) == [] <==> c.description == []
    ensures ParametersPart(c.parameters) == [] <==> c.parameters == []
  {
    assert |Str("**Parameters:**\n\n")| > 0;
    var h := Signature(c.signature);
    var rest := Labelled([], c.description) + ParametersPart(c.parameters);
    assert ConstructorBlock(c) == h + rest;
  }

  /** Every parameter gets its own bullet line. */
  lemma ParametersListed(ps: seq<Text>, k: nat)
    requires k < |ps|
    ensures Infix(ParameterLine(ps[k]), ParametersPart(ps))
  {
    EachInfix(ps, k, ParameterLine);
    InfixMiddle(Str("**Parameters:**\n\n"), Each(ps, ParameterLine), NEWLINE);
    InfixTrans(ParameterLine(ps[k]), Each(ps, ParameterLine), ParametersPart(ps));
  }

  /** A package anchor holds no dot and no upper-case letter, and so is its
      own anchor. */
  lemma PackageAnchorSpec(name: Text)
    ensures DOT !in PackageAnchor(name)
    ensures forall k :: 0 <= k < |PackageAnchor(name)| ==> !IsUpperAscii(PackageAnchor(name)[k])
    ensures PackageAnchor(PackageAnchor(name)) == PackageAnchor(name)
  {
    var a := PackageAnchor(name);
    RemoveDotsKeeps(Lower(name));
    LowerOfLower(a);
    RemoveDotsOfFree(a);
  }

  /** A class anchor is its package's anchor, a hyphen and the lower-cased
      class name; class names that differ in more than letter case give
      different anchors within one package. */
  lemma ClassAnchorSpec(package: Text, a: Text, b: Text)
    ensures var pa := PackageAnchor(package);
      |pa| < |ClassAnchor(package, a)| && ClassAnchor(package, a)[..|pa| + 1] == pa + [HYPHEN]
    ensures ClassAnchor(package, a) == ClassAnchor(package, b) ==> Lower(a) == Lower(b)
  {
    var pa := PackageAnchor(package);
    if ClassAnchor(package, a) == ClassAnchor(package, b) {
      assert Lower(a) == ClassAnchor(package, a)[|pa| + 1..];
      assert Lower(b) == ClassAnchor(package, b)[|pa| + 1..];
    }
  }

  // ---------------------------------------------------------------------
  // What UTF-8 can encode

  /** The loop's text can be encoded exactly when every piece can. */
  lemma EachEncodable<T>(xs: seq<T>, f: T -> Text)
    ensures NoSurrogate(Each(xs, f)) <==> forall k :: 0 <= k < |xs| ==> NoSurrogate(f(xs[k]))
  {
    if forall k :: 0 <= k < |xs| ==> NoSurrogate(f(xs[k])) {
      var parts := Pieces(xs, f);
      var ok := (c: CodePoint) => !IsSurrogate(c);
      forall k, x | 0 <= k < |parts| && x in parts[k] ensures ok(x) {
        assert parts[k] == f(xs[k]);
        var i :| 0 <= i < |parts[k]| && parts[k][i] == x;
      }
      ConcatKeeps(parts, ok);
    }
    if NoSurrogate(Each(xs, f)) {
      forall k | 0 <= k < |xs| ensures NoSurrogate(f(xs[k])) {
        EachInfix(xs, k, f);
        InfixKeeps(f(xs[k]), Each(xs, f));
      }
    }
  }

  lemma AnchorEncodable(name: Text)
    requires NoSurrogate(name)
    ensures NoSurrogate(PackageAnchor(name))
  {
    var l := Lower(name);
    var a := RemoveDots(l);
    RemoveDotsFrom(l);
    forall k | 0 <= k < |a| ensures !IsSurrogate(a[k]) {
      assert a[k] in l;
    }
  }

  lemma ConstantsEncodable()
    ensures NoSurrogate(HEADER) && NoSurrogate(RULE) && NoSurrogate(CLASS_END)
    ensures NoSurrogate(FENCE_OPEN) && NoSurrogate(FENCE_CLOSE) && NoSurrogate(PARAGRAPH_END)
    ensures NoSurrogate(NEWLINE)
  {
    StrEncodable("# ELO Javadoc Documentation\n\n");
    StrEncodable("## Table of Contents\n\n");
    NoSurrogateAppend(TITLE, TOC_HEADING);
    StrEncodable("\n---\n\n");
    StrEncodable("---\n\n");
    StrEncodable("```java\n");
    StrEncodable("```\n\n");
    StrEncodable("\n\n");
  }

  lemma TocPackageLineEncodable(name: Text)
    ensures NoSurrogate(TocPackageLine(name)) <==> NoSurrogate(name)
  {
    var a, b, c := Str("- ["), Str("](#"), Str(")\n");
    StrEncodable("- [");
    StrEncodable("](#");
    StrEncodable(")\n");
    NoSurrogateAppend(a, name);
    NoSurrogateAppend(a + name, b);
    NoSurrogateAppend(a + name + b, PackageAnchor(name));
    NoSurrogateAppend(a + name + b + PackageAnchor(name), c);
    if NoSurrogate(name) {
      AnchorEncodable(name);
    }
  }

  lemma TocClassLineEncodable(package: Text, name: Text)
    requires NoSurrogate(package)
    ensures NoSurrogate(TocClassLine(package, name)) <==> NoSurrogate(name)
  {
    var a, b, c := Str("  - ["), Str("](#"), Str(")\n");
    StrEncodable("  - [");
    StrEncodable("](#");
    StrEncodable(")\n");
    AnchorEncodable(package);
    var pa := PackageAnchor(package);
    NoSurrogateAppend(pa, [HYPHEN]);
    NoSurrogateAppend(pa + [HYPHEN], Lower(name));
    LowerEncodable(name);
    var anchor := ClassAnchor(package, name);
    NoSurrogateAppend(a, name);
    NoSurrogateAppend(a + name, b);
    NoSurrogateAppend(a + name + b, anchor);
    NoSurrogateAppend(a + name + b + anchor, c);
  }

  /** A package's table-of-contents lines can be encoded exactly when its
      name and its class names can. */
  lemma TocEntryEncodable(p: Package)
    ensures NoSurrogate(TocEntry(p)) <==> NamesEncodable(p)
  {
    var f := TocClassLineIn(p.name);
    TocPackageLineEncodable(p.name);
    NoSurrogateAppend(TocPackageLine(p.name), Each(p.classes, f));
    EachEncodable(p.classes, f);
    if NoSurrogate(p.name) {
      forall j | 0 <= j < |p.classes|
        ensures NoSurrogate(f(p.classes[j])) <==> NoSurrogate(p.classes[j].name)
      {
        TocClassLineEncodable(p.name, p.classes[j].name);
      }
    }
  }

  lemma TocEncodable(d: Documentation)
    ensures NoSurrogate(Toc(d)) <==> forall k :: 0 <= k < |d| ==> NamesEncodable(d[k])
  {
    EachEncodable(d, TocEntry);
    forall k | 0 <= k < |d| ensures NoSurrogate(TocEntry(d[k])) <==> NamesEncodable(d[k]) {
      TocEntryEncodable(d[k]);
    }
  }

  lemma LabelledEncodable(marker: Text, value: Text)
    requires NoSurrogate(marker) && NoSurrogate(value)
    ensures NoSurrogate(Labelled(marker, value))
  {
    ConstantsEncodable();
    NoSurrogateAppend(marker, value);
    NoSurrogateAppend(marker + value, PARAGRAPH_END);
  }

  lemma ParametersPartEncodable(ps: seq<Text>)
    requires AllEncodable(ps)
    ensures NoSurrogate(ParametersPart(ps))
  {
    ConstantsEncodable();
    var a := Str("**Parameters:**\n\n");
    StrEncodable("**Parameters:**\n\n");
    StrEncodable("- ");
    forall k | 0 <= k < |ps| ensures NoSurrogate(ParameterLine(ps[k])) {
      NoSurrogateAppend(Str("- "), ps[k]);
      NoSurrogateAppend(Str("- ") + ps[k], NEWLINE);
    }
    EachEncodable(ps, ParameterLine);
    NoSurrogateAppend(a, Each(ps, ParameterLine));
    NoSurrogateAppend(a + Each(ps, ParameterLine), NEWLINE);
  }

  lemma SignatureEncodable(signature: Text)
    requires NoSurrogate(signature)
    ensures NoSurrogate(Signature(signature))
  {
    ConstantsEncodable();
    NoSurrogateAppend(FENCE_OPEN, signature);
    NoSurrogateAppend(FENCE_OPEN + signature, NEWLINE);
    NoSurrogateAppend(FENCE_OPEN + signature + NEWLINE, FENCE_CLOSE);
  }

  lemma ConstructorBlockEncodable(c: ConstructorDoc)
    requires ConstructorEncodable(c)
    ensures NoSurrogate(ConstructorBlock(c))
  {
    SignatureEncodable(c.signature);
    LabelledEncodable([], c.description);
    ParametersPartEncodable(c.parameters);
    var s, l := Signature(c.signature), Labelled([], c.description);
    NoSurrogateAppend(s, l);
    NoSurrogateAppend(s + l, ParametersPart(c.parameters));
  }

  lemma MethodBlockEncodable(m: MethodDoc)
    requires MethodEncodable(m)
    ensures NoSurrogate(MethodBlock(m))
  {
    ConstantsEncodable();
    StrEncodable("#### ");
    StrEncodable("**Returns:** ");
    StrEncodable("**Overrides:** ");
    var h := MethodHeading(m.name);
    NoSurrogateAppend(Str("#### "), m.name);
    NoSurrogateAppend(Str("#### ") + m.name, PARAGRAPH_END);
    var s := Signature(m.signature);
    SignatureEncodable(m.signature);
    var l := Labelled([], m.description);
    LabelledEncodable([], m.description);
    var ps := ParametersPart(m.parameters);
    ParametersPartEncodable(m.parameters);
    var rd := Labelled(Str("**Returns:** "), m.returnsDoc);
    LabelledEncodable(Str("**Returns:** "), m.returnsDoc);
    var ov := Labelled(Str("**Overrides:** "), m.overrides);
    LabelledEncodable(Str("**Overrides:** "), m.overrides);
    NoSurrogateAppend(h, s);
    NoSurrogateAppend(h + s, l);
    NoSurrogateAppend(h + s + l, ps);
    NoSurrogateAppend(h + s + l + ps, rd);
    NoSurrogateAppend(h + s + l + ps + rd, ov);
  }

  lemma FieldsEncodable(doc: ClassDoc)
    requires Encodable(doc)
    ensures NoSurrogate(Fields(doc))
  {
    ConstantsEncodable();
    var pk := Labelled(Str("**Package:** "), doc.package);
    StrEncodable("**Package:** ");
    LabelledEncodable(Str("**Package:** "), doc.package);
    var ih := InheritancePart(doc.inheritance);
    StrEncodable("**Inheritance:**\n\n");
    LabelledEncodable(Str("**Inheritance:**\n\n"), doc.inheritance);
    var ds := DescriptionPart(doc.description);
    StrEncodable("### Description\n\n");
    LabelledEncodable(Str("### Description\n\n"), doc.description);
    var cs := ConstructorsPart(doc.constructors);
    ConstructorsPartEncodable(doc.constructors);
    var ms := MethodsPart(doc.methods);
    MethodsPartEncodable(doc.methods);
    NoSurrogateAppend(pk, ih);
    NoSurrogateAppend(pk + ih, ds);
    NoSurrogateAppend(pk + ih + ds, cs);
    NoSurrogateAppend(pk + ih + ds + cs, ms);
  }

  lemma ConstructorsPartEncodable(cs: seq<ConstructorDoc>)
    requires forall k :: 0 <= k < |cs| ==> ConstructorEncodable(cs[k])
    ensures NoSurrogate(ConstructorsPart(cs))
  {
    StrEncodable("### Constructors\n\n");
    forall k | 0 <= k < |cs| ensures NoSurrogate(ConstructorBlock(cs[k])) {
      ConstructorBlockEncodable(cs[k]);
    }
    EachEncodable(cs, ConstructorBlock);
    NoSurrogateAppend(Str("### Constructors\n\n"), Each(cs, ConstructorBlock));
  }

  lemma MethodsPartEncodable(ms: seq<MethodDoc>)
    requires forall k :: 0 <= k < |ms| ==> MethodEncodable(ms[k])
    ensures NoSurrogate(MethodsPart(ms))
  {
    StrEncodable("### Methods\n\n");
    forall k | 0 <= k < |ms| ensures NoSurrogate(MethodBlock(ms[k])) {
      MethodBlockEncodable(ms[k]);
    }
    EachEncodable(ms, MethodBlock);
    NoSurrogateAppend(Str("### Methods\n\n"), Each(ms, MethodBlock));
  }

  lemma ClassSectionEncodable(c: ClassEntry)
    requires Encodable(c.documentation) && NoSurrogate(c.name)
    ensures NoSurrogate(ClassSection(c))
  {
    ConstantsEncodable();
    StrEncodable("## Class ");
    var h := ClassHeading(c.name);
    NoSurrogateAppend(Str("## Class "), c.name);
    NoSurrogateAppend(Str("## Class ") + c.name, PARAGRAPH_END);
    FieldsEncodable(c.documentation);
    NoSurrogateAppend(h, Fields(c.documentation));
    NoSurrogateAppend(h + Fields(c.documentation), CLASS_END);
  }

  lemma PackageSectionEncodable(p: Package)
    requires RecordsEncodable(p) && NamesEncodable(p)
    ensures NoSurrogate(PackageSection(p))
  {
    ConstantsEncodable();
    StrEncodable("# Package ");
    var h := PackageHeading(p.name);
    NoSurrogateAppend(Str("# Package "), p.name);
    NoSurrogateAppend(Str("# Package ") + p.name, PARAGRAPH_END);
    forall j | 0 <= j < |p.classes| ensures NoSurrogate(ClassSection(p.classes[j])) {
      ClassSectionEncodable(p.classes[j]);
    }
    EachEncodable(p.classes, ClassSection);
    NoSurrogateAppend(h, Each(p.classes, ClassSection));
  }

  lemma BodyEncodable(d: Documentation)
    requires forall k :: 0 <= k < |d| ==> RecordsEncodable(d[k]) && NamesEncodable(d[k])
    ensures NoSurrogate(Body(d))
  {
    forall k | 0 <= k < |d| ensures NoSurrogate(PackageSection(d[k])) {
      PackageSectionEncodable(d[k]);
    }
    EachEncodable(d, PackageSection);
  }

  /** Every field of the records is cleaned, so the file can be written
      exactly when no package name and no class name, the two texts taken
      from the pages without cleaning, holds a lone surrogate. */
  lemma MarkdownEncodable(d: Documentation)
    requires forall k :: 0 <= k < |d| ==> RecordsEncodable(d[k])
    ensures Written(d).Some? <==> forall k :: 0 <= k < |d| ==> NamesEncodable(d[k])
  {
    ConstantsEncodable();
    TocEncodable(d);
    var t := Toc(d);
    NoSurrogateAppend(HEADER, t);
    NoSurrogateAppend(HEADER + t, RULE);
    NoSurrogateAppend(HEADER + t + RULE, Body(d));
    if forall k :: 0 <= k < |d| ==> NamesEncodable(d[k]) {
      BodyEncodable(d);
    }
  }
}
