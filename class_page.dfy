/** `scrape_class_doc` (scraper.py:44-152): the record of one class page.
    Every field starts at its empty default and is only filled when the
    element it comes from is found. */
module ClassPage {
  import opened Wrappers
  import opened Texts
  import opened Html
  import opened Fetch
  import opened Seqs

  datatype ConstructorDoc = ConstructorDoc(signature: Text, description: Text, parameters: seq<Text>)

  datatype MethodDoc = MethodDoc(name: Text, signature: Text, description: Text, parameters: seq<Text>,
                                 returnsDoc: Text, overrides: Text)

  datatype ClassDoc = ClassDoc(description: Text, inheritance: Text, constructors: seq<ConstructorDoc>,
                               methods: seq<MethodDoc>, package: Text)

  /** Every text is one UTF-8 can encode. */
  predicate AllEncodable(ts: seq<Text>) {
    forall k :: 0 <= k < |ts| ==> NoSurrogate(ts[k])
  }

  predicate ConstructorEncodable(c: ConstructorDoc) {
    NoSurrogate(c.signature) && NoSurrogate(c.description) && AllEncodable(c.parameters)
  }

  predicate MethodEncodable(m: MethodDoc) {
    && NoSurrogate(m.name) && NoSurrogate(m.signature) && NoSurrogate(m.description)
    && AllEncodable(m.parameters) && NoSurrogate(m.returnsDoc) && NoSurrogate(m.overrides)
  }

  /** No field of the record holds a lone surrogate. */
  predicate Encodable(doc: ClassDoc) {
    && NoSurrogate(doc.description) && NoSurrogate(doc.inheritance) && NoSurrogate(doc.package)
    && (forall k :: 0 <= k < |doc.constructors| ==> ConstructorEncodable(doc.constructors[k]))
    && (forall k :: 0 <= k < |doc.methods| ==> MethodEncodable(doc.methods[k]))
  }

  const SUB_TITLE: Selector := TagClass(Str("div"), Str("sub-title"))
  const INHERITANCE: Selector := TagClass(Str("div"), Str("inheritance"))
  const BLOCK: Selector := TagClass(Str("div"), Str("block"))
  const CONSTRUCTOR_DETAILS: Selector := TagClass(Str("section"), Str("constructor-details"))
  const METHOD_DETAILS: Selector := TagClass(Str("section"), Str("method-details"))
  const DETAIL: Selector := TagClass(Str("section"), Str("detail"))
  const SIGNATURE: Selector := TagClass(Str("div"), Str("member-signature"))
  const HEADING: Selector := Tag(Str("h3"))
  const DD: Selector := Tag(Str("dd"))
  const RETURNS_LABEL: Selector := TagString(Str("span"), Str("Returns:"))
  const OVERRIDES_LABEL: Selector := TagString(Str("span"), Str("Overrides:"))

  // ---------------------------------------------------------------------
  // The record as a function of the page

  /** The cleaned text of each element of `ids`. */
  function CleanAll(page: Node, ids: seq<nat>): (r: seq<Text>)
    requires OnPage(page, ids)
    ensures |r| == |ids| && forall k :: 0 <= k < |ids| ==> r[k] == Clean(page, ids[k])
  {
    seq(|ids|, k requires 0 <= k < |ids| => Clean(page, ids[k]))
  }

  /** The texts that are not empty, in their order: the `if text:` filter of
      scraper.py:102 and 137. */
  function NonEmpty(ts: seq<Text>): (r: seq<Text>)
    ensures |r| <= |ts|
    ensures forall k :: 0 <= k < |r| ==> r[k] != []
  {
    if ts == [] then []
    else NonEmpty(ts[..|ts| - 1]) + (if ts[|ts| - 1] == [] then [] else [ts[|ts| - 1]])
  }

  /** `parameters`: every `dd` below element `i`, cleaned, empties dropped
      (scraper.py:99-103 and 134-138). */
  function Parameters(page: Node, i: nat): seq<Text>
    requires i < |Flat(page)|
  {
    NonEmpty(CleanAll(page, FindAll(page, i, DD)))
  }

  function ConstructorOf(page: Node, c: nat): ConstructorDoc
    requires c < |Flat(page)|
  {
    ConstructorDoc(FieldText(page, c, SIGNATURE), FieldText(page, c, BLOCK), Parameters(page, c))
  }

  /** `returns`/`overrides`: the first `dd` after the first span labelled
      `marker`, searched in the rest of the whole page (scraper.py:141-148). */
  function LabelledField(page: Node, m: nat, marker: Selector): Text
    requires m < |Flat(page)|
  {
    match Find(page, m, marker)
    case None => []
    case Some(s) =>
      match FindNext(page, s, DD)
      case None => []
      case Some(d) => Clean(page, d)
  }

  function MethodOf(page: Node, m: nat): MethodDoc
    requires m < |Flat(page)|
  {
    var name := if Find(page, m, SIGNATURE).Some? then FieldText(page, m, HEADING) else [];
    MethodDoc(name, FieldText(page, m, SIGNATURE), FieldText(page, m, BLOCK), Parameters(page, m),
              LabelledField(page, m, RETURNS_LABEL), LabelledField(page, m, OVERRIDES_LABEL))
  }

  /** The `section.detail` elements of the first `section` matching `kind`. */
  function Details(page: Node, kind: Selector): (r: seq<nat>)
    ensures OnPage(page, r)
  {
    match Find(page, 0, kind)
    case None => []
    case Some(s) => FindAll(page, s, DETAIL)
  }

  function ConstructorsOf(page: Node, ids: seq<nat>): (r: seq<ConstructorDoc>)
    requires OnPage(page, ids)
    ensures |r| == |ids| && forall k :: 0 <= k < |ids| ==> r[k] == ConstructorOf(page, ids[k])
  {
    seq(|ids|, k requires 0 <= k < |ids| => ConstructorOf(page, ids[k]))
  }

  function MethodsOf(page: Node, ids: seq<nat>): (r: seq<MethodDoc>)
    requires OnPage(page, ids)
    ensures |r| == |ids| && forall k :: 0 <= k < |ids| ==> r[k] == MethodOf(page, ids[k])
  {
    seq(|ids|, k requires 0 <= k < |ids| => MethodOf(page, ids[k]))
  }

  /** `package`: the text of the first link in the first `div.sub-title`. */
  function PackageField(page: Node): Text {
    match Find(page, 0, SUB_TITLE)
    case None => []
    case Some(d) => FieldText(page, d, ANCHOR)
  }

  /** The record `scrape_class_doc` builds from a fetched page. */
  function ClassOf(page: Node): ClassDoc {
    ClassDoc(FieldText(page, 0, BLOCK), FieldText(page, 0, INHERITANCE),
             ConstructorsOf(page, Details(page, CONSTRUCTOR_DETAILS)),
             MethodsOf(page, Details(page, METHOD_DETAILS)), PackageField(page))
  }

  /** `scrape_class_doc(session, url)`: `None` when the fetch fails. */
  function ClassDocAt(web: Web, url: Url): Option<ClassDoc> {
    match web.fetch(url)
    case None => None
    case Some(page) => Some(ClassOf(page))
  }

  // ---------------------------------------------------------------------
  // The scraper's loops

  /** scraper.py:99-103 (and 134-138): append the cleaned text of every `dd`
      that is not empty. */
  method ScrapeParameters(page: Node, i: nat) returns (params: seq<Text>)
    requires i < |Flat(page)|
    ensures params == Parameters(page, i)
  {
    var dds := FindAll(page, i, DD);
    ghost var texts := CleanAll(page, dds);
    params := [];
    for k := 0 to |dds|
      invariant params == NonEmpty(texts[..k])
    {
      var text := Clean(page, dds[k]);
      PrefixSnoc(texts, k);
      NonEmptySnoc(texts[..k], text);
      if text != [] {
        params := params + [text];
      }
    }
    PrefixAll(texts);
  }

  /** The pattern of every optional field: find, and clean what was found. */
  method ScrapeField(page: Node, i: nat, sel: Selector) returns (t: Text)
    requires i < |Flat(page)|
    ensures t == FieldText(page, i, sel)
  {
    t := [];
    var found := Find(page, i, sel);
    if found.Some? {
      t := Clean(page, found.value);
    }
  }

  /** scraper.py:141-148: the `dd` that follows a labelled span. */
  method ScrapeLabelled(page: Node, m: nat, marker: Selector) returns (t: Text)
    requires m < |Flat(page)|
    ensures t == LabelledField(page, m, marker)
  {
    t := [];
    var span := Find(page, m, marker);
    if span.Some? && FindNext(page, span.value, DD).Some? {
      t := Clean(page, FindNext(page, span.value, DD).value);
    }
  }

  /** scraper.py:82-105, one constructor. */
  method ScrapeConstructor(page: Node, c: nat) returns (info: ConstructorDoc)
    requires c < |Flat(page)|
    ensures info == ConstructorOf(page, c)
  {
    var signature := ScrapeField(page, c, SIGNATURE);
    var description := ScrapeField(page, c, BLOCK);
    var params := ScrapeParameters(page, c);
    info := ConstructorDoc(signature, description, params);
  }

  /** scraper.py:111-150, one method. */
  method ScrapeMethod(page: Node, m: nat) returns (info: MethodDoc)
    requires m < |Flat(page)|
    ensures info == MethodOf(page, m)
  {
    var signature: Text, name: Text := [], [];
    var found := Find(page, m, SIGNATURE);
    if found.Some? {
      signature := Clean(page, found.value);
      name := ScrapeField(page, m, HEADING);
    }
    var description := ScrapeField(page, m, BLOCK);
    var params := ScrapeParameters(page, m);
    var returnsDoc := ScrapeLabelled(page, m, RETURNS_LABEL);
    var overrides := ScrapeLabelled(page, m, OVERRIDES_LABEL);
    info := MethodDoc(name, signature, description, params, returnsDoc, overrides);
  }

  /** scraper.py:44-156. */
  method ScrapeClassDoc(web: Web, url: Url) returns (r: Option<ClassDoc>)
    ensures r == ClassDocAt(web, url)
  {
    var response := web.fetch(url);
    if response.None? {
      return None;
    }
    var page := response.value;
    var package: Text := [];
    var packageDiv := Find(page, 0, SUB_TITLE);
    if packageDiv.Some? {
      package := ScrapeField(page, packageDiv.value, ANCHOR);
    }
    var inheritance := ScrapeField(page, 0, INHERITANCE);
    var description := ScrapeField(page, 0, BLOCK);

    var constructors := ScrapeConstructors(page);
    var methods := ScrapeMethods(page);
    return Some(ClassDoc(description, inheritance, constructors, methods, package));
  }

  /** scraper.py:79-105: every constructor of the constructor section. */
  method ScrapeConstructors(page: Node) returns (constructors: seq<ConstructorDoc>)
    ensures constructors == ConstructorsOf(page, Details(page, CONSTRUCTOR_DETAILS))
  {
    constructors := [];
    var section := Find(page, 0, CONSTRUCTOR_DETAILS);
    if section.Some? {
      var details := FindAll(page, section.value, DETAIL);
      ghost var spec := ConstructorsOf(page, details);
      for k := 0 to |details|
        invariant constructors == spec[..k]
      {
        var info := ScrapeConstructor(page, details[k]);
        PrefixSnoc(spec, k);
        constructors := constructors + [info];
      }
      PrefixAll(spec);
    }
  }

  /** scraper.py:108-150: every method of the method section. */
  method ScrapeMethods(page: Node) returns (methods: seq<MethodDoc>)
    ensures methods == MethodsOf(page, Details(page, METHOD_DETAILS))
  {
    methods := [];
    var section := Find(page, 0, METHOD_DETAILS);
    if section.Some? {
      var details := FindAll(page, section.value, DETAIL);
      ghost var spec := MethodsOf(page, details);
      for k := 0 to |details|
        invariant methods == spec[..k]
      {
        var info := ScrapeMethod(page, details[k]);
        PrefixSnoc(spec, k);
        methods := methods + [info];
      }
      PrefixAll(spec);
    }
  }

  lemma NonEmptySnoc(ts: seq<Text>, t: Text)
    ensures NonEmpty(ts + [t]) == NonEmpty(ts) + (if t == [] then [] else [t])
  {
    assert (ts + [t])[..|ts|] == ts;
  }

  // ---------------------------------------------------------------------
  // What the record promises

  /** Every field keeps its empty default when the element it comes from is
      missing from the page. */
  lemma ClassDefaults(page: Node)
    ensures Absent(page, 0, SUB_TITLE) ==> ClassOf(page).package == []
    ensures Absent(page, 0, INHERITANCE) ==> ClassOf(page).inheritance == []
    ensures Absent(page, 0, BLOCK) ==> ClassOf(page).description == []
    ensures Absent(page, 0, CONSTRUCTOR_DETAILS) ==> ClassOf(page).constructors == []
    ensures Absent(page, 0, METHOD_DETAILS) ==> ClassOf(page).methods == []
  {
  }

  /** The class description is the first `div.block` anywhere in the page,
      even one inside a constructor or method section. */
  lemma DescriptionIsFirstBlock(page: Node, j: nat)
    requires 0 < j < |Flat(page)| && Matches(BLOCK, Flat(page)[j])
    requires forall j' :: 0 < j' < j ==> !Matches(BLOCK, Flat(page)[j'])
    ensures ClassOf(page).description == Clean(page, j)
  {
    EndOfRoot(page);
    FieldTextAt(page, 0, BLOCK, j);
  }

  /** A method's name is only taken when it has a `member-signature`. */
  lemma MethodNameNeedsSignature(page: Node, m: nat)
    requires m < |Flat(page)|
    ensures Absent(page, m, SIGNATURE) ==> MethodOf(page, m).name == []
    ensures !Absent(page, m, SIGNATURE) ==> MethodOf(page, m).name == FieldText(page, m, HEADING)
  {
  }

  /** A text is a parameter exactly when it is the non-empty cleaned text of
      a `dd` below the element. */
  lemma ParametersSpec(page: Node, i: nat, t: Text)
    requires i < |Flat(page)|
    ensures t in Parameters(page, i) <==>
            t != [] && exists j :: i < j < End(page, i) && Matches(DD, Flat(page)[j]) && Clean(page, j) == t
  {
    var dds := FindAll(page, i, DD);
    var texts := CleanAll(page, dds);
    NonEmptyIn(texts, t);
    FindAllComplete(page, i, DD);
    if t in Parameters(page, i) {
      var k :| 0 <= k < |texts| && texts[k] == t;
      assert Clean(page, dds[k]) == t;
    }
    if t != [] && exists j :: i < j < End(page, i) && Matches(DD, Flat(page)[j]) && Clean(page, j) == t {
      var j :| i < j < End(page, i) && Matches(DD, Flat(page)[j]) && Clean(page, j) == t;
      assert j in dds;
      var k :| 0 <= k < |dds| && dds[k] == j;
      assert texts[k] == t;
    }
  }

  /** Every parameter is surrogate-free and not empty. */
  lemma ParametersClean(page: Node, i: nat)
    requires i < |Flat(page)|
    ensures forall t :: t in Parameters(page, i) ==> t != [] && NoSurrogate(t)
  {
    forall t | t in Parameters(page, i)
      ensures t != [] && NoSurrogate(t)
    {
      ParametersSpec(page, i, t);
    }
  }

  /** The filter keeps exactly the non-empty texts. */
  lemma {:induction false} NonEmptyIn(ts: seq<Text>, t: Text)
    ensures t in NonEmpty(ts) <==> t != [] && t in ts
  {
    if ts != [] {
      var init := ts[..|ts| - 1];
      var last := ts[|ts| - 1];
      assert ts == init + [last];
      NonEmptyIn(init, t);
    }
  }

  /** Filtering two runs of texts gives the filtered first run followed by
      the filtered second: document order is kept. */
  lemma {:induction false} NonEmptyAppend(a: seq<Text>, b: seq<Text>)
    ensures NonEmpty(a + b) == NonEmpty(a) + NonEmpty(b)
    decreases |b|
  {
    if b == [] {
      assert a + b == a;
    } else {
      var b' := b[..|b| - 1];
      assert (a + b)[..|a + b| - 1] == a + b';
      assert (a + b)[|a + b| - 1] == b[|b| - 1];
      NonEmptyAppend(a, b');
    }
  }

  /** With no span labelled `marker` in the method, or no `dd` anywhere after
      that span, the labelled field stays empty. */
  lemma LabelledFieldEmpty(page: Node, m: nat, marker: Selector)
    requires m < |Flat(page)|
    ensures Absent(page, m, marker) ==> LabelledField(page, m, marker) == []
    ensures Find(page, m, marker).Some? &&
            (forall j :: Find(page, m, marker).value < j < |Flat(page)| ==> !Matches(DD, Flat(page)[j]))
            ==> LabelledField(page, m, marker) == []
  {
  }

  /** With `s` the first span labelled `marker` in the method and `d` the first
      `dd` after it in the page, the field is the cleaned text of `d`; `d` may
      lie beyond the method's own section. */
  lemma LabelledFieldAt(page: Node, m: nat, marker: Selector, s: nat, d: nat)
    requires m < s < |Flat(page)| && s < End(page, m) && Matches(marker, Flat(page)[s])
    requires forall j :: m < j < s ==> !Matches(marker, Flat(page)[j])
    requires s < d < |Flat(page)| && Matches(DD, Flat(page)[d])
    requires forall j :: s < j < d ==> !Matches(DD, Flat(page)[j])
    ensures LabelledField(page, m, marker) == Clean(page, d)
  {
    FindIsFirst(page, m, marker, s);
    FindNextIsFirst(page, s, DD, d);
  }

  /** When the `dd` of a marker lies inside the method's section, its text is
      also one of the method's parameters. */
  lemma LabelledFieldAmongParameters(page: Node, m: nat, marker: Selector, s: nat, d: nat)
    requires m < s < |Flat(page)| && s < End(page, m) && Matches(marker, Flat(page)[s])
    requires forall j :: m < j < s ==> !Matches(marker, Flat(page)[j])
    requires s < d < End(page, m) && Matches(DD, Flat(page)[d])
    requires forall j :: s < j < d ==> !Matches(DD, Flat(page)[j])
    requires Clean(page, d) != []
    ensures LabelledField(page, m, marker) in Parameters(page, m)
  {
    LabelledFieldAt(page, m, marker, s, d);
    ParametersSpec(page, m, Clean(page, d));
  }

  // ---------------------------------------------------------------------
  // Every field is cleaned

  lemma ParametersEncodable(page: Node, i: nat)
    requires i < |Flat(page)|
    ensures AllEncodable(Parameters(page, i))
  {
    ParametersClean(page, i);
    var ps := Parameters(page, i);
    forall k | 0 <= k < |ps| ensures NoSurrogate(ps[k]) {
      assert ps[k] in ps;
    }
  }

  lemma ConstructorOfEncodable(page: Node, c: nat)
    requires c < |Flat(page)|
    ensures ConstructorEncodable(ConstructorOf(page, c))
  {
    ParametersEncodable(page, c);
  }

  lemma MethodOfEncodable(page: Node, m: nat)
    requires m < |Flat(page)|
    ensures MethodEncodable(MethodOf(page, m))
  {
    ParametersEncodable(page, m);
  }

  /** Every text the record holds went through `clean_html`, so the whole
      record can be written as UTF-8. */
  lemma ClassOfEncodable(page: Node)
    ensures Encodable(ClassOf(page))
  {
    var doc := ClassOf(page);
    var cs, ms := Details(page, CONSTRUCTOR_DETAILS), Details(page, METHOD_DETAILS);
    forall k | 0 <= k < |doc.constructors| ensures ConstructorEncodable(doc.constructors[k]) {
      ConstructorOfEncodable(page, cs[k]);
    }
    forall k | 0 <= k < |doc.methods| ensures MethodEncodable(doc.methods[k]) {
      MethodOfEncodable(page, ms[k]);
    }
  }

  lemma ClassDocAtEncodable(web: Web, url: Url)
    ensures ClassDocAt(web, url).Some? ==> Encodable(ClassDocAt(web, url).value)
  {
    if web.fetch(url).Some? {
      ClassOfEncodable(web.fetch(url).value);
    }
  }
}
