/** `scrape_package_doc` (scraper.py:158-237): classify the Javadoc layout of
    a package page, pick its class table, enumerate the class links and
    scrape every class they lead to. */
module PackagePage {
  import opened Wrappers
  import opened Texts
  import opened Html
  import opened Fetch
  import opened ClassPage
  import opened Seqs

  /** The three layouts `get_javadoc_format` tells apart (scraper.py:168-174). */
  datatype Format = Modern | Legacy | Unknown

  /** One entry of a package's class list: the anchor text and the record. */
  datatype ClassEntry = ClassEntry(name: Text, documentation: ClassDoc)

  const SUMMARY: Text := Str("summary")
  const TABLE_TABS: Selector := TagClass(Str("div"), Str("table-tabs"))
  const SUMMARY_TABLE: Selector := TagClass(Str("table"), SUMMARY + Str("-table"))
  const CLASS_SUMMARY: Selector := TagId(Str("div"), Str("class-summary"))
  const SUMMARY_CLASS: Selector := TagClass(Str("table"), SUMMARY)
  const SUMMARY_LIKE: Selector := TagClassContains(Str("table"), SUMMARY)
  const ROW: Selector := Tag(Str("tr"))
  const FIRST_COLUMN: Selector := TagClass(Str("th"), Str("col-first"))

  // ---------------------------------------------------------------------
  // Layout and class table

  /** `get_javadoc_format`: a tabs div means the modern layout, whatever else
      the page holds. */
  function JavadocFormat(page: Node): Format {
    if Find(page, 0, TABLE_TABS).Some? then Modern
    else if Find(page, 0, SUMMARY_TABLE).Some? then Legacy
    else Unknown
  }

  /** `class_table` as bound by scraper.py:176-194: `NameError` when the modern
      layout has no `div#class-summary` (the name is then never bound, and
      line 197 reads it); otherwise the element found, or `None`. Unknown
      layouts take the legacy path. */
  function ClassTable(page: Node): (r: Outcome<Option<nat>>)
    ensures r.Returned? && r.value.Some? ==> 0 < r.value.value < |Flat(page)|
  {
    EndOfRoot(page);
    if JavadocFormat(page) == Modern then
      match Find(page, 0, CLASS_SUMMARY)
      case None => NameError
      case Some(d) => Returned(Some(d))
    else
      match Find(page, 0, SUMMARY_TABLE)
      case Some(t) => Returned(Some(t))
      case None =>
        match Find(page, 0, SUMMARY_CLASS)
        case Some(t) => Returned(Some(t))
        case None => Returned(Find(page, 0, SUMMARY_LIKE))
  }

  // ---------------------------------------------------------------------
  // Class links

  /** The first anchor in the first `th.col-first` of a row. */
  function RowLink(page: Node, row: nat): (r: Option<nat>)
    requires row < |Flat(page)|
    ensures r.Some? ==> r.value < |Flat(page)| && Matches(ANCHOR, Flat(page)[r.value])
  {
    match Find(page, row, FIRST_COLUMN)
    case None => None
    case Some(th) => Find(page, th, ANCHOR)
  }

  /** What one row adds to the links. */
  function RowPart(page: Node, row: nat): seq<nat>
    requires row < |Flat(page)|
  {
    match RowLink(page, row)
    case None => []
    case Some(a) => [a]
  }

  function RowParts(page: Node, rows: seq<nat>): (r: seq<seq<nat>>)
    requires OnPage(page, rows)
    ensures |r| == |rows| && forall k :: 0 <= k < |rows| ==> r[k] == RowPart(page, rows[k])
  {
    seq(|rows|, k requires 0 <= k < |rows| => RowPart(page, rows[k]))
  }

  /** The row links of `rows`, in row order, rows without one skipped. */
  function RowLinks(page: Node, rows: seq<nat>): (r: seq<nat>)
    requires OnPage(page, rows)
    ensures OnPage(page, r)
    ensures forall k :: 0 <= k < |r| ==> Matches(ANCHOR, Flat(page)[r[k]])
  {
    var parts := RowParts(page, rows);
    ConcatKeeps(parts, (j: nat) => j < |Flat(page)| && Matches(ANCHOR, Flat(page)[j]));
    Concat(parts)
  }

  /** The legacy-layout links of the table `t` (scraper.py:207-213). */
  function LegacyLinks(page: Node, t: nat): seq<nat>
    requires t < |Flat(page)|
  {
    RowLinks(page, FindAll(page, t, ROW))
  }

  /** `links` for the table `t` (scraper.py:203-213). */
  function Links(page: Node, t: nat): (r: seq<nat>)
    requires t < |Flat(page)|
    ensures OnPage(page, r)
  {
    if JavadocFormat(page) == Modern then FindAll(page, t, ANCHOR) else LegacyLinks(page, t)
  }

  // ---------------------------------------------------------------------
  // The class list

  /** What one link adds to the class list (scraper.py:216-225): nothing
      without an `href` or when the class page cannot be fetched. */
  function LinkEntry(web: Web, url: Url, page: Node, j: nat): seq<ClassEntry>
    requires j < |Flat(page)|
  {
    var link := Flat(page)[j];
    match link.href
    case None => []
    case Some(href) =>
      match ClassDocAt(web, web.urljoin(url, href))
      case None => []
      case Some(doc) => [ClassEntry(GetText(link), doc)]
  }

  function EntryParts(web: Web, url: Url, page: Node, links: seq<nat>): (r: seq<seq<ClassEntry>>)
    requires OnPage(page, links)
    ensures |r| == |links| && forall k :: 0 <= k < |links| ==> r[k] == LinkEntry(web, url, page, links[k])
  {
    seq(|links|, k requires 0 <= k < |links| => LinkEntry(web, url, page, links[k]))
  }

  /** The class list built from `links`, in link order. */
  function Entries(web: Web, url: Url, page: Node, links: seq<nat>): (r: seq<ClassEntry>)
    requires OnPage(page, links)
    ensures |r| <= |links|
  {
    var parts := EntryParts(web, url, page, links);
    ConcatLength(parts);
    Concat(parts)
  }

  /** `scrape_package_doc` on a fetched page: the class list, `None` when it
      is empty. */
  function PackageDocOf(web: Web, url: Url, page: Node): (r: Outcome<Option<seq<ClassEntry>>>)
    ensures r.Returned? && r.value.Some? ==> r.value.value != []
  {
    match ClassTable(page)
    case NameError => NameError
    case Returned(None) => Returned(None)
    case Returned(Some(t)) =>
      var classes := Entries(web, url, page, Links(page, t));
      Returned(if classes == [] then None else Some(classes))
  }

  /** `scrape_package_doc(session, url)`: `None` when the fetch fails. */
  function PackageDocAt(web: Web, url: Url): (r: Outcome<Option<seq<ClassEntry>>>)
    ensures r.Returned? && r.value.Some? ==> r.value.value != []
  {
    match web.fetch(url)
    case None => Returned(None)
    case Some(page) => PackageDocOf(web, url, page)
  }

  // ---------------------------------------------------------------------
  // The scraper's loops

  /** scraper.py:207-213. */
  method ScrapeLegacyLinks(page: Node, t: nat) returns (links: seq<nat>)
    requires t < |Flat(page)|
    ensures links == LegacyLinks(page, t)
  {
    var rows := FindAll(page, t, ROW);
    ghost var parts := RowParts(page, rows);
    links := [];
    for k := 0 to |rows|
      invariant links == Concat(parts[..k])
    {
      ConcatSnoc(parts, k);
      var firstCol := Find(page, rows[k], FIRST_COLUMN);
      if firstCol.Some? {
        var link := Find(page, firstCol.value, ANCHOR);
        if link.Some? {
          links := links + [link.value];
        }
      }
    }
    PrefixAll(parts);
  }

  /** scraper.py:203-213: the links of the class table `t`. */
  method ScrapeLinks(page: Node, t: nat) returns (links: seq<nat>)
    requires t < |Flat(page)|
    ensures links == Links(page, t)
  {
    if JavadocFormat(page) == Modern {
      links := FindAll(page, t, ANCHOR);
    } else {
      links := ScrapeLegacyLinks(page, t);
    }
  }

  /** scraper.py:216-225: scrape the class behind every link that has an
      `href`, and keep the pages that could be fetched. */
  method ScrapeClasses(web: Web, url: Url, page: Node, links: seq<nat>) returns (classes: seq<ClassEntry>)
    requires OnPage(page, links)
    ensures classes == Entries(web, url, page, links)
  {
    ghost var parts := EntryParts(web, url, page, links);
    classes := [];
    for k := 0 to |links|
      invariant classes == Concat(parts[..k])
    {
      ConcatSnoc(parts, k);
      var classLink := Flat(page)[links[k]];
      if classLink.href.Some? {
        var classUrl := web.urljoin(url, classLink.href.value);
        var classDoc := ScrapeClassDoc(web, classUrl);
        if classDoc.Some? {
          classes := classes + [ClassEntry(GetText(classLink), classDoc.value)];
        }
      }
    }
    PrefixAll(parts);
  }

  /** scraper.py:158-237. */
  method ScrapePackageDoc(web: Web, url: Url) returns (r: Outcome<Option<seq<ClassEntry>>>)
    ensures r == PackageDocAt(web, url)
  {
    var response := web.fetch(url);
    if response.None? {
      return Returned(None);
    }
    var page := response.value;
    var classTable := ClassTable(page);
    if classTable.NameError? {
      return NameError;
    }
    var classes: seq<ClassEntry> := [];
    if classTable.value.Some? {
      var links := ScrapeLinks(page, classTable.value.value);
      classes := ScrapeClasses(web, url, page, links);
    }
    return Returned(if classes == [] then None else Some(classes));
  }

  // ---------------------------------------------------------------------
  // What the classification promises

  /** The layout is modern exactly when a tabs div exists, legacy exactly when
      there is none but a `table.summary-table`, and unknown otherwise. */
  lemma FormatSpec(page: Node)
    ensures JavadocFormat(page) == Modern <==> !Absent(page, 0, TABLE_TABS)
    ensures JavadocFormat(page) == Legacy <==> Absent(page, 0, TABLE_TABS) && !Absent(page, 0, SUMMARY_TABLE)
    ensures JavadocFormat(page) == Unknown <==> Absent(page, 0, TABLE_TABS) && Absent(page, 0, SUMMARY_TABLE)
  {
  }

  /** The `NameError`: it is raised exactly for a modern page without a
      `div#class-summary`. */
  lemma ClassTableNameError(page: Node)
    ensures ClassTable(page) == NameError <==>
            JavadocFormat(page) == Modern && Absent(page, 0, CLASS_SUMMARY)
  {
  }

  /** What the chosen table is: the first `div#class-summary` of a modern
      page, or a table one of whose classes contains "summary". A legacy page
      takes its first `table.summary-table`; a page of unknown layout has
      none, so it takes its first `table.summary`, or failing that its first
      summary-like table. */
  lemma ClassTableFound(page: Node)
    requires ClassTable(page).Returned? && ClassTable(page).value.Some?
    ensures JavadocFormat(page) == Modern ==> Find(page, 0, CLASS_SUMMARY) == ClassTable(page).value
    ensures JavadocFormat(page) != Modern ==> Matches(SUMMARY_LIKE, Flat(page)[ClassTable(page).value.value])
    ensures JavadocFormat(page) == Legacy ==> ClassTable(page) == Returned(Find(page, 0, SUMMARY_TABLE))
    ensures JavadocFormat(page) == Unknown && Find(page, 0, SUMMARY_CLASS).Some? ==>
            ClassTable(page) == Returned(Find(page, 0, SUMMARY_CLASS))
    ensures JavadocFormat(page) == Unknown && Find(page, 0, SUMMARY_CLASS).None? ==>
            ClassTable(page) == Returned(Find(page, 0, SUMMARY_LIKE))
  {
    var t := ClassTable(page).value.value;
    if JavadocFormat(page) != Modern {
      SummaryClassesContainSummary();
      if Find(page, 0, SUMMARY_TABLE) == Some(t) {
        ClassContains(Flat(page)[t].classes, SUMMARY + Str("-table"), SUMMARY);
      } else if Find(page, 0, SUMMARY_CLASS) == Some(t) {
        ClassContains(Flat(page)[t].classes, SUMMARY, SUMMARY);
      }
    }
  }

  /** Outside the modern layout, no table is found exactly when no table has
      a class containing "summary": the two named classes are special cases
      of that test. */
  lemma ClassTableMissing(page: Node)
    requires JavadocFormat(page) != Modern
    ensures ClassTable(page) == Returned(None) <==> Absent(page, 0, SUMMARY_LIKE)
  {
    if Absent(page, 0, SUMMARY_LIKE) {
      SummaryClassesContainSummary();
      forall j | 0 < j < End(page, 0)
        ensures !Matches(SUMMARY_TABLE, Flat(page)[j]) && !Matches(SUMMARY_CLASS, Flat(page)[j])
      {
        var classes := Flat(page)[j].classes;
        if SUMMARY + Str("-table") in classes {
          ClassContains(classes, SUMMARY + Str("-table"), SUMMARY);
        }
        if SUMMARY in classes {
          ClassContains(classes, SUMMARY, SUMMARY);
        }
      }
    }
  }

  lemma SummaryClassesContainSummary()
    ensures Contains(SUMMARY, SUMMARY)
    ensures Contains(SUMMARY + Str("-table"), SUMMARY)
  {
    assert SUMMARY[..|SUMMARY|] == SUMMARY;
    assert (SUMMARY + Str("-table"))[..|SUMMARY|] == SUMMARY;
  }

  /** A class that contains `part` makes the class list contain it. */
  lemma {:induction false} ClassContains(classes: seq<Text>, c: Text, part: Text)
    requires c in classes && Contains(c, part)
    ensures AnyContains(classes, part)
  {
    if classes[0] != c {
      assert c in classes[1..];
      ClassContains(classes[1..], c, part);
    }
  }

  // ---------------------------------------------------------------------
  // What the link enumeration promises

  /** Modern layout: the links are every anchor below the table, and only
      those, in document order. */
  lemma ModernLinks(page: Node, t: nat)
    requires t < |Flat(page)| && JavadocFormat(page) == Modern
    ensures forall j :: j in Links(page, t) <==> t < j < End(page, t) && Matches(ANCHOR, Flat(page)[j])
    ensures forall k, k' :: 0 <= k < k' < |Links(page, t)| ==> Links(page, t)[k] < Links(page, t)[k']
  {
    FindAllComplete(page, t, ANCHOR);
    FindAllSorted(page, t, ANCHOR);
  }

  /** Legacy and unknown layouts: a link is exactly the row link of one of the
      table's rows. */
  lemma LegacyLinksSpec(page: Node, t: nat, j: nat)
    requires t < |Flat(page)| && JavadocFormat(page) != Modern
    ensures j in Links(page, t) <==> exists k :: 0 <= k < |FindAll(page, t, ROW)| && RowLink(page, FindAll(page, t, ROW)[k]) == Some(j)
  {
    RowLinksIn(page, FindAll(page, t, ROW), j);
  }

  lemma RowLinksIn(page: Node, rows: seq<nat>, j: nat)
    requires OnPage(page, rows)
    ensures j in RowLinks(page, rows) <==> exists k :: 0 <= k < |rows| && RowLink(page, rows[k]) == Some(j)
  {
    var parts := RowParts(page, rows);
    ConcatIn(parts, j);
    if exists k :: 0 <= k < |rows| && RowLink(page, rows[k]) == Some(j) {
      var k :| 0 <= k < |rows| && RowLink(page, rows[k]) == Some(j);
      assert j in parts[k];
    }
  }

  /** Row order is kept: the links of two runs of rows are those of the first
      run followed by those of the second. */
  lemma RowLinksAppend(page: Node, a: seq<nat>, b: seq<nat>)
    requires OnPage(page, a) && OnPage(page, b)
    ensures OnPage(page, a + b)
    ensures RowLinks(page, a + b) == RowLinks(page, a) + RowLinks(page, b)
  {
    RowPartsAppend(page, a, b);
    ConcatAppend(RowParts(page, a), RowParts(page, b));
  }

  lemma RowPartsAppend(page: Node, a: seq<nat>, b: seq<nat>)
    requires OnPage(page, a) && OnPage(page, b)
    ensures OnPage(page, a + b)
    ensures RowParts(page, a + b) == RowParts(page, a) + RowParts(page, b)
  {
    var ab := a + b;
    assert OnPage(page, ab);
    var pa, pb := RowParts(page, a), RowParts(page, b);
    forall k | 0 <= k < |ab|
      ensures (pa + pb)[k] == RowPart(page, ab[k])
    {
      if k < |a| {
        assert ab[k] == a[k];
      } else {
        assert ab[k] == b[k - |a|];
      }
    }
  }

  // ---------------------------------------------------------------------
  // What the class list promises

  /** A link adds an entry exactly when it has an `href` whose class page was
      fetched; the entry is named by the anchor's text. */
  lemma LinkEntrySpec(web: Web, url: Url, page: Node, j: nat, e: ClassEntry)
    requires j < |Flat(page)|
    ensures e in LinkEntry(web, url, page, j) <==>
            && Flat(page)[j].href.Some?
            && ClassDocAt(web, web.urljoin(url, Flat(page)[j].href.value)) == Some(e.documentation)
            && e.name == GetText(Flat(page)[j])
  {
  }

  /** An entry is in the class list exactly when one of the links adds it. */
  lemma EntriesIn(web: Web, url: Url, page: Node, links: seq<nat>, e: ClassEntry)
    requires OnPage(page, links)
    ensures e in Entries(web, url, page, links) <==> exists k :: 0 <= k < |links| && e in LinkEntry(web, url, page, links[k])
  {
    var parts := EntryParts(web, url, page, links);
    ConcatIn(parts, e);
    if exists k :: 0 <= k < |links| && e in LinkEntry(web, url, page, links[k]) {
      var k :| 0 <= k < |links| && e in LinkEntry(web, url, page, links[k]);
      assert e in parts[k];
    }
  }

  /** Link order is kept. */
  lemma EntriesAppend(web: Web, url: Url, page: Node, a: seq<nat>, b: seq<nat>)
    requires OnPage(page, a) && OnPage(page, b)
    ensures OnPage(page, a + b)
    ensures Entries(web, url, page, a + b) == Entries(web, url, page, a) + Entries(web, url, page, b)
  {
    var ab := a + b;
    assert OnPage(page, ab);
    var pa, pb := EntryParts(web, url, page, a), EntryParts(web, url, page, b);
    forall k | 0 <= k < |ab|
      ensures (pa + pb)[k] == LinkEntry(web, url, page, ab[k])
    {
      if k < |a| {
        assert ab[k] == a[k];
      } else {
        assert ab[k] == b[k - |a|];
      }
    }
    assert EntryParts(web, url, page, ab) == pa + pb;
    ConcatAppend(EntryParts(web, url, page, a), EntryParts(web, url, page, b));
  }

  /** The result is `None` exactly when no class was produced: the page could
      not be fetched, had no class table, or no link led to a class. */
  lemma PackageDocNone(web: Web, url: Url)
    ensures PackageDocAt(web, url) == Returned(None) <==>
            || web.fetch(url).None?
            || ClassTable(web.fetch(url).value) == Returned(None)
            || (&& ClassTable(web.fetch(url).value).Returned?
                && Entries(web, url, web.fetch(url).value,
                           Links(web.fetch(url).value, ClassTable(web.fetch(url).value).value.value)) == [])
  {
  }

  /** Every record in the class list was scraped from a class page, so all
      of its fields can be written as UTF-8; the class names, the anchors'
      raw text, are not cleaned and carry no such promise. */
  lemma EntriesEncodable(web: Web, url: Url, page: Node, links: seq<nat>)
    requires OnPage(page, links)
    ensures forall k :: 0 <= k < |Entries(web, url, page, links)| ==>
      Encodable(Entries(web, url, page, links)[k].documentation)
  {
    var es := Entries(web, url, page, links);
    forall k | 0 <= k < |es| ensures Encodable(es[k].documentation) {
      var e := es[k];
      EntriesIn(web, url, page, links, e);
      var j :| 0 <= j < |links| && e in LinkEntry(web, url, page, links[j]);
      LinkEntrySpec(web, url, page, links[j], e);
      ClassDocAtEncodable(web, web.urljoin(url, Flat(page)[links[j]].href.value));
    }
  }

  lemma PackageDocEncodable(web: Web, url: Url)
    ensures var r := PackageDocAt(web, url);
      r.Returned? && r.value.Some? ==>
      forall k :: 0 <= k < |r.value.value| ==> Encodable(r.value.value[k].documentation)
  {
    var r := PackageDocAt(web, url);
    if r.Returned? && r.value.Some? {
      var page := web.fetch(url).value;
      var t := ClassTable(page).value.value;
      EntriesEncodable(web, url, page, Links(page, t));
    }
  }
}
