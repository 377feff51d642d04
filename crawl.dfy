/** `scrape_javadoc` (scraper.py:239-297): follow every package-summary link
    of the overview page and collect the class lists into the
    `documentation` dictionary. */
module Crawl {
  import opened Wrappers
  import opened Texts
  import opened Html
  import opened Fetch
  import opened ClassPage
  import opened PackagePage
  import opened Seqs

  /** One entry of the `documentation` dictionary. */
  datatype Package = Package(name: Text, classes: seq<ClassEntry>)

  /** A Python dictionary from package name to class list, as its entries in
      insertion order. */
  type Documentation = seq<Package>

  const PACKAGE_SUMMARY: Text := Str("package-summary.html")

  // ---------------------------------------------------------------------
  // The dictionary

  /** The names, in insertion order. */
  function Keys(d: Documentation): (r: seq<Text>)
    ensures |r| == |d|
  {
    if d == [] then [] else [d[0].name] + Keys(d[1..])
  }

  /** No name occurs twice. */
  predicate UniqueKeys(d: Documentation) {
    forall i, j :: 0 <= i < j < |d| ==> d[i].name != d[j].name
  }

  /** `d.get(name)`. */
  function Lookup(d: Documentation, name: Text): Option<seq<ClassEntry>> {
    if d == [] then None
    else if d[0].name == name then Some(d[0].classes)
    else Lookup(d[1..], name)
  }

  /** `d[name] = classes`: an existing key keeps its place and gets the new
      value; a new key goes last. */
  function Assign(d: Documentation, name: Text, classes: seq<ClassEntry>): (r: Documentation)
    ensures |r| == |d| || |r| == |d| + 1
  {
    if d == [] then [Package(name, classes)]
    else if d[0].name == name then [Package(name, classes)] + d[1..]
    else [d[0]] + Assign(d[1..], name, classes)
  }

  /** Every record of the package's classes can be written as UTF-8. */
  predicate RecordsEncodable(p: Package) {
    forall j :: 0 <= j < |p.classes| ==> Encodable(p.classes[j].documentation)
  }

  /** The package name and every class name can be written as UTF-8. */
  predicate NamesEncodable(p: Package) {
    NoSurrogate(p.name) && forall j :: 0 <= j < |p.classes| ==> NoSurrogate(p.classes[j].name)
  }

  // ---------------------------------------------------------------------
  // The crawl as a function of the pages

  /** A link whose `href` contains "package-summary.html" (scraper.py:266-267). */
  predicate IsPackageLink(n: Node) {
    n.href.Some? && Contains(n.href.value, PACKAGE_SUMMARY)
  }

  function PackagePart(page: Node, j: nat): seq<nat>
    requires j < |Flat(page)|
  {
    if IsPackageLink(Flat(page)[j]) then [j] else []
  }

  /** `package_links`: the anchors of the page that are package links, in
      document order. */
  function PackageLinks(page: Node): (r: seq<nat>)
    ensures OnPage(page, r)
  {
    var anchors := FindAll(page, 0, ANCHOR);
    var parts := seq(|anchors|, k requires 0 <= k < |anchors| => PackagePart(page, anchors[k]));
    ConcatKeeps(parts, (j: nat) => j < |Flat(page)|);
    Concat(parts)
  }

  function LinkNodes(page: Node, links: seq<nat>): (r: seq<Node>)
    requires OnPage(page, links)
    ensures |r| == |links| && forall k :: 0 <= k < |links| ==> r[k] == Flat(page)[links[k]]
  {
    seq(|links|, k requires 0 <= k < |links| => Flat(page)[links[k]])
  }

  /** What one package link does to the dictionary (scraper.py:276-284): a
      package whose page yields classes is assigned under the anchor's text;
      the `NameError` of `scrape_package_doc` is not caught. */
  function AddPackage(web: Web, base: Url, d: Documentation, link: Node): Outcome<Documentation> {
    match link.href
    case None => Returned(d)
    case Some(href) =>
      match PackageDocAt(web, web.urljoin(base, href))
      case NameError => NameError
      case Returned(None) => Returned(d)
      case Returned(Some(classes)) => Returned(Assign(d, GetText(link), classes))
  }

  /** The dictionary after visiting `links` in order, starting empty. */
  function Aggregate(web: Web, base: Url, links: seq<Node>): Outcome<Documentation> {
    if links == [] then Returned([])
    else
      match Aggregate(web, base, links[..|links| - 1])
      case NameError => NameError
      case Returned(d) => AddPackage(web, base, d, links[|links| - 1])
  }

  /** `scrape_javadoc` on a fetched overview page. */
  function JavadocOf(web: Web, base: Url, page: Node): Outcome<Option<Documentation>> {
    var links := PackageLinks(page);
    if links == [] then Returned(None)
    else
      match Aggregate(web, base, LinkNodes(page, links))
      case NameError => NameError
      case Returned(d) => Returned(if d == [] then None else Some(d))
  }

  /** `scrape_javadoc(base_url)`: `None` when the overview page cannot be
      fetched. */
  function JavadocAt(web: Web, base: Url): Outcome<Option<Documentation>> {
    match web.fetch(base)
    case None => Returned(None)
    case Some(page) => JavadocOf(web, base, page)
  }

  // ---------------------------------------------------------------------
  // The scraper's loop

  /** scraper.py:239-297. The `packages_found` flag only chooses a diagnostic
      message and is left out. */
  method ScrapeJavadoc(web: Web, base: Url) returns (r: Outcome<Option<Documentation>>)
    ensures r == JavadocAt(web, base)
  {
    var response := web.fetch(base);
    if response.None? {
      return Returned(None);
    }
    var page := response.value;
    var packageLinks := PackageLinks(page);
    if packageLinks == [] {
      return Returned(None);
    }
    var links := LinkNodes(page, packageLinks);
    var documentation: Documentation := [];
    for k := 0 to |links|
      invariant Aggregate(web, base, links[..k]) == Returned(documentation)
    {
      PrefixSnoc(links, k);
      assert links[..k + 1][..k] == links[..k];
      var packageLink := links[k];
      if packageLink.href.Some? {
        var packageName := GetText(packageLink);
        var packageUrl := web.urljoin(base, packageLink.href.value);
        var classes := ScrapePackageDoc(web, packageUrl);
        if classes.NameError? {
          AggregateNameError(web, base, links, k + 1);
          PrefixAll(links);
          return NameError;
        }
        if classes.value.Some? {
          documentation := Assign(documentation, packageName, classes.value.value);
        }
      }
    }
    PrefixAll(links);
    return Returned(if documentation == [] then None else Some(documentation));
  }

  /** Once a `NameError` is raised, the crawl ends with it. */
  lemma {:induction false} AggregateNameError(web: Web, base: Url, links: seq<Node>, k: nat)
    requires k <= |links| && Aggregate(web, base, links[..k]) == NameError
    ensures Aggregate(web, base, links) == NameError
    decreases |links| - k
  {
    if k < |links| {
      PrefixSnoc(links, k);
      assert links[..k + 1][..k] == links[..k];
      AggregateNameError(web, base, links, k + 1);
    } else {
      PrefixAll(links);
    }
  }

  // ---------------------------------------------------------------------
  // What the dictionary promises

  /** Looking a name up after an assignment finds the assigned value for that
      name and the old value for every other. */
  lemma {:induction false} AssignLookup(d: Documentation, name: Text, classes: seq<ClassEntry>, other: Text)
    ensures Lookup(Assign(d, name, classes), other) == if other == name then Some(classes) else Lookup(d, other)
  {
    if d != [] && d[0].name != name {
      AssignLookup(d[1..], name, classes, other);
      assert Assign(d, name, classes)[1..] == Assign(d[1..], name, classes);
    }
  }

  /** The names keep their order; a new name is added last. */
  lemma {:induction false} AssignKeys(d: Documentation, name: Text, classes: seq<ClassEntry>)
    ensures Keys(Assign(d, name, classes)) == if name in Keys(d) then Keys(d) else Keys(d) + [name]
  {
    if d != [] {
      var tail := d[1..];
      if d[0].name != name {
        AssignKeys(tail, name, classes);
        assert Assign(d, name, classes)[1..] == Assign(tail, name, classes);
      } else {
        assert Assign(d, name, classes)[1..] == tail;
      }
    }
  }

  lemma {:induction false} KeysAt(d: Documentation)
    ensures forall i :: 0 <= i < |d| ==> Keys(d)[i] == d[i].name
  {
    if d != [] {
      KeysAt(d[1..]);
    }
  }

  /** With unique names, assigning an existing name replaces its entry in
      place... */
  lemma {:induction false} AssignExisting(d: Documentation, name: Text, classes: seq<ClassEntry>, i: nat)
    requires UniqueKeys(d) && i < |d| && d[i].name == name
    ensures Assign(d, name, classes) == d[i := Package(name, classes)]
  {
    if i > 0 {
      var tail := d[1..];
      assert d[0].name != name;
      assert UniqueKeys(tail) by {
        forall a, b | 0 <= a < b < |tail| ensures tail[a].name != tail[b].name {
          assert tail[a] == d[a + 1] && tail[b] == d[b + 1];
        }
      }
      AssignExisting(tail, name, classes, i - 1);
      assert d[i := Package(name, classes)] == [d[0]] + tail[i - 1 := Package(name, classes)];
    }
  }

  /** ...and a new name is appended. */
  lemma {:induction false} AssignNew(d: Documentation, name: Text, classes: seq<ClassEntry>)
    requires name !in Keys(d)
    ensures Assign(d, name, classes) == d + [Package(name, classes)]
  {
    if d != [] {
      var tail := d[1..];
      AssignNew(tail, name, classes);
      assert d + [Package(name, classes)] == [d[0]] + (tail + [Package(name, classes)]);
    }
  }

  /** Assignment keeps the names unique. */
  lemma AssignUnique(d: Documentation, name: Text, classes: seq<ClassEntry>)
    requires UniqueKeys(d)
    ensures UniqueKeys(Assign(d, name, classes))
  {
    KeysAt(d);
    if name in Keys(d) {
      var i :| 0 <= i < |Keys(d)| && Keys(d)[i] == name;
      AssignExisting(d, name, classes, i);
    } else {
      AssignNew(d, name, classes);
      var r := d + [Package(name, classes)];
      forall a, b | 0 <= a < b < |r| ensures r[a].name != r[b].name {
        if b == |d| {
          assert Keys(d)[a] == d[a].name;
        }
      }
    }
  }

  // ---------------------------------------------------------------------
  // What the crawl promises

  /** The dictionary the crawl builds has unique names and only non-empty
      class lists. */
  lemma {:induction false} AggregateWellFormed(web: Web, base: Url, links: seq<Node>)
    requires Aggregate(web, base, links).Returned?
    ensures UniqueKeys(Aggregate(web, base, links).value)
    ensures forall p :: p in Aggregate(web, base, links).value ==> p.classes != []
  {
    if links != [] {
      var init := links[..|links| - 1];
      AggregateWellFormed(web, base, init);
      var d := Aggregate(web, base, init).value;
      var link := links[|links| - 1];
      if link.href.Some? {
        var result := PackageDocAt(web, web.urljoin(base, link.href.value));
        if result.Returned? && result.value.Some? {
          AssignUnique(d, GetText(link), result.value.value);
          AssignIn(d, GetText(link), result.value.value);
        }
      }
    }
  }

  /** Every entry after an assignment is the new one or an old one. */
  lemma {:induction false} AssignIn(d: Documentation, name: Text, classes: seq<ClassEntry>)
    ensures forall p :: p in Assign(d, name, classes) ==> p == Package(name, classes) || p in d
  {
    if d != [] && d[0].name != name {
      AssignIn(d[1..], name, classes);
    }
  }

  /** A package link is an anchor of the page whose `href` contains
      "package-summary.html", and every such anchor is one. */
  lemma PackageLinksSpec(page: Node, j: nat)
    ensures j in PackageLinks(page) <==>
            0 < j < |Flat(page)| && Matches(ANCHOR, Flat(page)[j]) && IsPackageLink(Flat(page)[j])
  {
    var anchors := FindAll(page, 0, ANCHOR);
    var parts := seq(|anchors|, k requires 0 <= k < |anchors| => PackagePart(page, anchors[k]));
    EndOfRoot(page);
    FindAllComplete(page, 0, ANCHOR);
    ConcatIn(parts, j);
    if 0 < j < |Flat(page)| && Matches(ANCHOR, Flat(page)[j]) && IsPackageLink(Flat(page)[j]) {
      var k :| 0 <= k < |anchors| && anchors[k] == j;
      assert j in parts[k];
    }
  }

  /** Package links come in document order (scraper.py:266-267), which is
      the order packages are discovered in. */
  lemma PackageLinksSorted(page: Node)
    ensures forall k, k' :: 0 <= k < k' < |PackageLinks(page)| ==> PackageLinks(page)[k] < PackageLinks(page)[k']
  {
    var anchors := FindAll(page, 0, ANCHOR);
    var parts := seq(|anchors|, k requires 0 <= k < |anchors| => PackagePart(page, anchors[k]));
    FindAllSorted(page, 0, ANCHOR);
    ConcatPicksSorted(anchors, parts);
  }

  /** The crawl yields `None` exactly when the overview page cannot be
      fetched, has no package link, or no package yields classes. */
  lemma JavadocNone(web: Web, base: Url)
    ensures JavadocAt(web, base) == Returned(None) <==>
            || web.fetch(base).None?
            || PackageLinks(web.fetch(base).value) == []
            || Aggregate(web, base, LinkNodes(web.fetch(base).value, PackageLinks(web.fetch(base).value))) == Returned([])
  {
  }

  /** The records the crawl collects were all cleaned. */
  lemma {:induction false} AggregateEncodable(web: Web, base: Url, links: seq<Node>)
    requires Aggregate(web, base, links).Returned?
    ensures forall p :: p in Aggregate(web, base, links).value ==> RecordsEncodable(p)
  {
    if links != [] {
      var init := links[..|links| - 1];
      AggregateEncodable(web, base, init);
      var d := Aggregate(web, base, init).value;
      var link := links[|links| - 1];
      if link.href.Some? {
        var url := web.urljoin(base, link.href.value);
        var result := PackageDocAt(web, url);
        if result.Returned? && result.value.Some? {
          PackageDocEncodable(web, url);
          AssignIn(d, GetText(link), result.value.value);
        }
      }
    }
  }

  lemma JavadocEncodable(web: Web, base: Url)
    ensures var r := JavadocAt(web, base);
      r.Returned? && r.value.Some? ==> forall p :: p in r.value.value ==> RecordsEncodable(p)
  {
    var r := JavadocAt(web, base);
    if r.Returned? && r.value.Some? {
      var page := web.fetch(base).value;
      AggregateEncodable(web, base, LinkNodes(page, PackageLinks(page)));
    }
  }
}
