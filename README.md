# ELO Javadoc scraper, modelled in Dafny

The system is a command-line scraper, `scraper.py`. It crawls a Javadoc site (an ELO forum
Javadoc by default) and writes one Markdown file from it. The crawl has four levels:

- From the overview page it follows every link to a `package-summary.html`.
- On each package page it decides which of three Javadoc layouts it is looking at and finds the
  class table. It lists the class links in a layout-dependent way.
- From each class page it extracts a record: package label, inheritance chain, description,
  constructors, and methods. A method carries signature, description, parameters, `Returns:` and
  `Overrides:`.
- It collects everything into a package → classes dictionary and renders it as Markdown with a
  linked table of contents.

Every field of a class record goes through the text stage of `clean_html`, which normalises
whitespace and drops code points UTF-8 cannot encode. The two texts that do not are the names:
a class name is its link's raw `.text` (scraper.py:223), and so is a package name
(scraper.py:278). Names are written to the file as they are.

The model is split by stage:

| file | module | what it holds |
|---|---|---|
| `seqs.dfy` | `Seqs` | concatenation of parts, "write one piece per element" (`Each`), and their order lemmas, for any element type |
| `wrappers.dfy` | `Wrappers` | `Option`, and `Outcome` (a value, or the uncaught `NameError`) |
| `texts.dfy` | `Texts` | Python text as code points; `strip`, `split`, `join`, `splitlines`, `lower` and `replace('.', '')`; the text stage `CleanText`; what UTF-8 can encode |
| `html.dfy` | `Html` | the parsed page as a tree addressed in document order; `find`, `find_all`, `find_next`, `.text` |
| `fetch.dfy` | `Fetch` | the network as a function from URL to an optional page, and `urljoin` |
| `class_page.dfy` | `ClassPage` | `scrape_class_doc` as functions of the page and as the source's loops |
| `package_page.dfy` | `PackagePage` | layout detection, class table, link enumeration, class list |
| `crawl.dfy` | `Crawl` | the `documentation` dictionary and the crawl from the overview page |
| `render.dfy` | `Render` | `save_markdown`: the written text, its anchors, its loops, and when writing it fails |
| `cli.dfy` | `Cli` | base URL normalisation, output file name, and the whole run |

How the model works on each path:

- **Each stage is stated twice.** A function states the value the stage computes from the page.
  Where the source works by loops and appends, a method repeats those loops. Its `ensures` ties
  the result to the function.
- **A page** is a `Node` tree. Every element is named by its index in the page's preorder
  `Flat(page)`, with the root at index 0.
  - `Find` is the first match strictly inside an element's subtree.
  - `FindAll` is every match there, in order.
  - `FindNext` is the first match after the element anywhere in the rest of the page.
- **The network** is a value of type `Web`. A failed request (a `RequestException`) is a fetch
  that returns `None`.
- **The Python dictionary** is its list of entries in insertion order.
- **The output file** is opened with the UTF-8 encoding. Writing a text that holds a lone
  surrogate raises `UnicodeEncodeError`, so `SaveMarkdown` returns `None` for such a text.

## Model

| member | source | states |
|---|---|---|
| Texts.StripLeft | scraper.py:37-38 | the result is a suffix of the input; exactly the leading whitespace is removed; the result does not start with whitespace |
| Texts.StripRight | scraper.py:37-38 | the result is a prefix of the input; exactly the trailing whitespace is removed; the result does not end with whitespace |
| Texts.Strip | scraper.py:37-38 | the result has no leading or trailing whitespace and is the input's middle: it occurs in the input with only whitespace before and after it, so only the leading and trailing whitespace is removed; an already stripped text is unchanged |
| Texts.Join | scraper.py:39 | definition; described by `SplitJoin` and `SplitLinesJoin`: Python's `sep.join(parts)` |
| Texts.Split | scraper.py:38 | definition; described by `SplitJoin`, `SplitFree` and `SplitOfFree`: Python's `s.split(sep)` |
| Texts.SplitJoin | scraper.py:38-39 | joining the pieces of `s.split(sep)` with `sep` gives `s` back |
| Texts.SplitFree | scraper.py:38 | no piece of a split contains the separator |
| Texts.SplitOfFree | scraper.py:38 | a text without the separator splits into itself alone |
| Texts.SplitLines | scraper.py:37 | no line produced by `splitlines` holds a line boundary |
| Texts.SplitLinesJoin | scraper.py:37-39 | non-empty lines free of boundaries, joined with newlines, split back into the same lines |
| Texts.DropSurrogates | scraper.py:42 | the result holds no surrogate and is never longer than the input |
| Texts.DropSurrogatesFrom | scraper.py:42 | only code points of the input remain |
| Texts.DropSurrogatesKeepsOthers | scraper.py:42 | every code point of the input that UTF-8 can encode is kept |
| Texts.DropSurrogatesAppend | scraper.py:42 | the result for `a + b` is the result for `a` followed by the result for `b`, so kept code points keep their order |
| Texts.DropSurrogatesOfFree | scraper.py:42 | surrogate-free text is unchanged |
| Texts.KeepChunks | scraper.py:38-39 | definition; described by `CleanTextLines`: each phrase stripped, the empty ones dropped |
| Texts.Chunks | scraper.py:37-39 | definition; described by `CleanTextLines` and `CleanTextIdempotent`: every line stripped and split on two spaces, its phrases kept as `KeepChunks` keeps them |
| Texts.CleanText | scraper.py:37-42 | the cleaned text holds no surrogate code point |
| Texts.CleanTextLines | scraper.py:37-39 | for surrogate-free input, each line of the output is a chunk, and each is non-empty, stripped, free of line boundaries and free of two adjacent spaces |
| Texts.CleanTextIdempotent | scraper.py:37-42 | for surrogate-free input, cleaning twice equals cleaning once |
| Texts.SurrogateBreaksIdempotence | scraper.py:37-42 | a lone surrogate before a space makes the stage return a text with a leading space: the line is not stripped, and a second cleaning changes it |
| Html.Matches | scraper.py:62-81 | definition; described by `Find`, `FindAll` and `FindAllComplete`: the test `find`/`find_all` apply to each element: the tag, then a class, an id, a `string` or a class substring |
| Html.StringOf | scraper.py:141 | definition; described by `LabelledFieldAt`: BeautifulSoup's `.string`, which `string='Returns:'` compares |
| Html.GetText | scraper.py:29-34 | definition; described by `FieldText`: `get_text()` once `script` and `style` are removed |
| Html.Find | scraper.py:62-74 | the result is the first matching descendant; there is none exactly when no descendant matches |
| Html.FindAll | scraper.py:81 | every index returned is a matching descendant |
| Html.FindAllSorted | scraper.py:81 | `find_all` returns increasing indices, i.e. document order |
| Html.FindAllComplete | scraper.py:81 | `find_all` misses no matching descendant |
| Html.FindNext | scraper.py:142-143 | the result is the first matching element after the given one anywhere in the page, inside its subtree or beyond it; there is none exactly when nothing later matches |
| Html.Clean | scraper.py:26-42 | definition; described by `FieldTextAt`, `CleanTextLines` and `CleanTextIdempotent`: `clean_html(str(element))` is the text stage applied to the element's text without `script` and `style`, and is surrogate-free |
| Html.FieldText | scraper.py:69-76 | a field is surrogate-free, and empty when its element is absent |
| Html.FieldTextAt | scraper.py:74-76 | when the first matching descendant is `j`, the field is the cleaned text of `j` |
| Html.FlatSubtree | scraper.py:81 | the descendants of an element occupy one contiguous range of the page's preorder, in their own preorder |
| ClassPage.NonEmpty | scraper.py:102 | the filter keeps at most as many texts, all non-empty |
| ClassPage.NonEmptyIn | scraper.py:100-103 | a text survives the filter exactly when it is non-empty and among the inputs |
| ClassPage.NonEmptyAppend | scraper.py:134-138 | filtering keeps order: filtering two runs is filtering each and concatenating |
| ClassPage.Parameters | scraper.py:99-103 | definition; described by `ParametersSpec` and `ParametersClean`: the cleaned, non-empty `dd`s of a detail section |
| ClassPage.ParametersSpec | scraper.py:134-138 | a text is a parameter exactly when it is the non-empty cleaned text of some `dd` below the detail section |
| ClassPage.ParametersClean | scraper.py:99-103 | every parameter is non-empty and surrogate-free |
| ClassPage.ScrapeParameters | scraper.py:99-103 | the appended list equals the cleaned `dd` texts below the section, empties dropped, in document order |
| ClassPage.ScrapeField | scraper.py:89-96 | the found-and-cleaned field equals the specified one: empty when nothing is found |
| ClassPage.ScrapeLabelled | scraper.py:141-148 | `returns`/`overrides` equal the cleaned first `dd` after the first labelled span, or stay empty |
| ClassPage.ScrapeConstructor | scraper.py:82-105 | one constructor record as specified by `ConstructorOf` |
| ClassPage.ScrapeMethod | scraper.py:111-150 | one method record as specified by `MethodOf`, name filled only under a signature |
| ClassPage.ScrapeConstructors | scraper.py:79-105 | one record per `section.detail` of the first constructor section, in order; none without the section |
| ClassPage.ScrapeMethods | scraper.py:108-150 | one record per `section.detail` of the first method section, in order; none without the section |
| ClassPage.ScrapeClassDoc | scraper.py:44-156 | the record equals the one specified for the fetched page; `None` when the fetch fails |
| ClassPage.Details | scraper.py:79-81 | the detail sections found are elements of the page |
| ClassPage.ConstructorsOf | scraper.py:79-105 | definition; described by `ScrapeConstructors`: one constructor record per detail section, in section order |
| ClassPage.MethodsOf | scraper.py:108-150 | definition; described by `ScrapeMethods`: one method record per detail section, in section order |
| ClassPage.ConstructorOf | scraper.py:82-105 | definition; described by `ScrapeConstructor`, `ClassDefaults` and `ParametersSpec`: one constructor record |
| ClassPage.LabelledField | scraper.py:141-148 | definition; described by `LabelledFieldAt` and `LabelledFieldEmpty`: the `Returns:`/`Overrides:` field |
| ClassPage.MethodOf | scraper.py:111-150 | definition; described by `ScrapeMethod`, `MethodNameNeedsSignature` and `LabelledFieldAmongParameters`: one method record |
| ClassPage.PackageField | scraper.py:62-66 | definition; described by `ClassDefaults`: the cleaned text of the first anchor in `div.sub-title` |
| ClassPage.ClassOf | scraper.py:53-152 | definition; described by `ClassDefaults`, `DescriptionIsFirstBlock` and `ClassOfEncodable`: the class record of a page |
| ClassPage.ClassDocAt | scraper.py:44-156 | definition; described by `ScrapeClassDoc` and `ClassDocAtEncodable`: the record, or `None` when the fetch fails |
| ClassPage.ClassDefaults | scraper.py:53-76 | each of the five fields keeps its empty default when its element is missing |
| ClassPage.DescriptionIsFirstBlock | scraper.py:74-76 | the class description is the first `div.block` anywhere in the page |
| ClassPage.MethodNameNeedsSignature | scraper.py:121-126 | a method's name is empty without a `member-signature`, and otherwise is the cleaned `h3` |
| ClassPage.LabelledFieldEmpty | scraper.py:141-148 | with no labelled span, or no `dd` after it, the field stays empty |
| ClassPage.LabelledFieldAt | scraper.py:141-148 | with `s` the first labelled span and `d` the first `dd` after it anywhere in the page, the field is the cleaned `d`, which may lie outside the method |
| ClassPage.ClassOfEncodable | scraper.py:44-152 | every text field of a class record, constructors' and methods' included, holds no lone surrogate |
| ClassPage.ClassDocAtEncodable | scraper.py:44-156 | a record that `scrape_class_doc` returns is encodable |
| ClassPage.LabelledFieldAmongParameters | scraper.py:134-148 | a `Returns:`/`Overrides:` `dd` inside the method's section is also one of its parameters |
| PackagePage.JavadocFormat | scraper.py:168-174 | definition; described by `FormatSpec`: `get_javadoc_format` |
| PackagePage.FormatSpec | scraper.py:168-174 | modern exactly when a tabs div exists; legacy exactly when none does but a `table.summary-table` does; unknown otherwise |
| PackagePage.ClassTable | scraper.py:176-194 | a found class table is an element below the root |
| PackagePage.ClassTableNameError | scraper.py:179-197 | `NameError` is raised exactly for a modern page without `div#class-summary` |
| PackagePage.ClassTableFound | scraper.py:179-194 | on a modern page the table is the first `div#class-summary`; otherwise it is a table with a class containing "summary" |
| PackagePage.ClassTableMissing | scraper.py:185-194 | outside the modern layout no table is found exactly when no table has a class containing "summary" |
| PackagePage.RowLink | scraper.py:209-211 | a row's link is an anchor of the page |
| PackagePage.RowLinks | scraper.py:207-213 | row links are anchors of the page |
| PackagePage.Links | scraper.py:203-213 | the links are elements of the page |
| PackagePage.ModernLinks | scraper.py:203-204 | in the modern layout the links are exactly the anchors below the table, in document order |
| PackagePage.LegacyLinks | scraper.py:207-213 | definition; described by `LegacyLinksSpec` and `RowLinksAppend`: the legacy layout's row links |
| PackagePage.LegacyLinksSpec | scraper.py:205-213 | in the legacy and unknown layouts a link is exactly the first anchor of the first `th.col-first` of some row |
| PackagePage.RowLinksIn | scraper.py:208-213 | an index is a row link exactly when some row yields it |
| PackagePage.RowLinksAppend | scraper.py:208-213 | row order is kept: the links of two runs of rows are the first run's followed by the second's |
| PackagePage.ScrapeLegacyLinks | scraper.py:207-213 | the loop's appended list equals the specified row links |
| PackagePage.ScrapeLinks | scraper.py:203-213 | the links equal the layout-dependent specification |
| PackagePage.LinkEntry | scraper.py:216-225 | definition; described by `LinkEntrySpec`: what one class link adds to the class list |
| PackagePage.LinkEntrySpec | scraper.py:216-225 | a link adds an entry exactly when it has an `href` whose class page was fetched; the entry is named by the anchor text |
| PackagePage.EntriesIn | scraper.py:216-225 | an entry is in the class list exactly when one of the links adds it |
| PackagePage.EntriesAppend | scraper.py:216-225 | link order is kept in the class list |
| PackagePage.Entries | scraper.py:216-225 | no more entries than links |
| PackagePage.ScrapeClasses | scraper.py:216-225 | the loop's appended class list equals the specified one |
| PackagePage.PackageDocOf | scraper.py:197-233 | a returned class list is never empty |
| PackagePage.PackageDocAt | scraper.py:158-237 | a returned class list is never empty |
| PackagePage.EntriesEncodable | scraper.py:216-225 | every record in a class list is encodable; the names carry no such promise |
| PackagePage.PackageDocEncodable | scraper.py:158-237 | every record of a returned class list is encodable |
| PackagePage.PackageDocNone | scraper.py:233-237 | the result is `None` exactly when the fetch failed, there is no class table, or no link produced a class |
| PackagePage.ScrapePackageDoc | scraper.py:158-237 | the method's result equals the specified one, `NameError` included |
| Crawl.Assign | scraper.py:284 | an assignment keeps the dictionary's size or adds one entry |
| Crawl.AssignLookup | scraper.py:284 | after `d[name] = v`, `name` maps to `v` and every other key to its old value |
| Crawl.AssignKeys | scraper.py:284 | keys keep their order; a new key is added last |
| Crawl.AssignExisting | scraper.py:284 | assigning an existing key replaces its entry in place |
| Crawl.AssignNew | scraper.py:284 | assigning a new key appends it |
| Crawl.AssignUnique | scraper.py:284 | assignment keeps keys unique |
| Crawl.AssignIn | scraper.py:284 | every entry after an assignment is the new one or an old one |
| Crawl.IsPackageLink | scraper.py:266-267 | definition; described by `PackageLinksSpec`: an anchor whose `href` is present and contains `package-summary.html` (a missing `href` reads as `''` and never matches) |
| Crawl.PackageLinks | scraper.py:266-267 | the package links are elements of the page |
| Crawl.PackageLinksSpec | scraper.py:266-267 | an element is a package link exactly when it is an anchor whose `href` contains "package-summary.html" |
| Crawl.PackageLinksSorted | scraper.py:266-267 | package links come in document order, strictly increasing |
| Crawl.AddPackage | scraper.py:276-284 | definition; described by `AggregateNameError`, `AssignExisting` and `AssignNew`: what one package link does to the dictionary |
| Crawl.Aggregate | scraper.py:275-285 | definition; described by `AggregateNameError`, `AggregateWellFormed` and `AggregateEncodable`: the loop over the package links |
| Crawl.JavadocOf | scraper.py:249-293 | definition; described by `JavadocNone`: the crawl of a fetched overview page |
| Crawl.JavadocAt | scraper.py:239-297 | definition; described by `JavadocNone`, `ScrapeJavadoc` and `JavadocEncodable`: `scrape_javadoc` |
| Crawl.AggregateNameError | scraper.py:275-295 | once a package raises `NameError`, the whole crawl ends with it |
| Crawl.AggregateWellFormed | scraper.py:275-284 | the dictionary built has unique keys and only non-empty class lists |
| Crawl.AggregateEncodable | scraper.py:275-284 | every record in the crawl's dictionary is encodable |
| Crawl.JavadocEncodable | scraper.py:239-297 | every record of the returned documentation is encodable |
| Crawl.JavadocNone | scraper.py:265-293 | the crawl yields `None` exactly when the overview cannot be fetched, has no package link, or no package yields classes |
| Crawl.ScrapeJavadoc | scraper.py:239-297 | the loop's dictionary and result equal the specified crawl, `NameError` included |
| Texts.Lower | scraper.py:310-312 | no ASCII capital is left; each capital becomes its small letter, 0x20 higher; every other code point stays unchanged in its place |
| Texts.LowerOfLower | scraper.py:310-312 | a text without ASCII capitals is its own lower case |
| Texts.RemoveDots | scraper.py:310 | no `.` is left and the result is never longer than the input |
| Texts.RemoveDotsFrom | scraper.py:310 | only code points of the input remain |
| Texts.RemoveDotsKeepsOthers | scraper.py:310 | every code point of the input other than `.` is kept |
| Texts.RemoveDotsAppend | scraper.py:310 | the result for `a + b` is the result for `a` followed by the result for `b`, so kept code points keep their order |
| Texts.RemoveDotsOfFree | scraper.py:310 | a text without `.` is unchanged |
| Texts.LowerEncodable | scraper.py:310-312 | lower-casing neither adds nor removes lone surrogates |
| Render.PackageAnchor | scraper.py:310 | definition; described by `PackageAnchorSpec` |
| Render.ClassAnchor | scraper.py:312 | definition; described by `ClassAnchorSpec` |
| Render.TocEntry | scraper.py:310-313 | definition; described by `WriteTocEntry`, `TocClassOrder` and `TocEntryEncodable`: a package's table-of-contents line followed by one line per class, in list order |
| Render.Toc | scraper.py:309-313 | definition; described by `TocClassOrder`, `PackageListed`, `ClassListed` and `TocEncodable` |
| Render.ConstructorBlock | scraper.py:343-354 | definition; described by `ConstructorBlockShape` |
| Render.MethodBlock | scraper.py:360-379 | definition; described by `MethodBlockShape` |
| Render.ClassSection | scraper.py:322-381 | definition; described by `ClassSectionShape` and `FieldsOmitted` |
| Render.PackageSection | scraper.py:318-381 | definition; described by `WritePackage`, `PackageListed` and `ClassOrder`: the package heading followed by each class section, in list order |
| Render.Body | scraper.py:318-381 | definition; described by `PackageOrder`, `ClassOrder` and `BodyEncodable` |
| Render.PackageAnchorSpec | scraper.py:310 | a package anchor has no `.` and no ASCII capital letter, and is its own anchor |
| Render.ClassAnchorSpec | scraper.py:312 | a class anchor starts with its package anchor and `-`; equal class anchors in a package mean the class names differ at most in ASCII letter case |
| Render.Markdown | scraper.py:305-306 | the file begins with the title and the table-of-contents heading |
| Render.PackageOrder | scraper.py:309-317 | packages appear in dictionary order in both the table of contents and the body |
| Render.ClassOrder | scraper.py:320 | classes appear in list order in the body |
| Render.TocClassOrder | scraper.py:311 | classes appear in list order in the table of contents |
| Render.PackageListed | scraper.py:310-318 | every package has its table-of-contents line and its heading in the file |
| Render.ClassListed | scraper.py:312-381 | every class has a table-of-contents line carrying its anchor and a section in the file |
| Render.ClassSectionShape | scraper.py:323-381 | a class section opens with `## Class <name>` and ends with `---` |
| Render.FieldsOmitted | scraper.py:325-355 | the package, inheritance, description, constructor and method parts are each empty exactly when their field is |
| Render.ConstructorBlockShape | scraper.py:342-353 | a constructor always gets its fenced signature; description and parameters are omitted exactly when empty |
| Render.MethodBlockShape | scraper.py:357-378 | a method always gets its heading and fenced signature; parameters, returns and overrides are omitted exactly when empty |
| Render.ParametersListed | scraper.py:349-353 | every parameter gets its own bullet line |
| Render.WriteTocEntry | scraper.py:310-313 | one package's table-of-contents lines as the loop writes them equal the specified ones |
| Render.WriteToc | scraper.py:309-313 | the written table of contents equals the specified one |
| Render.WritePackage | scraper.py:318-381 | one package's heading and class sections as written equal the specified ones |
| Render.WriteBody | scraper.py:317-381 | the written body equals the specified one |
| Render.Written | scraper.py:304-381 | a file that is written completely holds exactly `Markdown(documentation)`, which UTF-8 can encode |
| Render.SaveMarkdown | scraper.py:299-381 | the written text equals `Markdown(documentation)` when UTF-8 can encode all of it; otherwise the write raises (`None`) |
| Render.EachEncodable | scraper.py:309-381 | a loop's output can be encoded exactly when every piece it writes can |
| Render.TocEntryEncodable | scraper.py:310-313 | a package's table-of-contents lines can be encoded exactly when its name and all its class names can |
| Render.TocEncodable | scraper.py:309-313 | the table of contents can be encoded exactly when every name can |
| Render.FieldsEncodable | scraper.py:325-378 | a class's fields, all cleaned, give text UTF-8 can encode |
| Render.BodyEncodable | scraper.py:317-381 | with cleaned records and encodable names, the body can be encoded |
| Render.MarkdownEncodable | scraper.py:304-381 | with cleaned records, the file can be written exactly when no package or class name holds a lone surrogate |
| Cli.StripSlashes | scraper.py:395 | `rstrip('/')` removes exactly the trailing slashes |
| Cli.NormaliseUrl | scraper.py:395-399 | definition; described by `NormaliseUrlShape`, `NormaliseUrlBase` and `NormaliseUrlIdempotent` |
| Cli.NormaliseUrlShape | scraper.py:395-399 | the base URL starts with `http` and ends with exactly one `/` |
| Cli.NormaliseUrlBase | scraper.py:395-399 | an argument starting with `http` is kept; any other is put after `https://forum.elo.com/javadoc/`; an empty or all-slash argument gives the bare prefix |
| Cli.NormaliseUrlIdempotent | scraper.py:395-399 | normalising a normalised URL changes nothing |
| Cli.SplitAtChar | scraper.py:404 | splitting at the first separator gives the text before it, then the split of the rest |
| Cli.NameSegments | scraper.py:404 | definition; described by `OutputFilenameSpec` and `ExampleFilename`: the URL's segments from the fifth on: after the scheme, the empty text between the two slashes, the host and the first path segment |
| Cli.OutputFilename | scraper.py:404-405 | definition; described by `OutputFilenameSpec` and `ExampleFilename` |
| Cli.OutputFilenameSpec | scraper.py:404-405 | the name is `javadoc.` + segments + `.md`, with no `/` in it; every segment is non-empty |
| Cli.ExampleFilename | scraper.py:395-405 | `ix/23` normalises to `https://forum.elo.com/javadoc/ix/23/`, which is saved as `javadoc.ix.23.md` |
| Cli.Run | scraper.py:401-414 | definition; described by `RunSpec` and `RunEncodeError`: how a run ends |
| Cli.RunSpec | scraper.py:401-414 | nothing is saved exactly when the crawl found no documentation, and `NameError` ends the run exactly when the crawl raises it; an opened file is named after the normalised URL; a complete file begins with the title and is valid UTF-8 |
| Cli.RunEncodeError | scraper.py:302-323 | writing the file raises `UnicodeEncodeError` exactly when the crawl returned documentation in which some package or class name holds a lone surrogate |
| Cli.RunScraper | scraper.py:401-414 | the run as written: scrape, then save under the derived name, ending as `Run` specifies |

## Behaviour of the code worth knowing

These are readings of scraper.py backed by the proofs named in each point; the code was not
executed. Each is modelled as the code has it.

- **The text stage is idempotent only without lone surrogates.** The code drops the code points
  UTF-8 cannot encode only after it has normalised the whitespace. On `"\ud800 x"` it returns
  `" x"`, and a second cleaning gives `"x"` (`Texts.SurrogateBreaksIdempotence`). Idempotence is
  proved for surrogate-free text (`Texts.CleanTextIdempotent`). The same input breaks the line
  properties: `" x"` is a line that starts with a space, so the promise that every cleaned line
  is non-empty and stripped (`Texts.CleanTextLines`) holds only for surrogate-free text too
  (also `Texts.SurrogateBreaksIdempotence`).
- **A `NameError` can end the run.** A modern-layout package page without `div#class-summary`
  never binds `class_table` (scraper.py:179-183), and line 197 reads it. Only
  `RequestException` is caught (scraper.py:235), so the `NameError` ends the whole crawl. The
  model carries it as `Outcome.NameError` through `ScrapePackageDoc` and `ScrapeJavadoc`, and
  `Run` ends in `CrawlNameError`.
- **`Returns:` and `Overrides:` use the next `dd` anywhere in the page.** The code calls
  `find_next('dd')` (scraper.py:143 and 147), so the `dd` may lie in a later method or outside
  the method section altogether. Those `dd`s inside the method are also collected as parameters
  (`ClassPage.LabelledFieldAmongParameters`).
- **Table-of-contents links point at anchors the body never writes.** Each line of the table of
  contents links to `#<anchor>` (scraper.py:310-313). The body computes the class anchor again at
  line 322, with the same expression as line 312, and never writes it. The body headings are
  `## Class <name>`, and no anchor appears in the file.
- **`javadoc.md` is never used.** `save_markdown` falls back to `javadoc.md` when it is given no
  file name (scraper.py:299-302). The command line always passes a name derived from the URL
  (scraper.py:404-411).
- **Names are written uncleaned.** Package and class names are the links' raw `.text`
  (scraper.py:223 and 278). The file is opened with the UTF-8 encoding (scraper.py:304), so a name
  holding a lone surrogate makes `f.write` raise `UnicodeEncodeError` and the run fails while
  writing. Every other field is cleaned, so this is the only way writing fails
  (`Cli.RunEncodeError`).

## Left out

- HTTP, TLS and the session (`create_session`, `raise_for_status`). A fetch that raises
  `RequestException` is a `Web.fetch` that returns `None`.
- BeautifulSoup parsing and entity decoding. The page is given as a tree. `clean_html` of an
  element is `CleanText` of its `.text`, with `script` and `style` subtrees not counted. That
  stands for removing them with `decompose` and re-parsing `str(element)`.
- `Html.Clean` on the package link (scraper.py:66): the link's text is re-parsed as HTML before
  cleaning. The model cleans the anchor's text directly, so markup characters inside that text are
  not interpreted.
- `urllib.parse.urljoin`: an uninterpreted function carried by `Web`.
- All printing: the debug dumps, `print_debug_info`, the progress and usage messages, and the
  `packages_found` flag that only selects a message. The console's encoding is outside the
  program.
- Cli.RunSpec, Cli.RunEncodeError, Cli.RunScraper: assume a console that can print every code
  point. On a console with a strict UTF-8 encoding, printing a link text that holds a lone
  surrogate raises `UnicodeEncodeError` during the crawl, before any file is opened. The prints
  at scraper.py:219, 257 and 280 print link texts, and those at scraper.py:199 and 263 dump
  tables.
- Render.SaveMarkdown, Cli.RunSpec, Cli.RunScraper: a failed write is modelled by its outcome
  alone (`None`, `WriteEncodeError(file)`). The part of the file written before the failing
  `f.write` is not modelled. The `with` block closes the file with that part in it.
- Opening the output file and the file system: the model is the text the file receives on a
  POSIX system. In text mode on Windows each `\n` is written as `\r\n`.
- Fetching the same URL twice: the model's `Web` gives the same page for the same URL. The code
  sends a new request each time (for example two links to one class page), and the two replies
  may differ.
- `sys.argv` and `sys.exit`: the run takes the first argument as a parameter.
- `save_markdown`'s default file name: it is not reachable from the command line.
- The body anchor of line 322: it is computed and never written.
- Texts.Lower: lower-cases only the ASCII letters. Python's `str.lower` also maps the rest of
  Unicode.
- Html.Matches: `'summary' in str(t.get('class', ''))` is modelled as "some class of the list
  contains `summary`". The letters of `summary` cannot straddle the quotes and commas of the
  list's printed form, so the two tests agree.
- Html.StringOf: `find(string=...)` is modelled as BeautifulSoup's `.string`, which is the only
  text of an element without siblings, looked up through single children. Comments and other
  non-text nodes are not modelled.
- Unused imports (`markdown`, `json`, `Path`, `os`, `re`).
