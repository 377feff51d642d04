/** The parsed page as a tree, and the queries the scraper makes of the
    parser: `find`, `find_all`, `find_next`, `.text`, and `clean_html`
    applied to an element. */
module Html {
  import opened Texts
  import opened Wrappers

  /** One element: tag name, class list, `id` and `href` attributes, its own
      text (which comes before its children in document order) and children.
      Content that interleaves text and elements, `<dd>a<b>x</b>c</dd>`, is
      written with text-only children whose tag no selector names: a child
      `Node` holding `c` after the one for `<b>`. */
  datatype Node = Node(tag: Text, classes: seq<Text>, id: Option<Text>, href: Option<Text>,
                       text: Text, children: seq<Node>)

  /** What one `find`/`find_all` call asks for. */
  datatype Selector =
    | Tag(name: Text)                           // find(name)
    | TagClass(name: Text, cls: Text)           // find(name, class_=cls)
    | TagId(name: Text, ident: Text)            // find(name, id=ident)
    | TagString(name: Text, str: Text)          // find(name, string=str)
    | TagClassContains(name: Text, part: Text)  // part in str(t.get('class', ''))

  /** `find('a')`: any anchor. */
  const ANCHOR: Selector := Tag(Str("a"))

  /** The elements of a subtree in document order (preorder), root first. */
  function Flat(n: Node): (r: seq<Node>)
    ensures |r| >= 1 && r[0] == n
    decreases n, 1
  {
    [n] + FlatAll(n.children)
  }

  function FlatAll(cs: seq<Node>): seq<Node>
    decreases cs, 0
  {
    if cs == [] then [] else Flat(cs[0]) + FlatAll(cs[1..])
  }

  /** BeautifulSoup's `.string`: the text of an element whose only content is
      one string, looked up through a single child element. */
  function StringOf(n: Node): Option<Text>
    decreases n
  {
    if n.children == [] then (if n.text == [] then None else Some(n.text))
    else if n.text == [] && |n.children| == 1 then StringOf(n.children[0])
    else None
  }

  /** `part in s` for Python strings. */
  predicate Contains(s: Text, part: Text)
    decreases |s|
  {
    |part| <= |s| && (s[..|part|] == part || Contains(s[1..], part))
  }

  /** Some class of the list contains `part`. */
  predicate AnyContains(classes: seq<Text>, part: Text) {
    classes != [] && (Contains(classes[0], part) || AnyContains(classes[1..], part))
  }

  predicate Matches(sel: Selector, n: Node) {
    && n.tag == sel.name
    && match sel
       case Tag(_) => true
       case TagClass(_, c) => c in n.classes
       case TagId(_, i) => n.id == Some(i)
       case TagString(_, s) => StringOf(n) == Some(s)
       case TagClassContains(_, p) => AnyContains(n.classes, p)
  }

  /** The first index in `[lo, hi)` whose element matches. */
  function FirstIn(es: seq<Node>, lo: nat, hi: nat, sel: Selector): (r: Option<nat>)
    requires hi <= |es|
    ensures r.Some? ==> lo <= r.value < hi && Matches(sel, es[r.value])
    ensures r.Some? ==> forall j :: lo <= j < r.value ==> !Matches(sel, es[j])
    ensures r.None? <==> forall j :: lo <= j < hi ==> !Matches(sel, es[j])
    decreases hi - lo
  {
    if lo >= hi then None
    else if Matches(sel, es[lo]) then Some(lo)
    else FirstIn(es, lo + 1, hi, sel)
  }

  /** Every index in `[lo, hi)` whose element matches (that they come in
      increasing order is `AllInSorted`, that none is missing `AllInComplete`). */
  function AllIn(es: seq<Node>, lo: nat, hi: nat, sel: Selector): (r: seq<nat>)
    requires hi <= |es|
    ensures forall k :: 0 <= k < |r| ==> lo <= r[k] < hi && Matches(sel, es[r[k]])
    decreases hi - lo
  {
    if lo >= hi then []
    else if Matches(sel, es[lo]) then [lo] + AllIn(es, lo + 1, hi, sel)
    else AllIn(es, lo + 1, hi, sel)
  }

  /** One past the last descendant of element `i` of the page. */
  function End(page: Node, i: nat): (e: nat)
    requires i < |Flat(page)|
    ensures i < e <= |Flat(page)|
    ensures e == i + |Flat(Flat(page)[i])|
  {
    FlatSubtree(page, i);
    i + |Flat(Flat(page)[i])|
  }

  /** `element.find(sel)`: the first descendant of element `i` that matches. */
  function Find(page: Node, i: nat, sel: Selector): (r: Option<nat>)
    requires i < |Flat(page)|
    ensures r.Some? ==> i < r.value < End(page, i) && Matches(sel, Flat(page)[r.value])
    ensures r.Some? ==> forall j :: i < j < r.value ==> !Matches(sel, Flat(page)[j])
    ensures r.None? <==> forall j :: i < j < End(page, i) ==> !Matches(sel, Flat(page)[j])
  {
    FirstIn(Flat(page), i + 1, End(page, i), sel)
  }

  /** `element.find_all(sel)`: the descendants of element `i` that match
      (in document order: `FindAllSorted`; none missing: `FindAllComplete`). */
  function FindAll(page: Node, i: nat, sel: Selector): (r: seq<nat>)
    requires i < |Flat(page)|
    ensures forall k :: 0 <= k < |r| ==> i < r[k] < End(page, i) && Matches(sel, Flat(page)[r[k]])
  {
    AllIn(Flat(page), i + 1, End(page, i), sel)
  }

  /** `element.find_next(sel)`: the first element after element `i` in the
      whole page that matches, inside the element's subtree or beyond it. */
  function FindNext(page: Node, i: nat, sel: Selector): (r: Option<nat>)
    requires i < |Flat(page)|
    ensures r.Some? ==> i < r.value < |Flat(page)| && Matches(sel, Flat(page)[r.value])
    ensures r.Some? ==> forall j :: i < j < r.value ==> !Matches(sel, Flat(page)[j])
    ensures r.None? <==> forall j :: i < j < |Flat(page)| ==> !Matches(sel, Flat(page)[j])
  {
    FirstIn(Flat(page), i + 1, |Flat(page)|, sel)
  }

  /** Every index is an element of the page. */
  predicate OnPage(page: Node, ids: seq<nat>) {
    forall k :: 0 <= k < |ids| ==> ids[k] < |Flat(page)|
  }

  /** No descendant of element `i` matches. */
  predicate Absent(page: Node, i: nat, sel: Selector)
    requires i < |Flat(page)|
  {
    forall j :: i < j < End(page, i) ==> !Matches(sel, Flat(page)[j])
  }

  /** `clean_html(str(element.find(sel)))` when the search finds something,
      and `''` when it does not: the shape of every optional field. */
  function FieldText(page: Node, i: nat, sel: Selector): (r: Text)
    requires i < |Flat(page)|
    ensures NoSurrogate(r)
    ensures Absent(page, i, sel) ==> r == []
  {
    match Find(page, i, sel)
    case None => []
    case Some(j) => Clean(page, j)
  }

  /** `.text`: the concatenated text of a subtree, `script` and `style`
      subtrees excluded. */
  function GetText(n: Node): Text
    decreases n, 1
  {
    if n.tag == Str("script") || n.tag == Str("style") then []
    else n.text + GetTextAll(n.children)
  }

  function GetTextAll(cs: seq<Node>): Text
    decreases cs, 0
  {
    if cs == [] then [] else GetText(cs[0]) + GetTextAll(cs[1..])
  }

  /** `clean_html(str(element))` for element `i` of the page. */
  function Clean(page: Node, i: nat): (r: Text)
    requires i < |Flat(page)|
    ensures NoSurrogate(r)
  {
    CleanText(GetText(Flat(page)[i]))
  }

  // ---------------------------------------------------------------------
  // What the searches return

  /** No matching index of the range is missing from `AllIn`. */
  lemma {:induction false} AllInComplete(es: seq<Node>, lo: nat, hi: nat, sel: Selector)
    requires hi <= |es|
    ensures forall j :: lo <= j < hi && Matches(sel, es[j]) ==> j in AllIn(es, lo, hi, sel)
    decreases hi - lo
  {
    if lo < hi {
      AllInComplete(es, lo + 1, hi, sel);
    }
  }

  /** `AllIn` lists its indices in increasing order. */
  lemma {:induction false} AllInSorted(es: seq<Node>, lo: nat, hi: nat, sel: Selector)
    requires hi <= |es|
    ensures forall k, k' :: 0 <= k < k' < |AllIn(es, lo, hi, sel)| ==> AllIn(es, lo, hi, sel)[k] < AllIn(es, lo, hi, sel)[k']
    decreases hi - lo
  {
    if lo < hi {
      AllInSorted(es, lo + 1, hi, sel);
    }
  }

  /** `find_all` returns its elements in document order. */
  lemma FindAllSorted(page: Node, i: nat, sel: Selector)
    requires i < |Flat(page)|
    ensures forall k, k' :: 0 <= k < k' < |FindAll(page, i, sel)| ==> FindAll(page, i, sel)[k] < FindAll(page, i, sel)[k']
  {
    AllInSorted(Flat(page), i + 1, End(page, i), sel);
  }

  /** `find_all` misses no matching descendant. */
  lemma FindAllComplete(page: Node, i: nat, sel: Selector)
    requires i < |Flat(page)|
    ensures forall j :: i < j < End(page, i) && Matches(sel, Flat(page)[j]) ==> j in FindAll(page, i, sel)
  {
    AllInComplete(Flat(page), i + 1, End(page, i), sel);
  }

  /** The root is the document: every other element lies below it. */
  lemma EndOfRoot(page: Node)
    ensures End(page, 0) == |Flat(page)|
  {
  }

  /** The converse of `Find`'s contract: the first matching descendant is
      what `find` returns. */
  lemma FindIsFirst(page: Node, i: nat, sel: Selector, j: nat)
    requires i < j < |Flat(page)| && j < End(page, i) && Matches(sel, Flat(page)[j])
    requires forall j' :: i < j' < j ==> !Matches(sel, Flat(page)[j'])
    ensures Find(page, i, sel) == Some(j)
  {
  }

  /** Likewise for `find_next`. */
  lemma FindNextIsFirst(page: Node, i: nat, sel: Selector, j: nat)
    requires i < j < |Flat(page)| && Matches(sel, Flat(page)[j])
    requires forall j' :: i < j' < j ==> !Matches(sel, Flat(page)[j'])
    ensures FindNext(page, i, sel) == Some(j)
  {
  }

  /** A field found at its first matching descendant `j` is the cleaned text
      of `j`. */
  lemma FieldTextAt(page: Node, i: nat, sel: Selector, j: nat)
    requires i < j < |Flat(page)| && j < End(page, i) && Matches(sel, Flat(page)[j])
    requires forall j' :: i < j' < j ==> !Matches(sel, Flat(page)[j'])
    ensures FieldText(page, i, sel) == Clean(page, j)
  {
    FindIsFirst(page, i, sel, j);
  }

  // ---------------------------------------------------------------------
  // The descendants of an element are contiguous in document order

  /** In preorder, the subtree of the element at `g` occupies exactly the
      indices `g .. g + Size - 1`, in its own preorder. */
  lemma {:induction false} FlatSubtree(n: Node, g: nat)
    requires g < |Flat(n)|
    ensures g + |Flat(Flat(n)[g])| <= |Flat(n)|
    ensures Flat(n)[g..g + |Flat(Flat(n)[g])|] == Flat(Flat(n)[g])
    decreases n, 1
  {
    var f := Flat(n);
    if g == 0 {
      assert f[0..|f|] == f;
    } else {
      var rest := FlatAll(n.children);
      assert f == [n] + rest;
      FlatAllSubtree(n.children, g - 1);
      var e := rest[g - 1];
      assert f[g] == e;
      assert f[g..g + |Flat(e)|] == rest[g - 1..g - 1 + |Flat(e)|];
    }
  }

  lemma {:induction false} FlatAllSubtree(cs: seq<Node>, g: nat)
    requires g < |FlatAll(cs)|
    ensures g + |Flat(FlatAll(cs)[g])| <= |FlatAll(cs)|
    ensures FlatAll(cs)[g..g + |Flat(FlatAll(cs)[g])|] == Flat(FlatAll(cs)[g])
    decreases cs, 0
  {
    var f := FlatAll(cs);
    var h := Flat(cs[0]);
    var rest := FlatAll(cs[1..]);
    assert f == h + rest;
    if g < |h| {
      FlatSubtree(cs[0], g);
      var e := h[g];
      assert f[g] == e;
      assert f[g..g + |Flat(e)|] == h[g..g + |Flat(e)|];
    } else {
      FlatAllSubtree(cs[1..], g - |h|);
      var e := rest[g - |h|];
      assert f[g] == e;
      assert f[g..g + |Flat(e)|] == rest[g - |h|..g - |h| + |Flat(e)|];
    }
  }
}
