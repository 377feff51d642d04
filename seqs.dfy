/** Sequence facts stated once for any element type, so that using them
    costs no reasoning about the elements. */
module Seqs {

  /** The concatenation of `parts`, in order: the shape of every loop that
      appends zero or more items per element it visits. */
  function Concat<T>(parts: seq<seq<T>>): seq<T> {
    if parts == [] then [] else Concat(parts[..|parts| - 1]) + parts[|parts| - 1]
  }

  /** An item is in the concatenation exactly when it is in one of the parts. */
  lemma {:induction false} ConcatIn<T>(parts: seq<seq<T>>, x: T)
    ensures x in Concat(parts) <==> exists k :: 0 <= k < |parts| && x in parts[k]
  {
    if parts != [] {
      var n := |parts| - 1;
      var init := parts[..n];
      ConcatIn(init, x);
      if x in Concat(parts) && x !in parts[n] {
        var k :| 0 <= k < |init| && x in init[k];
        assert parts[k] == init[k];
      }
      if exists k :: 0 <= k < |parts| && x in parts[k] {
        var k :| 0 <= k < |parts| && x in parts[k];
        if k < n {
          assert init[k] == parts[k];
        }
      }
    }
  }

  /** Every item of the concatenation has a property all parts' items have. */
  lemma ConcatKeeps<T>(parts: seq<seq<T>>, p: T -> bool)
    requires forall k, x :: 0 <= k < |parts| && x in parts[k] ==> p(x)
    ensures forall i :: 0 <= i < |Concat(parts)| ==> p(Concat(parts)[i])
  {
    forall i | 0 <= i < |Concat(parts)|
      ensures p(Concat(parts)[i])
    {
      ConcatIn(parts, Concat(parts)[i]);
    }
  }

  /** Parts of at most one item give no more items than parts. */
  lemma {:induction false} ConcatLength<T>(parts: seq<seq<T>>)
    requires forall k :: 0 <= k < |parts| ==> |parts[k]| <= 1
    ensures |Concat(parts)| <= |parts|
  {
    if parts != [] {
      ConcatLength(parts[..|parts| - 1]);
    }
  }

  /** Concatenation distributes over appending parts: order is kept. */
  lemma {:induction false} ConcatAppend<T>(a: seq<seq<T>>, b: seq<seq<T>>)
    ensures Concat(a + b) == Concat(a) + Concat(b)
    decreases |b|
  {
    if b == [] {
      assert a + b == a;
    } else {
      var b' := b[..|b| - 1];
      assert (a + b)[..|a + b| - 1] == a + b';
      ConcatAppend(a, b');
    }
  }

  /** One more part, as a loop step sees it. */
  lemma ConcatSnoc<T>(parts: seq<seq<T>>, k: nat)
    requires k < |parts|
    ensures Concat(parts[..k + 1]) == Concat(parts[..k]) + parts[k]
  {
    assert parts[..k + 1][..k] == parts[..k];
  }

  /** `f(x)` for every `x` of `xs`, concatenated in order: a loop that writes
      one piece per element. */
  function Each<T, U>(xs: seq<T>, f: T -> seq<U>): (r: seq<U>) {
    Concat(Pieces(xs, f))
  }

  function Pieces<T, U>(xs: seq<T>, f: T -> seq<U>): (r: seq<seq<U>>)
    ensures |r| == |xs| && forall k :: 0 <= k < |xs| ==> r[k] == f(xs[k])
  {
    seq(|xs|, k requires 0 <= k < |xs| => f(xs[k]))
  }

  lemma PiecesAppend<T, U>(a: seq<T>, b: seq<T>, f: T -> seq<U>)
    ensures Pieces(a + b, f) == Pieces(a, f) + Pieces(b, f)
  {
    var ab := a + b;
    forall k | 0 <= k < |ab|
      ensures (Pieces(a, f) + Pieces(b, f))[k] == f(ab[k])
    {
      if k < |a| {
        assert ab[k] == a[k];
      } else {
        assert ab[k] == b[k - |a|];
      }
    }
  }

  /** The pieces of two runs are those of the first followed by those of
      the second. */
  lemma EachAppend<T, U>(a: seq<T>, b: seq<T>, f: T -> seq<U>)
    ensures Each(a + b, f) == Each(a, f) + Each(b, f)
  {
    PiecesAppend(a, b, f);
    ConcatAppend(Pieces(a, f), Pieces(b, f));
  }

  lemma EachOne<T, U>(x: T, f: T -> seq<U>)
    ensures Each([x], f) == f(x)
  {
    var ps := Pieces([x], f);
    assert ps[..|ps| - 1] == [];
    assert Concat(ps) == Concat([]) + ps[0];
  }

  /** One more element, as a loop step sees it. */
  lemma EachSnoc<T, U>(xs: seq<T>, k: nat, f: T -> seq<U>)
    requires k < |xs|
    ensures Each(xs[..k + 1], f) == Each(xs[..k], f) + f(xs[k])
  {
    PrefixSnoc(xs, k);
    EachAppend(xs[..k], [xs[k]], f);
    EachOne(xs[k], f);
  }

  /** The piece of element `k` sits between those before and those after. */
  lemma EachSplit<T, U>(xs: seq<T>, k: nat, f: T -> seq<U>)
    requires k < |xs|
    ensures Each(xs, f) == Each(xs[..k], f) + f(xs[k]) + Each(xs[k + 1..], f)
  {
    assert xs == xs[..k + 1] + xs[k + 1..];
    EachAppend(xs[..k + 1], xs[k + 1..], f);
    EachSnoc(xs, k, f);
  }

  /** Keeping or dropping each element of an increasing sequence, one part
      per element, gives an increasing sequence of its elements. */
  lemma {:induction false} ConcatPicksSorted(xs: seq<nat>, parts: seq<seq<nat>>)
    requires |parts| == |xs|
    requires forall k, k' :: 0 <= k < k' < |xs| ==> xs[k] < xs[k']
    requires forall k :: 0 <= k < |parts| ==> parts[k] == [] || parts[k] == [xs[k]]
    ensures forall i :: 0 <= i < |Concat(parts)| ==> Concat(parts)[i] in xs
    ensures forall i, i' :: 0 <= i < i' < |Concat(parts)| ==> Concat(parts)[i] < Concat(parts)[i']
  {
    if parts != [] {
      var n := |parts| - 1;
      var init := Concat(parts[..n]);
      ConcatPicksSorted(xs[..n], parts[..n]);
      assert Concat(parts) == init + parts[n];
      forall i | 0 <= i < |init|
        ensures init[i] < xs[n] && init[i] in xs
      {
        var k :| 0 <= k < n && xs[..n][k] == init[i];
        assert xs[k] == init[i];
      }
    }
  }

  /** Extending a prefix by one element. */
  lemma PrefixSnoc<T>(s: seq<T>, k: nat)
    requires k < |s|
    ensures s[..k + 1] == s[..k] + [s[k]]
  {
  }

  lemma PrefixAll<T>(s: seq<T>)
    ensures s[..|s|] == s
  {
  }

  lemma HeadTail<T>(s: seq<T>)
    requires s != []
    ensures s == [s[0]] + s[1..]
  {
  }
}
