/** Array helpers the source uses through `Array.prototype.find`,
    `Array.prototype.filter` and `Array.prototype.map`. */
module Seqs {
  import opened Wrappers

  predicate NoDuplicates<T(==)>(s: seq<T>) {
    forall i, j :: 0 <= i < j < |s| ==> s[i] != s[j]
  }

  /** `find`: the index of the first element satisfying `p`, if any. */
  function FindIndex<T>(s: seq<T>, p: T -> bool): (r: Option<nat>)
    ensures r.Some? ==> r.value < |s| && p(s[r.value])
    ensures r.Some? ==> forall j :: 0 <= j < r.value ==> !p(s[j])
    ensures r.None? <==> forall j :: 0 <= j < |s| ==> !p(s[j])
  {
    if s == [] then None
    else if p(s[0]) then Some(0)
    else match FindIndex(s[1..], p)
      case None => None
      case Some(k) => Some(k + 1)
  }

  /** `filter`: the elements satisfying `p`, in their original order. */
  function Filter<T>(s: seq<T>, p: T -> bool): (r: seq<T>)
    ensures |r| <= |s|
    ensures forall i :: 0 <= i < |r| ==> r[i] in s && p(r[i])
    ensures forall i :: 0 <= i < |s| && p(s[i]) ==> s[i] in r
    ensures r == [] <==> forall i :: 0 <= i < |s| ==> !p(s[i])
  {
    if s == [] then []
    else if p(s[0]) then [s[0]] + Filter(s[1..], p)
    else Filter(s[1..], p)
  }

  /** Filtering commutes with concatenation: this, with the single-element
      case, pins down that `Filter` keeps the original order. */
  lemma {:induction false} FilterAppend<T>(a: seq<T>, b: seq<T>, p: T -> bool)
    ensures Filter(a + b, p) == Filter(a, p) + Filter(b, p)
  {
    if a == [] {
      assert a + b == b;
    } else {
      assert (a + b)[1..] == a[1..] + b;
      FilterAppend(a[1..], b, p);
    }
  }

  /** A filter that every element passes keeps the whole sequence. */
  lemma {:induction false} FilterAll<T>(s: seq<T>, p: T -> bool)
    requires forall i :: 0 <= i < |s| ==> p(s[i])
    ensures Filter(s, p) == s
  {
    if s != [] {
      FilterAll(s[1..], p);
    }
  }

  /** The elements kept and the elements dropped together account for the
      whole sequence. */
  lemma {:induction false} FilterPartition<T>(s: seq<T>, p: T -> bool, q: T -> bool)
    requires forall i :: 0 <= i < |s| ==> q(s[i]) == !p(s[i])
    ensures |Filter(s, p)| + |Filter(s, q)| == |s|
  {
    if s != [] {
      FilterPartition(s[1..], p, q);
    }
  }

  function Map<T, U>(s: seq<T>, f: T -> U): (r: seq<U>)
    ensures |r| == |s|
    ensures forall i :: 0 <= i < |s| ==> r[i] == f(s[i])
  {
    seq(|s|, i requires 0 <= i < |s| => f(s[i]))
  }

  /** The images of the kept elements are exactly the images of the
      elements that pass the filter. */
  lemma MapFilterImages<T, U>(s: seq<T>, p: T -> bool, f: T -> U)
    ensures forall i :: 0 <= i < |s| && p(s[i]) ==> f(s[i]) in Map(Filter(s, p), f)
    ensures forall k :: 0 <= k < |Filter(s, p)| ==>
      exists i :: 0 <= i < |s| && p(s[i]) && f(s[i]) == Map(Filter(s, p), f)[k]
  {
    var kept := Filter(s, p);
    var images := Map(kept, f);
    forall i | 0 <= i < |s| && p(s[i])
      ensures f(s[i]) in images
    {
      var j :| 0 <= j < |kept| && kept[j] == s[i];
      assert images[j] == f(s[i]);
    }
    forall k | 0 <= k < |kept|
      ensures exists i :: 0 <= i < |s| && p(s[i]) && f(s[i]) == images[k]
    {
      var i :| 0 <= i < |s| && s[i] == kept[k];
    }
  }
}
