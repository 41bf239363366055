/** Searching and filtering sequences, the shape of the Java streams
    `filter(...).findFirst()`, `filter(...).collect(...)` and `anyMatch(...)`. */
module Seqs {
  import opened Wrappers

  /** The position of the first element satisfying `p`, if any. */
  function FindIndex<T>(xs: seq<T>, p: T -> bool): (r: Option<nat>)
    ensures r.Some? ==> r.value < |xs| && p(xs[r.value])
    ensures r.Some? ==> forall k :: 0 <= k < r.value ==> !p(xs[k])
    ensures r.None? <==> forall k :: 0 <= k < |xs| ==> !p(xs[k])
  {
    if |xs| == 0 then None
    else if p(xs[0]) then Some(0)
    else match FindIndex(xs[1..], p)
      case None => None
      case Some(k) => Some(k + 1)
  }

  /** `stream().filter(p).findFirst()`. */
  function FindFirst<T(!new)>(xs: seq<T>, p: T -> bool): (r: Option<T>)
    ensures r.Some? ==> r.value in xs && p(r.value)
    ensures r.Some? ==> exists k :: 0 <= k < |xs| && xs[k] == r.value && forall j :: 0 <= j < k ==> !p(xs[j])
    ensures r.None? <==> forall x :: x in xs ==> !p(x)
  {
    match FindIndex(xs, p)
    case None => None
    case Some(k) => Some(xs[k])
  }

  /** The last element satisfying `p`, if any: what a `HashMap` holds under a key after every
      element satisfying `p` has been put under it, in order. */
  function FindLast<T(!new)>(xs: seq<T>, p: T -> bool): (r: Option<T>)
    ensures r.Some? ==> r.value in xs && p(r.value)
    ensures r.Some? ==> exists k :: 0 <= k < |xs| && xs[k] == r.value && forall j :: k < j < |xs| ==> !p(xs[j])
    ensures r.None? <==> forall x :: x in xs ==> !p(x)
    decreases |xs|
  {
    if |xs| == 0 then None
    else if p(xs[|xs| - 1]) then Some(xs[|xs| - 1])
    else
      var front := xs[..|xs| - 1];
      assert xs == front + [xs[|xs| - 1]];
      FindLast(front, p)
  }

  /** `stream().filter(p).collect(toList())`: the elements satisfying `p`, in order. */
  function Filter<T(!new)>(xs: seq<T>, p: T -> bool): (r: seq<T>)
    ensures |r| <= |xs|
    ensures forall x :: x in r <==> x in xs && p(x)
  {
    if |xs| == 0 then []
    else (if p(xs[0]) then [xs[0]] else []) + Filter(xs[1..], p)
  }

  /** Filtering keeps the order: the kept elements of `xs + ys` are those of `xs` followed by
      those of `ys`. */
  lemma {:induction false} FilterAppend<T(!new)>(xs: seq<T>, ys: seq<T>, p: T -> bool)
    ensures Filter(xs + ys, p) == Filter(xs, p) + Filter(ys, p)
    decreases |xs|
  {
    if |xs| > 0 {
      assert (xs + ys)[1..] == xs[1..] + ys;
      FilterAppend(xs[1..], ys, p);
    } else {
      assert xs + ys == ys;
    }
  }

  /** `stream().anyMatch(p)`. */
  predicate Any<T(!new)>(xs: seq<T>, p: T -> bool) {
    FindIndex(xs, p).Some?
  }

  lemma AnyIff<T(!new)>(xs: seq<T>, p: T -> bool)
    ensures Any(xs, p) <==> exists x :: x in xs && p(x)
  {
    if !Any(xs, p) {
      assert forall x :: x in xs ==> !p(x) by {
        forall x | x in xs
          ensures !p(x)
        {
          var k :| 0 <= k < |xs| && xs[k] == x;
        }
      }
    }
  }
}
