/** Sequence helpers shared by the model: the stream filters and `findFirst` searches of the source. */
module Seqs {
  import opened Wrappers

  /** The elements of `s` that satisfy `p`, in their order in `s` (Java's `stream().filter(p)`). */
  function Filter<T(!new)>(s: seq<T>, p: T -> bool): (r: seq<T>)
    ensures |r| <= |s|
    ensures forall x :: x in r <==> x in s && p(x)
  {
    if s == [] then [] else (if p(s[0]) then [s[0]] else []) + Filter(s[1..], p)
  }

  /** Filtering distributes over concatenation: it keeps the relative order of what it keeps. */
  lemma {:induction false} FilterConcat<T(!new)>(a: seq<T>, b: seq<T>, p: T -> bool)
    ensures Filter(a + b, p) == Filter(a, p) + Filter(b, p)
  {
    if a == [] {
      assert a + b == b;
    } else {
      assert (a + b)[1..] == a[1..] + b;
      FilterConcat(a[1..], b, p);
    }
  }

  /**
   * Taking out an element the filter drops and appending another one it drops leaves the
   * filtered sequence as it was.
   */
  lemma {:induction false} FilterMoveDropped<T(!new)>(s: seq<T>, i: nat, g: T, p: T -> bool)
    requires i < |s| && !p(s[i]) && !p(g)
    ensures Filter(s[..i] + s[i + 1..] + [g], p) == Filter(s, p)
  {
    FilterAppend(s[..i] + s[i + 1..], g, p);
    assert Filter(s[..i] + s[i + 1..], p) + [] == Filter(s[..i] + s[i + 1..], p);
    FilterDropAt(s, i, p);
  }

  /** Filtering a sequence with one more element at the end adds that element if it is kept. */
  lemma {:induction false} FilterAppend<T(!new)>(t: seq<T>, g: T, p: T -> bool)
    ensures Filter(t + [g], p) == Filter(t, p) + (if p(g) then [g] else [])
  {
    FilterSingleton(g, p);
    FilterConcat(t, [g], p);
  }

  /** Taking out an element the filter drops changes nothing. */
  lemma {:induction false} FilterDropAt<T(!new)>(s: seq<T>, i: nat, p: T -> bool)
    requires i < |s| && !p(s[i])
    ensures Filter(s[..i] + s[i + 1..], p) == Filter(s, p)
  {
    var before, after := s[..i], s[i + 1..];
    assert s == before + ([s[i]] + after);
    FilterSingleton(s[i], p);
    FilterConcat([s[i]], after, p);
    assert Filter([s[i]] + after, p) == Filter(after, p);
    FilterConcat(before, [s[i]] + after, p);
    FilterConcat(before, after, p);
  }

  /** Filtering twice is filtering once by both predicates. */
  lemma {:induction false} FilterFilter<T(!new)>(s: seq<T>, p: T -> bool, q: T -> bool, pq: T -> bool)
    requires forall x :: pq(x) == (p(x) && q(x))
    ensures Filter(Filter(s, p), q) == Filter(s, pq)
  {
    if s != [] {
      FilterFilter(s[1..], p, q, pq);
      if p(s[0]) {
        assert Filter(s, p) == [s[0]] + Filter(s[1..], p);
        var fp := Filter(s, p);
        assert fp[0] == s[0] && fp[1..] == Filter(s[1..], p);
        assert Filter(fp, q) == (if q(s[0]) then [s[0]] else []) + Filter(fp[1..], q);
      } else {
        assert Filter(s, p) == Filter(s[1..], p);
      }
    }
  }

  /** A relation that holds pointwise between two sequences still holds after a pair is put in front. */
  lemma {:induction false} PointwiseCons<A, B>(x: A, xs: seq<A>, y: B, ys: seq<B>, rel: (A, B) -> bool)
    requires |xs| == |ys| && rel(x, y)
    requires forall k :: 0 <= k < |xs| ==> rel(xs[k], ys[k])
    ensures forall k :: 0 <= k < |xs| + 1 ==> rel(([x] + xs)[k], ([y] + ys)[k])
  {
    forall k | 0 <= k < |xs| + 1
      ensures rel(([x] + xs)[k], ([y] + ys)[k])
    {
      if k > 0 {
        assert ([x] + xs)[k] == xs[k - 1] && ([y] + ys)[k] == ys[k - 1];
      }
    }
  }

  /** A filter that drops every element leaves nothing. */
  lemma {:induction false} FilterNone<T(!new)>(s: seq<T>, p: T -> bool)
    requires forall x :: x in s ==> !p(x)
    ensures Filter(s, p) == []
  {
    if s != [] {
      assert forall x :: x in s[1..] ==> x in s;
      FilterNone(s[1..], p);
    }
  }

  /** A filter that keeps every element changes nothing. */
  lemma {:induction false} FilterAll<T(!new)>(s: seq<T>, p: T -> bool)
    requires forall x :: x in s ==> p(x)
    ensures Filter(s, p) == s
  {
    if s != [] {
      assert forall x :: x in s[1..] ==> x in s;
      FilterAll(s[1..], p);
    }
  }

  /** The index of the first element of `s` that satisfies `p`, if any (`findFirst`). */
  function FirstIndex<T>(s: seq<T>, p: T -> bool): (r: Option<nat>)
    ensures r.None? <==> forall i :: 0 <= i < |s| ==> !p(s[i])
    ensures r.Some? ==> r.value < |s| && p(s[r.value]) && forall i :: 0 <= i < r.value ==> !p(s[i])
  {
    if s == [] then None
    else if p(s[0]) then Some(0)
    else match FirstIndex(s[1..], p)
      case None => None
      case Some(i) => Some(i + 1)
  }

  /** An index whose element is the first to satisfy `p` is the one `FirstIndex` finds. */
  lemma {:induction false} FirstIndexIs<T>(s: seq<T>, p: T -> bool, i: nat)
    requires i < |s| && p(s[i])
    requires forall k :: 0 <= k < i ==> !p(s[k])
    ensures FirstIndex(s, p) == Some(i)
  {
    if i > 0 {
      FirstIndexIs(s[1..], p, i - 1);
    }
  }

  /** Filtering a one-element sequence keeps the element exactly when it satisfies `p`. */
  lemma {:induction false} FilterSingleton<T(!new)>(x: T, p: T -> bool)
    ensures Filter([x], p) == if p(x) then [x] else []
  {
    assert [x][1..] == [];
  }

  /** The first element of `s` that satisfies `p`, or None (`findFirst().orElse(null)`). */
  function FirstMatch<T>(s: seq<T>, p: T -> bool): (r: Option<T>)
    ensures r.None? <==> forall i :: 0 <= i < |s| ==> !p(s[i])
    ensures r.Some? ==> exists i :: 0 <= i < |s| && s[i] == r.value && p(s[i]) && forall j :: 0 <= j < i ==> !p(s[j])
  {
    match FirstIndex(s, p)
    case None => None
    case Some(i) => Some(s[i])
  }

  lemma {:induction false} ConcatAssociative<T>(a: seq<T>, b: seq<T>, c: seq<T>)
    ensures (a + b) + c == a + (b + c)
  {
  }

  /** `x` in front of a list being built, unless building it failed. */
  function Prepend<T, E>(x: T, r: Result<seq<T>, E>): (q: Result<seq<T>, E>)
    ensures q.Failure? <==> r.Failure?
    ensures q.Success? ==> q.value == [x] + r.value
  {
    if r.Failure? then r else Success([x] + r.value)
  }

  /** What a loop that already collected `acc` returns when the rest of its input yields `r`. */
  function Prefixed<T, E>(acc: seq<T>, r: Result<seq<T>, E>): Result<seq<T>, E> {
    if r.Failure? then Failure(r.error) else Success(acc + r.value)
  }

  lemma {:induction false} PrefixedNil<T, E>(r: Result<seq<T>, E>)
    ensures Prefixed([], r) == r
  {
    if r.Success? {
      assert [] + r.value == r.value;
    }
  }

  lemma {:induction false} PrefixedPrepend<T, E>(acc: seq<T>, x: T, r: Result<seq<T>, E>)
    ensures Prefixed(acc, Prepend(x, r)) == Prefixed(acc + [x], r)
  {
    if r.Success? {
      assert acc + ([x] + r.value) == (acc + [x]) + r.value;
    }
  }
}
