/** `Array.from(set)` for an ECMAScript `Set` filled by `add` calls: a `Set`
    iterates in insertion order and ignores the `add` of a value it already
    holds (ECMA-262, section 24.2), so the array holds each added value once,
    in the order of its first `add`. */
module OrderedSet {

  /** The values of `xs` as `Array.from` of a `Set` built by adding them in
      order: an element is appended only when it is not already there. */
  function Distinct<T(==)>(xs: seq<T>): (r: seq<T>)
    ensures NoDuplicates(r)
    ensures forall i :: 0 <= i < |r| ==> r[i] in xs
    ensures forall i :: 0 <= i < |xs| ==> xs[i] in r
    ensures |r| <= |xs|
  {
    if xs == [] then []
    else
      var init := xs[..|xs| - 1];
      var d := Distinct(init);
      var x := xs[|xs| - 1];
      assert forall i :: 0 <= i < |xs| - 1 ==> xs[i] == init[i];
      if x in d then d else d + [x]
  }

  predicate NoDuplicates<T(==)>(s: seq<T>) {
    forall i, j :: 0 <= i < j < |s| ==> s[i] != s[j]
  }

  /** The position of the first occurrence of `x` in `xs`. */
  function FirstIndex<T(==)>(xs: seq<T>, x: T): (i: nat)
    requires x in xs
    ensures i < |xs| && xs[i] == x
    ensures forall k :: 0 <= k < i ==> xs[k] != x
  {
    if xs[0] == x then 0 else 1 + FirstIndex(xs[1..], x)
  }

  /** The elements of a sequence appear in the order of their first occurrence
      in `xs`. */
  predicate InFirstSeenOrder<T(==)>(r: seq<T>, xs: seq<T>)
    requires forall x :: x in r ==> x in xs
  {
    forall i, j :: 0 <= i < j < |r| ==> FirstIndex(xs, r[i]) < FirstIndex(xs, r[j])
  }

  /** Adding an element at the end leaves the first occurrences of the earlier
      elements where they were. */
  lemma FirstIndexSnoc<T>(xs: seq<T>, x: T, y: T)
    requires y in xs
    ensures FirstIndex(xs + [x], y) == FirstIndex(xs, y)
  {
    var i, j := FirstIndex(xs + [x], y), FirstIndex(xs, y);
    assert (xs + [x])[j] == y;
    assert i <= j;
  }

  /** A new element added at the end is first seen there. */
  lemma FirstIndexNew<T>(xs: seq<T>, x: T)
    requires x !in xs
    ensures FirstIndex(xs + [x], x) == |xs|
  {
    var i := FirstIndex(xs + [x], x);
    assert (xs + [x])[|xs|] == x;
  }

  /** `Distinct` keeps the first-seen order of `xs`. */
  lemma {:induction false} DistinctFirstSeenOrder<T>(xs: seq<T>)
    ensures InFirstSeenOrder(Distinct(xs), xs)
  {
    if xs != [] {
      var init, x := xs[..|xs| - 1], xs[|xs| - 1];
      assert xs == init + [x];
      var d := Distinct(init);
      DistinctFirstSeenOrder(init);
      forall y | y in d ensures FirstIndex(xs, y) == FirstIndex(init, y) {
        FirstIndexSnoc(init, x, y);
      }
      if x !in d {
        FirstIndexNew(init, x);
        var r := d + [x];
        forall i, j | 0 <= i < j < |r| ensures FirstIndex(xs, r[i]) < FirstIndex(xs, r[j]) {
          assert r[i] in d;
          if j < |d| {
            assert r[j] in d;
          }
        }
      }
    }
  }

  /** `Distinct` is the only sequence without duplicates that holds exactly
      the elements of `xs` in first-seen order: any `r` with these three
      properties equals it. */
  lemma {:induction false} DistinctUnique<T>(xs: seq<T>, r: seq<T>)
    requires NoDuplicates(r)
    requires forall x :: x in r <==> x in xs
    requires InFirstSeenOrder(r, xs)
    ensures r == Distinct(xs)
    decreases |xs|, 1
  {
    if xs == [] {
      HeadIsMember(r);
    } else if xs[|xs| - 1] in xs[..|xs| - 1] {
      DistinctUniqueRepeated(xs, r);
    } else {
      DistinctUniqueFresh(xs, r);
    }
  }

  lemma HeadIsMember<T>(r: seq<T>)
    ensures r == [] || r[0] in r
  {
  }

  /** The last element of `xs` was seen before: `r` is the answer for the
      shorter sequence. */
  lemma {:induction false} DistinctUniqueRepeated<T>(xs: seq<T>, r: seq<T>)
    requires xs != [] && xs[|xs| - 1] in xs[..|xs| - 1]
    requires NoDuplicates(r)
    requires forall x :: x in r <==> x in xs
    requires InFirstSeenOrder(r, xs)
    ensures r == Distinct(xs)
    decreases |xs|, 0
  {
    var init, x := xs[..|xs| - 1], xs[|xs| - 1];
    assert xs == init + [x];
    assert forall y :: y in r <==> y in init;
    OrderWithoutLast(init, x, r);
    DistinctUnique(init, r);
  }

  /** The last element of `xs` is new: it closes `r`, and the rest of `r` is
      the answer for the shorter sequence. */
  lemma {:induction false} DistinctUniqueFresh<T>(xs: seq<T>, r: seq<T>)
    requires xs != [] && xs[|xs| - 1] !in xs[..|xs| - 1]
    requires NoDuplicates(r)
    requires forall x :: x in r <==> x in xs
    requires InFirstSeenOrder(r, xs)
    ensures r == Distinct(xs)
    decreases |xs|, 0
  {
    var init, x := xs[..|xs| - 1], xs[|xs| - 1];
    assert xs == init + [x];
    LastIsNew(init, x, r);
    var r' := r[..|r| - 1];
    assert r == r' + [x];
    DropLast(xs, init, r, r');
    OrderWithoutLast(init, x, r');
    DistinctUnique(init, r');
  }

  /** Dropping the last element of `r`, which is the new last element of
      `xs`, leaves exactly the elements of the rest of `xs`, in the same
      order. */
  lemma DropLast<T>(xs: seq<T>, init: seq<T>, r: seq<T>, r': seq<T>)
    requires xs != [] && init == xs[..|xs| - 1] && xs[|xs| - 1] !in init
    requires r != [] && r' == r[..|r| - 1] && r[|r| - 1] == xs[|xs| - 1]
    requires NoDuplicates(r)
    requires forall y :: y in r <==> y in xs
    requires InFirstSeenOrder(r, xs)
    ensures NoDuplicates(r')
    ensures forall y :: y in r' <==> y in init
    ensures InFirstSeenOrder(r', xs)
  {
    assert xs == init + [xs[|xs| - 1]];
    forall y ensures y in r' <==> y in init {
      if y in r' {
        var m :| 0 <= m < |r'| && r'[m] == y;
        assert r[m] == y;
      }
      if y in init {
        assert y in xs;
        var m :| 0 <= m < |r| && r[m] == y;
        assert m < |r'| && r'[m] == y;
      }
    }
    forall i, j | 0 <= i < j < |r'| ensures FirstIndex(xs, r'[i]) < FirstIndex(xs, r'[j]) {
      assert r'[i] == r[i] && r'[j] == r[j];
    }
  }

  /** An order by first occurrence in `init + [x]` among elements of `init`
      is the order by first occurrence in `init`. */
  lemma OrderWithoutLast<T>(init: seq<T>, x: T, r: seq<T>)
    requires forall y :: y in r ==> y in init
    requires InFirstSeenOrder(r, init + [x])
    ensures InFirstSeenOrder(r, init)
  {
    forall y | y in init ensures FirstIndex(init + [x], y) == FirstIndex(init, y) {
      FirstIndexSnoc(init, x, y);
    }
  }

  /** A value first seen at the very end of `init + [x]` comes last. */
  lemma LastIsNew<T>(init: seq<T>, x: T, r: seq<T>)
    requires x !in init
    requires forall y :: y in r <==> y in init + [x]
    requires NoDuplicates(r)
    requires InFirstSeenOrder(r, init + [x])
    ensures r != [] && r[|r| - 1] == x
  {
    FirstIndexNew(init, x);
    assert x in init + [x];
  }

  /** Adding what is already there changes nothing: `Distinct` is idempotent. */
  lemma DistinctIdempotent<T>(xs: seq<T>)
    ensures Distinct(Distinct(xs)) == Distinct(xs)
  {
    var d := Distinct(xs);
    DistinctFirstSeenOrder(xs);
    forall i, j | 0 <= i < j < |d| ensures FirstIndex(d, d[i]) < FirstIndex(d, d[j]) {
      DistinctIndexOf(d, i);
      DistinctIndexOf(d, j);
    }
    DistinctUnique(d, d);
  }

  lemma DistinctIndexOf<T>(d: seq<T>, i: nat)
    requires NoDuplicates(d) && i < |d|
    ensures FirstIndex(d, d[i]) == i
  {
  }
}
