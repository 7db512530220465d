/** Insertion sort by an order, and the fact that makes a sorted list a normal form:
    under an order that is total on the elements, the sorted permutation is unique. */
module Sorting {

  /** Any two elements of `xs` compare, and comparison is transitive on them. */
  ghost predicate ComparableOn<T(!new)>(leq: (T, T) -> bool, xs: seq<T>) {
    && (forall a, b | a in xs && b in xs :: leq(a, b) || leq(b, a))
    && (forall a, b, c | a in xs && b in xs && c in xs && leq(a, b) && leq(b, c) :: leq(a, c))
  }

  /** The order is moreover antisymmetric on the elements of `xs`. */
  ghost predicate TotalOn<T(!new)>(leq: (T, T) -> bool, xs: seq<T>) {
    && ComparableOn(leq, xs)
    && forall a, b | a in xs && b in xs && leq(a, b) && leq(b, a) :: a == b
  }

  ghost predicate SortedBy<T>(leq: (T, T) -> bool, xs: seq<T>) {
    forall i, j | 0 <= i < j < |xs| :: leq(xs[i], xs[j])
  }

  predicate Distinct<T(==)>(xs: seq<T>) {
    forall i, j | 0 <= i < j < |xs| :: xs[i] != xs[j]
  }

  function Insert<T>(leq: (T, T) -> bool, x: T, xs: seq<T>): seq<T> {
    if xs == [] then [x]
    else if leq(x, xs[0]) then [x] + xs
    else [xs[0]] + Insert(leq, x, xs[1..])
  }

  function Sort<T>(leq: (T, T) -> bool, xs: seq<T>): seq<T> {
    if xs == [] then [] else Insert(leq, xs[0], Sort(leq, xs[1..]))
  }

  lemma {:induction false} InsertKeeps<T>(leq: (T, T) -> bool, x: T, xs: seq<T>)
    ensures multiset(Insert(leq, x, xs)) == multiset(xs) + multiset{x}
  {
    if xs != [] && !leq(x, xs[0]) {
      InsertKeeps(leq, x, xs[1..]);
      assert xs == [xs[0]] + xs[1..];
    }
  }

  lemma {:induction false} SortKeeps<T>(leq: (T, T) -> bool, xs: seq<T>)
    ensures multiset(Sort(leq, xs)) == multiset(xs)
    ensures |Sort(leq, xs)| == |xs|
  {
    if xs != [] {
      SortKeeps(leq, xs[1..]);
      InsertKeeps(leq, xs[0], Sort(leq, xs[1..]));
      assert xs == [xs[0]] + xs[1..];
    }
    assert |multiset(Sort(leq, xs))| == |multiset(xs)|;
  }

  lemma SameElements<T>(xs: seq<T>, ys: seq<T>)
    requires multiset(xs) == multiset(ys)
    ensures |xs| == |ys|
    ensures forall x :: x in xs <==> x in ys
  {
    assert |multiset(xs)| == |xs| && |multiset(ys)| == |ys|;
    forall x ensures x in xs <==> x in ys {
      assert x in xs <==> x in multiset(xs);
      assert x in ys <==> x in multiset(ys);
    }
  }

  lemma {:induction false} InsertSorted<T(!new)>(leq: (T, T) -> bool, x: T, xs: seq<T>)
    requires SortedBy(leq, xs) && ComparableOn(leq, [x] + xs)
    ensures SortedBy(leq, Insert(leq, x, xs))
  {
    if xs != [] {
      assert x in [x] + xs && xs[0] in [x] + xs;
      if leq(x, xs[0]) {
        forall j | 0 <= j < |xs| ensures leq(x, xs[j]) { assert xs[j] in [x] + xs; }
        LeadingLeast(leq, x, xs);
      } else {
        assert forall a :: a in [x] + xs[1..] ==> a in [x] + xs;
        InsertSorted(leq, x, xs[1..]);
        InsertKeeps(leq, x, xs[1..]);
        var rest := Insert(leq, x, xs[1..]);
        forall j | 0 <= j < |rest| ensures leq(xs[0], rest[j]) {
          assert rest[j] in multiset(xs[1..]) + multiset{x};
        }
        LeadingLeast(leq, xs[0], rest);
      }
    }
  }

  lemma LeadingLeast<T>(leq: (T, T) -> bool, x: T, xs: seq<T>)
    requires SortedBy(leq, xs) && forall j | 0 <= j < |xs| :: leq(x, xs[j])
    ensures SortedBy(leq, [x] + xs)
  {
  }

  lemma {:induction false} SortSorts<T(!new)>(leq: (T, T) -> bool, xs: seq<T>)
    requires ComparableOn(leq, xs)
    ensures SortedBy(leq, Sort(leq, xs))
  {
    if xs != [] {
      SortSorts(leq, xs[1..]);
      SortKeeps(leq, xs[1..]);
      var tail := Sort(leq, xs[1..]);
      SameElements(tail, xs[1..]);
      assert forall a :: a in [xs[0]] + tail ==> a in xs;
      InsertSorted(leq, xs[0], tail);
    }
  }

  /** Two sorted lists with the same elements are the same list. */
  lemma {:induction false} SortedUnique<T(!new)>(leq: (T, T) -> bool, xs: seq<T>, ys: seq<T>)
    requires TotalOn(leq, xs)
    requires SortedBy(leq, xs) && SortedBy(leq, ys)
    requires multiset(xs) == multiset(ys)
    ensures xs == ys
  {
    SameElements(xs, ys);
    if xs != [] {
      SameLeast(leq, xs, ys);
      TailOf(leq, xs);
      TailOf(leq, ys);
      SortedUnique(leq, xs[1..], ys[1..]);
    }
  }

  lemma TailOf<T(!new)>(leq: (T, T) -> bool, xs: seq<T>)
    requires xs != []
    ensures xs == [xs[0]] + xs[1..] && multiset(xs[1..]) == multiset(xs) - multiset{xs[0]}
    ensures TotalOn(leq, xs) ==> TotalOn(leq, xs[1..])
    ensures SortedBy(leq, xs) ==> SortedBy(leq, xs[1..])
  {
    assert xs == [xs[0]] + xs[1..];
  }

  lemma SameLeast<T(!new)>(leq: (T, T) -> bool, xs: seq<T>, ys: seq<T>)
    requires TotalOn(leq, xs) && SortedBy(leq, xs) && SortedBy(leq, ys)
    requires xs != [] && ys != [] && forall x :: x in xs <==> x in ys
    ensures xs[0] == ys[0]
  {
    var a, b := xs[0], ys[0];
    assert a in ys && b in xs;
    var i :| 0 <= i < |xs| && xs[i] == b;
    var j :| 0 <= j < |ys| && ys[j] == a;
    assert leq(a, a) && leq(b, b);
    assert leq(a, b) && leq(b, a);
  }

  /** Sorting is a normal form of the multiset of elements. */
  lemma SortNormalForm<T(!new)>(leq: (T, T) -> bool, xs: seq<T>, ys: seq<T>)
    requires TotalOn(leq, xs) && TotalOn(leq, ys)
    ensures Sort(leq, xs) == Sort(leq, ys) <==> multiset(xs) == multiset(ys)
  {
    SortKeeps(leq, xs);
    SortKeeps(leq, ys);
    if multiset(xs) == multiset(ys) {
      SortSorts(leq, xs);
      SortSorts(leq, ys);
      SameElements(Sort(leq, xs), xs);
      SortedUnique(leq, Sort(leq, xs), Sort(leq, ys));
    }
  }

  lemma {:induction false} DistinctMultiset<T>(xs: seq<T>)
    requires Distinct(xs)
    ensures forall x :: multiset(xs)[x] == if x in xs then 1 else 0
  {
    if xs != [] {
      DistinctMultiset(xs[1..]);
      assert xs == [xs[0]] + xs[1..];
      assert multiset(xs) == multiset{xs[0]} + multiset(xs[1..]);
      assert xs[0] !in xs[1..];
    }
  }

  /** Two lists without repetition have the same elements exactly when they are permutations. */
  lemma DistinctPermutation<T>(xs: seq<T>, ys: seq<T>)
    requires Distinct(xs)
    requires Distinct(ys)
    ensures multiset(xs) == multiset(ys) <==> forall x :: x in xs <==> x in ys
  {
    DistinctMultiset(xs);
    DistinctMultiset(ys);
    if multiset(xs) == multiset(ys) { SameElements(xs, ys); }
  }

  /** Removing the occurrence at `i` removes one copy. */
  lemma RemoveAt<T>(xs: seq<T>, i: nat)
    requires i < |xs|
    ensures multiset(xs[..i] + xs[i + 1..]) == multiset(xs) - multiset{xs[i]}
  {
    assert xs == xs[..i] + [xs[i]] + xs[i + 1..];
  }

  function Keeping<T>(keep: T -> bool, xs: seq<T>): seq<T> {
    if xs == [] then []
    else if keep(xs[0]) then [xs[0]] + Keeping(keep, xs[1..])
    else Keeping(keep, xs[1..])
  }

  lemma {:induction false} InsertStable<T(!new)>(leq: (T, T) -> bool, keep: T -> bool, x: T, xs: seq<T>)
    requires forall a, b | keep(a) && keep(b) :: leq(a, b)
    ensures Keeping(keep, Insert(leq, x, xs)) == if keep(x) then [x] + Keeping(keep, xs) else Keeping(keep, xs)
  {
    if xs == [] || leq(x, xs[0]) {
      assert ([x] + xs)[1..] == xs;
    } else {
      InsertStable(leq, keep, x, xs[1..]);
      assert Insert(leq, x, xs)[1..] == Insert(leq, x, xs[1..]);
    }
  }

  /** The sort is stable: elements that tie keep their order. */
  lemma {:induction false} SortStable<T(!new)>(leq: (T, T) -> bool, keep: T -> bool, xs: seq<T>)
    requires forall a, b | keep(a) && keep(b) :: leq(a, b)
    ensures Keeping(keep, Sort(leq, xs)) == Keeping(keep, xs)
  {
    if xs != [] {
      SortStable(leq, keep, xs[1..]);
      InsertStable(leq, keep, xs[0], Sort(leq, xs[1..]));
    }
  }
}
