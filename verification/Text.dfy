/** Strings in Python's order: lexicographic by code point, a proper prefix first. */
module Text {
  import opened Sorting

  predicate Leq(a: string, b: string) {
    if a == "" then true
    else if b == "" then false
    else if a[0] != b[0] then a[0] < b[0]
    else Leq(a[1..], b[1..])
  }

  /** The order is that of the first character that differs; of a text and a longer one it begins, the shorter
      comes first. */
  lemma {:induction false} LeqMeans(a: string, b: string)
    ensures Leq(a, b) <==> a <= b || exists i :: 0 <= i < |a| && i < |b| && a[..i] == b[..i] && a[i] < b[i]
  {
    if a != "" && b != "" && a[0] == b[0] {
      LeqMeans(a[1..], b[1..]);
      assert a == [a[0]] + a[1..] && b == [b[0]] + b[1..];
      if i :| 0 <= i < |a[1..]| && i < |b[1..]| && a[1..][..i] == b[1..][..i] && a[1..][i] < b[1..][i] {
        assert a[..i + 1] == [a[0]] + a[1..][..i] && b[..i + 1] == [b[0]] + b[1..][..i];
      }
      if i :| 0 <= i < |a| && i < |b| && a[..i] == b[..i] && a[i] < b[i] {
        assert i > 0 && a[1..][..i - 1] == a[..i][1..] && b[1..][..i - 1] == b[..i][1..];
        assert a[1..][i - 1] < b[1..][i - 1];
      }
    } else if a != "" && b != "" {
      if a[0] < b[0] { assert a[..0] == b[..0]; }
      forall i | 0 < i < |a| && i < |b| ensures a[..i] != b[..i] { assert a[..i][0] != b[..i][0]; }
    }
  }

  lemma {:induction false} LeqReflexive(a: string)
    ensures Leq(a, a)
  {
    if a != "" { LeqReflexive(a[1..]); }
  }

  lemma {:induction false} LeqTotal(a: string, b: string)
    ensures Leq(a, b) || Leq(b, a)
  {
    if a != "" && b != "" && a[0] == b[0] { LeqTotal(a[1..], b[1..]); }
  }

  lemma {:induction false} LeqAntisymmetric(a: string, b: string)
    requires Leq(a, b) && Leq(b, a)
    ensures a == b
  {
    if a != "" {
      LeqAntisymmetric(a[1..], b[1..]);
      assert a == [a[0]] + a[1..] && b == [b[0]] + b[1..];
    }
  }

  lemma {:induction false} LeqTransitive(a: string, b: string, c: string)
    requires Leq(a, b) && Leq(b, c)
    ensures Leq(a, c)
  {
    if a != "" && a[0] == b[0] && b[0] == c[0] { LeqTransitive(a[1..], b[1..], c[1..]); }
  }

  /** Appending the same suffix to two equally long names does not change their order. */
  lemma {:induction false} LeqWithSuffix(a: string, b: string, suffix: string)
    requires |a| == |b|
    ensures Leq(a + suffix, b + suffix) == Leq(a, b)
  {
    if a == "" {
      LeqReflexive(suffix);
      assert a + suffix == suffix && b + suffix == suffix;
    } else {
      assert (a + suffix)[1..] == a[1..] + suffix && (b + suffix)[1..] == b[1..] + suffix;
      LeqWithSuffix(a[1..], b[1..], suffix);
    }
  }

  lemma TotalOnStrings(xs: seq<string>)
    ensures TotalOn(Leq, xs)
  {
    forall a, b | a in xs && b in xs ensures Leq(a, b) || Leq(b, a) { LeqTotal(a, b); }
    forall a, b | a in xs && b in xs && Leq(a, b) && Leq(b, a) ensures a == b { LeqAntisymmetric(a, b); }
    forall a, b, c | a in xs && b in xs && c in xs && Leq(a, b) && Leq(b, c) ensures Leq(a, c) {
      LeqTransitive(a, b, c);
    }
  }

  /** Ordering values by an injective text key is total on any list. */
  lemma TotalOnKeys<T(!new)>(key: T -> string, leq: (T, T) -> bool, xs: seq<T>)
    requires forall a, b :: leq(a, b) == Leq(key(a), key(b))
    requires forall a, b | a in xs && b in xs && key(a) == key(b) :: a == b
    ensures TotalOn(leq, xs)
  {
    forall a, b | a in xs && b in xs ensures leq(a, b) || leq(b, a) { LeqTotal(key(a), key(b)); }
    forall a, b | a in xs && b in xs && leq(a, b) && leq(b, a) ensures a == b {
      LeqAntisymmetric(key(a), key(b));
    }
    forall a, b, c | a in xs && b in xs && c in xs && leq(a, b) && leq(b, c) ensures leq(a, c) {
      LeqTransitive(key(a), key(b), key(c));
    }
  }

  /** A set of names has a least one. */
  lemma {:induction false} LeastExists(names: set<string>)
    requires names != {}
    ensures exists k :: k in names && forall other | other in names :: Leq(k, other)
  {
    var x :| x in names;
    LeqReflexive(x);
    if names != {x} {
      LeastExists(names - {x});
      var k :| k in names - {x} && forall other | other in names - {x} :: Leq(k, other);
      LeqTotal(x, k);
      var least := if Leq(x, k) then x else k;
      forall other | other in names ensures Leq(least, other) {
        if other != x && Leq(x, k) { LeqTransitive(x, k, other); }
      }
    }
  }

  function Least(names: set<string>): (k: string)
    requires names != {}
    ensures k in names && forall other | other in names :: Leq(k, other)
  {
    LeastExists(names);
    assert forall a, b | a in names && b in names && Leq(a, b) && Leq(b, a) :: a == b by {
      forall a, b | a in names && b in names && Leq(a, b) && Leq(b, a) ensures a == b { LeqAntisymmetric(a, b); }
    }
    var k :| k in names && forall other | other in names :: Leq(k, other);
    k
  }

  /** The names in ascending order, each once. */
  function Ascending(names: set<string>): (r: seq<string>)
    ensures forall k :: k in r <==> k in names
    ensures forall i, j | 0 <= i < j < |r| :: Leq(r[i], r[j]) && r[i] != r[j]
  {
    if names == {} then [] else
      var k := Least(names);
      [k] + Ascending(names - {k})
  }

  /** The ascending list is the only strictly ordered list of those names. */
  lemma AscendingUnique(names: set<string>, xs: seq<string>)
    requires forall k :: k in xs <==> k in names
    requires forall i, j | 0 <= i < j < |xs| :: Leq(xs[i], xs[j]) && xs[i] != xs[j]
    ensures xs == Ascending(names)
  {
    if xs == [] {
      assert names == {};
    } else {
      var first := xs[0];
      assert first in names;
      var k := Least(names);
      assert k in xs;
      LeqReflexive(first);
      assert Leq(first, k) by { var i :| 0 <= i < |xs| && xs[i] == k; }
      LeqAntisymmetric(first, k);
      RestOfNames(names, xs);
      AscendingUnique(names - {k}, xs[1..]);
    }
  }

  lemma RestOfNames(names: set<string>, xs: seq<string>)
    requires xs != [] && forall k :: k in xs <==> k in names
    requires forall i | 0 < i < |xs| :: xs[0] != xs[i]
    ensures forall n :: n in xs[1..] <==> n in names - {xs[0]}
  {
    forall n ensures n in xs[1..] <==> n in names - {xs[0]} {
      if n in names - {xs[0]} { var i :| 0 <= i < |xs| && xs[i] == n; assert xs[1..][i - 1] == n; }
    }
  }
}
