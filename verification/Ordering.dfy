/** The string order of `slices.Sort` and `strings.Compare`, and sorting by a string key.

    Go compares strings byte by byte; on valid UTF-8 that is the order of the code points,
    which is the order used here. */
module Ordering {

  predicate Leq(a: string, b: string) {
    a == [] || (b != [] && (a[0] < b[0] || (a[0] == b[0] && Leq(a[1..], b[1..]))))
  }

  /** It is the lexicographic order: `a` begins `b`, or has the smaller character where they
      first differ. */
  lemma {:induction false} LeqIsLexicographic(a: string, b: string)
    ensures Leq(a, b) <==> a <= b || exists k :: 0 <= k < |a| && k < |b| && a[..k] == b[..k] && a[k] < b[k]
  {
    if a != [] && b != [] {
      assert a == [a[0]] + a[1..] && b == [b[0]] + b[1..];
      if a[0] < b[0] {
        assert a[..0] == b[..0];
      } else if a[0] == b[0] {
        LeqIsLexicographic(a[1..], b[1..]);
        if k :| 0 <= k < |a| - 1 && k < |b| - 1 && a[1..][..k] == b[1..][..k] && a[1..][k] < b[1..][k] {
          assert a[..k + 1] == [a[0]] + a[1..][..k] && b[..k + 1] == [b[0]] + b[1..][..k];
        }
        if k :| 0 <= k < |a| && k < |b| && a[..k] == b[..k] && a[k] < b[k] {
          assert a[1..][..k - 1] == a[..k][1..] && b[1..][..k - 1] == b[..k][1..];
          assert a[1..][k - 1] < b[1..][k - 1];
        }
      }
    }
  }

  lemma {:induction false} LeqTotal(a: string, b: string)
    ensures Leq(a, b) || Leq(b, a)
  {
    if a != [] && b != [] && a[0] == b[0] {
      LeqTotal(a[1..], b[1..]);
    }
  }

  lemma {:induction false} LeqTransitive(a: string, b: string, c: string)
    requires Leq(a, b) && Leq(b, c)
    ensures Leq(a, c)
  {
    if a != [] && a[0] == b[0] && b[0] == c[0] {
      LeqTransitive(a[1..], b[1..], c[1..]);
    }
  }

  lemma {:induction false} LeqAntisymmetric(a: string, b: string)
    requires Leq(a, b) && Leq(b, a)
    ensures a == b
  {
    if a != [] {
      LeqAntisymmetric(a[1..], b[1..]);
      assert a == [a[0]] + a[1..] && b == [b[0]] + b[1..];
    }
  }

  ghost predicate SortedBy<T(!new)>(s: seq<T>, key: T -> string) {
    forall i, j :: 0 <= i < j < |s| ==> Leq(key(s[i]), key(s[j]))
  }

  function Insert<T>(x: T, s: seq<T>, key: T -> string): seq<T> {
    if s == [] || Leq(key(x), key(s[0])) then [x] + s else [s[0]] + Insert(x, s[1..], key)
  }

  /** `slices.Sort` and `slices.SortFunc`: the sorted rearrangement of a slice. */
  function SortBy<T>(s: seq<T>, key: T -> string): seq<T> {
    if s == [] then [] else Insert(s[0], SortBy(s[1..], key), key)
  }

  lemma {:induction false} InsertSorts<T(!new)>(x: T, s: seq<T>, key: T -> string)
    requires SortedBy(s, key)
    ensures SortedBy(Insert(x, s, key), key)
    ensures multiset(Insert(x, s, key)) == multiset(s) + multiset{x}
  {
    if s == [] {
    } else if Leq(key(x), key(s[0])) {
      forall j | 0 <= j < |s| ensures Leq(key(x), key(s[j])) {
        if j > 0 { LeqTransitive(key(x), key(s[0]), key(s[j])); }
      }
    } else {
      InsertSorts(x, s[1..], key);
      LeqTotal(key(x), key(s[0]));
      assert s == [s[0]] + s[1..];
      var rest := Insert(x, s[1..], key);
      forall j | 0 <= j < |rest| ensures Leq(key(s[0]), key(rest[j])) {
        assert rest[j] in multiset(rest);
        if rest[j] != x {
          assert rest[j] in s[1..];
        }
      }
    }
  }

  lemma {:induction false} SortBySorts<T(!new)>(s: seq<T>, key: T -> string)
    ensures SortedBy(SortBy(s, key), key)
    ensures multiset(SortBy(s, key)) == multiset(s)
  {
    if s != [] {
      SortBySorts(s[1..], key);
      InsertSorts(s[0], SortBy(s[1..], key), key);
      assert s == [s[0]] + s[1..];
    }
  }

  /** The first of a sorted slice has the least key. */
  lemma FirstIsLeast<T(!new)>(s: seq<T>, key: T -> string, x: T)
    requires SortedBy(s, key) && s != [] && x in multiset(s)
    ensures Leq(key(s[0]), key(x))
  {
    var i :| 0 <= i < |s| && s[i] == x;
    LeqTotal(key(x), key(x));
  }

  lemma Tail<T(!new)>(s: seq<T>, key: T -> string)
    requires s != [] && SortedBy(s, key)
    ensures SortedBy(s[1..], key) && multiset(s[1..]) == multiset(s) - multiset{s[0]}
    ensures s == [s[0]] + s[1..] && forall x :: x in s[1..] ==> x in s
  {
    assert s == [s[0]] + s[1..];
  }

  ghost predicate KeysDecide<T(!new)>(s: seq<T>, key: T -> string) {
    forall x, y :: x in s && y in s && key(x) == key(y) ==> x == y
  }

  /** Two sorted slices with the same elements are the same slice, provided equal keys mean
      equal elements. */
  lemma {:induction false} SortedUnique<T(!new)>(a: seq<T>, b: seq<T>, key: T -> string)
    requires SortedBy(a, key) && SortedBy(b, key)
    requires multiset(a) == multiset(b)
    requires KeysDecide(a, key)
    ensures a == b
  {
    assert |a| == |multiset(a)| == |multiset(b)| == |b|;
    if a != [] {
      assert a[0] in multiset(b) && b[0] in multiset(a);
      FirstIsLeast(a, key, b[0]);
      FirstIsLeast(b, key, a[0]);
      LeqAntisymmetric(key(a[0]), key(b[0]));
      assert a[0] == b[0];
      Tail(a, key);
      Tail(b, key);
      SortedUnique(a[1..], b[1..], key);
    }
  }

  function Itself(s: string): string { s }

  /** `slices.Sort` on a slice of strings. */
  function Sort(s: seq<string>): seq<string> { SortBy(s, Itself) }

  /** Comparing sorted copies is comparing multisets: the equality test of `Parse` and `Stop`. */
  lemma SortedCopiesEqualIffPermutation(a: seq<string>, b: seq<string>)
    ensures Sort(a) == Sort(b) <==> multiset(a) == multiset(b)
  {
    SortBySorts(a, Itself);
    SortBySorts(b, Itself);
    if multiset(a) == multiset(b) {
      SortedUnique(Sort(a), Sort(b), Itself);
    }
  }

  ghost predicate StrictlySorted(s: seq<string>) {
    forall i, j :: 0 <= i < j < |s| ==> Leq(s[i], s[j]) && s[i] != s[j]
  }

  ghost predicate Distinct<T>(s: seq<T>) {
    forall i, j :: 0 <= i < j < |s| ==> s[i] != s[j]
  }

  /** Being free of duplicates is a property of the multiset alone. */
  lemma {:induction false} DistinctIffCounts<T>(s: seq<T>)
    ensures Distinct(s) <==> forall x :: x in multiset(s) ==> multiset(s)[x] == 1
  {
    if s != [] {
      DistinctIffCounts(s[1..]);
      assert s == [s[0]] + s[1..];
      assert multiset(s) == multiset{s[0]} + multiset(s[1..]);
      if Distinct(s) {
        assert s[0] !in s[1..];
      }
      if forall x :: x in multiset(s) ==> multiset(s)[x] == 1 {
        assert s[0] in multiset(s);
        assert s[0] !in multiset(s[1..]);
        assert forall x :: x in multiset(s[1..]) ==> x in multiset(s) && multiset(s)[x] == 1;
        assert forall k :: 1 <= k < |s| ==> s[k] == s[1..][k - 1];
      }
    }
  }

  lemma SortByKeepsDistinct<T(!new)>(s: seq<T>, key: T -> string)
    requires Distinct(s)
    ensures SortedBy(SortBy(s, key), key) && Distinct(SortBy(s, key))
    ensures forall x :: x in SortBy(s, key) <==> x in s
  {
    SortBySorts(s, key);
    DistinctIffCounts(s);
    DistinctIffCounts(SortBy(s, key));
    assert forall x :: x in SortBy(s, key) <==> x in multiset(SortBy(s, key));
    assert forall x :: x in s <==> x in multiset(s);
  }

  lemma SortKeepsDistinct(values: seq<string>)
    requires Distinct(values)
    ensures StrictlySorted(Sort(values))
    ensures forall n :: n in Sort(values) <==> n in values
  {
    SortByKeepsDistinct(values, Itself);
    var sorted := Sort(values);
    forall i, j | 0 <= i < j < |sorted| ensures Leq(sorted[i], sorted[j]) {
      assert Leq(Itself(sorted[i]), Itself(sorted[j]));
    }
  }
}
