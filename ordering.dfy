/** The orders the font code sorts by, and what JavaScript's built-in sorts
    produce with them. `Array.prototype.sort` is modelled by its result: for a
    strict total order and duplicate-free output that result is unique
    (`StrictlyIncreasingUnique`), and for sorting records by a string key the
    model is a stable insertion sort. */
module Ordering {

  /** Code-point lexicographic order on strings, standing in for
      `localeCompare` and for the default string comparison of `sort()`. */
  predicate LexLess(a: string, b: string)
    decreases |a|
  {
    if a == [] then b != []
    else if b == [] then false
    else a[0] < b[0] || (a[0] == b[0] && LexLess(a[1..], b[1..]))
  }

  lemma {:induction false} LexLessIrreflexive(a: string)
    ensures !LexLess(a, a)
    decreases |a|
  {
    if a != [] {
      LexLessIrreflexive(a[1..]);
    }
  }

  lemma {:induction false} LexLessTransitive(a: string, b: string, c: string)
    requires LexLess(a, b) && LexLess(b, c)
    ensures LexLess(a, c)
    decreases |a|
  {
    if a != [] && b != [] && c != [] && a[0] == b[0] && b[0] == c[0] {
      LexLessTransitive(a[1..], b[1..], c[1..]);
    }
  }

  lemma {:induction false} LexLessTotal(a: string, b: string)
    ensures a == b || LexLess(a, b) || LexLess(b, a)
    decreases |a|
  {
    if a != [] && b != [] && a[0] == b[0] {
      LexLessTotal(a[1..], b[1..]);
      if a[1..] == b[1..] {
        assert a == [a[0]] + a[1..] && b == [b[0]] + b[1..];
      }
    }
  }

  /** Numeric order, as `sort((a, b) => a - b)` uses it. */
  predicate IntLess(a: int, b: int) { a < b }

  ghost predicate IsStrictTotalOrder<T(!new)>(less: (T, T) -> bool) {
    && (forall a :: !less(a, a))
    && (forall a, b, c :: less(a, b) && less(b, c) ==> less(a, c))
    && (forall a, b :: a == b || less(a, b) || less(b, a))
  }

  lemma LexLessIsStrictTotalOrder()
    ensures IsStrictTotalOrder(LexLess)
  {
    forall a ensures !LexLess(a, a) {
      LexLessIrreflexive(a);
    }
    forall a, b, c | LexLess(a, b) && LexLess(b, c) ensures LexLess(a, c) {
      LexLessTransitive(a, b, c);
    }
    forall a, b ensures a == b || LexLess(a, b) || LexLess(b, a) {
      LexLessTotal(a, b);
    }
  }

  lemma IntLessIsStrictTotalOrder()
    ensures IsStrictTotalOrder(IntLess)
  {
  }

  predicate StrictlyIncreasing<T>(s: seq<T>, less: (T, T) -> bool) {
    forall i, j :: 0 <= i < j < |s| ==> less(s[i], s[j])
  }

  /** `x` put into its place in a strictly increasing sequence, unless it is
      already there. */
  function InsertUnique<T(==)>(x: T, s: seq<T>, less: (T, T) -> bool): seq<T> {
    if s == [] then [x]
    else if x == s[0] then s
    else if less(x, s[0]) then [x] + s
    else [s[0]] + InsertUnique(x, s[1..], less)
  }

  /** The elements of `s` in increasing order, each once: `[...new Set(s)]`
      after sorting, or `Array.from(new Set(s)).sort()`. */
  function SortedSet<T(==)>(s: seq<T>, less: (T, T) -> bool): seq<T> {
    if s == [] then [] else InsertUnique(s[0], SortedSet(s[1..], less), less)
  }

  lemma {:induction false} InsertUniqueSpec<T(!new)>(x: T, s: seq<T>, less: (T, T) -> bool)
    requires IsStrictTotalOrder(less) && StrictlyIncreasing(s, less)
    ensures StrictlyIncreasing(InsertUnique(x, s, less), less)
    ensures forall y :: y in InsertUnique(x, s, less) <==> y == x || y in s
  {
    if s != [] && x != s[0] && !less(x, s[0]) {
      InsertUniqueSpec(x, s[1..], less);
      var r := InsertUnique(x, s[1..], less);
      forall j | 0 <= j < |r| ensures less(s[0], r[j]) {
        assert r[j] in r;
      }
      assert s == [s[0]] + s[1..];
    }
  }

  /** The result is strictly increasing and holds exactly the elements of `s`. */
  lemma {:induction false} SortedSetSpec<T(!new)>(s: seq<T>, less: (T, T) -> bool)
    requires IsStrictTotalOrder(less)
    ensures StrictlyIncreasing(SortedSet(s, less), less)
    ensures forall y :: y in SortedSet(s, less) <==> y in s
  {
    if s != [] {
      SortedSetSpec(s[1..], less);
      InsertUniqueSpec(s[0], SortedSet(s[1..], less), less);
      assert s == [s[0]] + s[1..];
    }
  }

  /** Two strictly increasing sequences with the same elements are equal, so
      any correct sort followed by de-duplication gives `SortedSet`. */
  lemma {:induction false} StrictlyIncreasingUnique<T(!new)>(a: seq<T>, b: seq<T>, less: (T, T) -> bool)
    requires IsStrictTotalOrder(less)
    requires StrictlyIncreasing(a, less) && StrictlyIncreasing(b, less)
    requires forall y :: y in a <==> y in b
    ensures a == b
    decreases |a|
  {
    assert a != [] <==> b != [] by {
      if a != [] {
        assert a[0] in b;
      }
      if b != [] {
        assert b[0] in a;
      }
    }
    if a != [] {
      assert a[0] == b[0] by {
        assert a[0] in b && b[0] in a;
        var i :| 0 <= i < |b| && b[i] == a[0];
        var j :| 0 <= j < |a| && a[j] == b[0];
      }
      forall y ensures y in a[1..] <==> y in b[1..] {
        if y in a[1..] {
          var k :| 1 <= k < |a| && a[k] == y;
          assert y in b;
          assert y != b[0] by { assert less(a[0], a[k]); }
          assert b == [b[0]] + b[1..];
        }
        if y in b[1..] {
          var k :| 1 <= k < |b| && b[k] == y;
          assert y in a;
          assert y != a[0] by { assert less(b[0], b[k]); }
          assert a == [a[0]] + a[1..];
        }
      }
      StrictlyIncreasingUnique(a[1..], b[1..], less);
      assert a == [a[0]] + a[1..] && b == [b[0]] + b[1..];
    }
  }

  /** Sorted by a string key: no later element has a smaller key. */
  predicate SortedBy<T>(s: seq<T>, key: T -> string) {
    forall i, j :: 0 <= i < j < |s| ==> !LexLess(key(s[j]), key(s[i]))
  }

  /** `x` put before the first element whose key is not smaller than its own. */
  function InsertBy<T>(x: T, s: seq<T>, key: T -> string): seq<T> {
    if s == [] then [x]
    else if LexLess(key(s[0]), key(x)) then [s[0]] + InsertBy(x, s[1..], key)
    else [x] + s
  }

  /** `s.sort((a, b) => key(a).localeCompare(key(b)))`: a stable insertion sort. */
  function SortBy<T>(s: seq<T>, key: T -> string): seq<T> {
    if s == [] then [] else InsertBy(s[0], SortBy(s[1..], key), key)
  }

  /** "Not smaller than" is transitive. */
  lemma LexNotLessTransitive(a: string, b: string, c: string)
    requires !LexLess(b, a) && !LexLess(c, b)
    ensures !LexLess(c, a)
  {
    LexLessTotal(a, b);
    if LexLess(c, a) {
      if a == b {
      } else {
        LexLessTransitive(c, a, b);
      }
    }
  }

  /** An element no larger than any of a sorted list can go before it. */
  lemma ConsSorted<T>(h: T, r: seq<T>, key: T -> string)
    requires SortedBy(r, key)
    requires forall j :: 0 <= j < |r| ==> !LexLess(key(r[j]), key(h))
    ensures SortedBy([h] + r, key)
  {
    var t := [h] + r;
    forall i, j | 0 <= i < j < |t| ensures !LexLess(key(t[j]), key(t[i])) {
      assert t[j] == r[j - 1];
      if i > 0 {
        assert t[i] == r[i - 1];
      }
    }
  }

  lemma {:induction false} InsertByMultiset<T>(x: T, s: seq<T>, key: T -> string)
    ensures multiset(InsertBy(x, s, key)) == multiset(s) + multiset{x}
  {
    if s != [] {
      assert s == [s[0]] + s[1..];
      if LexLess(key(s[0]), key(x)) {
        InsertByMultiset(x, s[1..], key);
      }
    }
  }

  lemma {:induction false} InsertBySpec<T>(x: T, s: seq<T>, key: T -> string)
    requires SortedBy(s, key)
    ensures SortedBy(InsertBy(x, s, key), key)
    ensures multiset(InsertBy(x, s, key)) == multiset(s) + multiset{x}
  {
    InsertByMultiset(x, s, key);
    if s == [] {
    } else if LexLess(key(s[0]), key(x)) {
      var tail := s[1..];
      assert SortedBy(tail, key) by {
        forall i, j | 0 <= i < j < |tail| ensures !LexLess(key(tail[j]), key(tail[i])) {
          assert tail[i] == s[i + 1] && tail[j] == s[j + 1];
        }
      }
      InsertBySpec(x, tail, key);
      var r := InsertBy(x, tail, key);
      forall j | 0 <= j < |r| ensures !LexLess(key(r[j]), key(s[0])) {
        assert r[j] in multiset(r);
        if r[j] == x {
          LexLessIrreflexive(key(x));
          if LexLess(key(x), key(s[0])) {
            LexLessTransitive(key(x), key(s[0]), key(x));
          }
        } else {
          assert r[j] in multiset(tail);
          var k :| 0 <= k < |tail| && tail[k] == r[j];
          assert s[k + 1] == r[j];
        }
      }
      ConsSorted(s[0], r, key);
    } else {
      forall j | 0 <= j < |s| ensures !LexLess(key(s[j]), key(x)) {
        if j > 0 {
          LexNotLessTransitive(key(x), key(s[0]), key(s[j]));
        }
      }
      ConsSorted(x, s, key);
    }
  }

  /** The sorted records are ordered by their key and are a permutation of
      the input. */
  lemma {:induction false} SortBySpec<T>(s: seq<T>, key: T -> string)
    ensures SortedBy(SortBy(s, key), key)
    ensures multiset(SortBy(s, key)) == multiset(s)
  {
    if s != [] {
      SortBySpec(s[1..], key);
      InsertBySpec(s[0], SortBy(s[1..], key), key);
      assert s == [s[0]] + s[1..];
    }
  }
}
