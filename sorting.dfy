/**
 * Stable sorting by an integer key, as `Array.prototype.sort` does with a
 * comparator of the form `(a, b) => key(a) - key(b)`. ECMAScript requires
 * that sort to be stable; the result of a stable sort is unique
 * (`StableSortUnique`), so the insertion sort below is the result whatever
 * algorithm the engine uses. Also: `Array.prototype.filter`.
 */
module Sorting {

  /** Non-decreasing in `key`. */
  ghost predicate SortedBy<T>(s: seq<T>, key: T -> int)
  {
    forall i, j | 0 <= i < j < |s| :: key(s[i]) <= key(s[j])
  }

  /** `s.filter(p)`. */
  function Filter<T>(s: seq<T>, p: T -> bool): (r: seq<T>)
    ensures |r| <= |s|
    ensures forall i | 0 <= i < |r| :: p(r[i])
  {
    if s == [] then [] else (if p(s[0]) then [s[0]] else []) + Filter(s[1..], p)
  }

  /** The elements of `s` whose key is `k`, in the order of `s`. */
  function WithKey<T>(s: seq<T>, key: T -> int, k: int): seq<T>
  {
    if s == [] then [] else (if key(s[0]) == k then [s[0]] else []) + WithKey(s[1..], key, k)
  }

  /** Inserts `x` after every element of `t` whose key is at most `key(x)`, scanning from the back. */
  function Insert<T>(t: seq<T>, x: T, key: T -> int): seq<T>
  {
    if t == [] || key(t[|t| - 1]) <= key(x) then t + [x]
    else Insert(t[..|t| - 1], x, key) + [t[|t| - 1]]
  }

  /** Stable insertion sort, ascending in `key`. */
  function Sort<T>(s: seq<T>, key: T -> int): seq<T>
  {
    if s == [] then [] else Insert(Sort(s[..|s| - 1], key), s[|s| - 1], key)
  }

  lemma {:induction false} FilterAppend<T>(a: seq<T>, b: seq<T>, p: T -> bool)
    ensures Filter(a + b, p) == Filter(a, p) + Filter(b, p)
  {
    if a != [] {
      var ab := a + b;
      assert ab[0] == a[0] && ab[1..] == a[1..] + b;
      FilterAppend(a[1..], b, p);
      calc {
        Filter(ab, p);
        (if p(a[0]) then [a[0]] else []) + Filter(a[1..] + b, p);
        (if p(a[0]) then [a[0]] else []) + (Filter(a[1..], p) + Filter(b, p));
      }
    } else {
      assert a + b == b;
    }
  }

  lemma {:induction false} FilterMember<T>(s: seq<T>, p: T -> bool, x: T)
    ensures x in Filter(s, p) <==> x in s && p(x)
  {
    if s != [] {
      FilterMember(s[1..], p, x);
      assert s == [s[0]] + s[1..];
    }
  }

  lemma {:induction false} WithKeyAppend<T>(a: seq<T>, b: seq<T>, key: T -> int, k: int)
    ensures WithKey(a + b, key, k) == WithKey(a, key, k) + WithKey(b, key, k)
  {
    if a != [] {
      var ab := a + b;
      assert ab[0] == a[0] && ab[1..] == a[1..] + b;
      WithKeyAppend(a[1..], b, key, k);
      calc {
        WithKey(ab, key, k);
        (if key(a[0]) == k then [a[0]] else []) + WithKey(a[1..] + b, key, k);
        (if key(a[0]) == k then [a[0]] else []) + (WithKey(a[1..], key, k) + WithKey(b, key, k));
      }
    } else {
      assert a + b == b;
    }
  }

  lemma {:induction false} WithKeyMember<T>(s: seq<T>, key: T -> int, k: int, x: T)
    ensures x in WithKey(s, key, k) <==> x in s && key(x) == k
  {
    if s != [] {
      WithKeyMember(s[1..], key, k, x);
      assert s == [s[0]] + s[1..];
    }
  }

  lemma {:induction false} InsertMultiset<T>(t: seq<T>, x: T, key: T -> int)
    ensures multiset(Insert(t, x, key)) == multiset(t) + multiset{x}
    decreases |t|
  {
    if !(t == [] || key(t[|t| - 1]) <= key(x)) {
      var t' := t[..|t| - 1];
      assert t == t' + [t[|t| - 1]];
      InsertMultiset(t', x, key);
    }
  }

  lemma {:induction false} InsertSorted<T>(t: seq<T>, x: T, key: T -> int)
    requires SortedBy(t, key)
    ensures SortedBy(Insert(t, x, key), key)
    decreases |t|
  {
    if !(t == [] || key(t[|t| - 1]) <= key(x)) {
      var t', last := t[..|t| - 1], t[|t| - 1];
      assert t == t' + [last];
      InsertSorted(t', x, key);
      InsertMultiset(t', x, key);
      var u := Insert(t', x, key);
      forall i | 0 <= i < |u| ensures key(u[i]) <= key(last) {
        assert u[i] in multiset(u);
        if u[i] != x {
          assert u[i] in multiset(t');
          var m :| 0 <= m < |t'| && t'[m] == u[i];
          assert t[m] == u[i];
        }
      }
      var r := u + [last];
      forall i, j | 0 <= i < j < |r| ensures key(r[i]) <= key(r[j]) {
        if j < |u| { assert r[i] == u[i] && r[j] == u[j]; }
      }
    }
  }

  lemma {:induction false} InsertWithKey<T>(t: seq<T>, x: T, key: T -> int, k: int)
    requires SortedBy(t, key)
    ensures WithKey(Insert(t, x, key), key, k) == WithKey(t, key, k) + (if key(x) == k then [x] else [])
    decreases |t|
  {
    if t == [] || key(t[|t| - 1]) <= key(x) {
      WithKeyAppend(t, [x], key, k);
      assert WithKey([x], key, k) == (if key(x) == k then [x] else []) + WithKey([x][1..], key, k);
    } else {
      var t', last := t[..|t| - 1], t[|t| - 1];
      assert t == t' + [last];
      assert SortedBy(t', key);
      InsertWithKey(t', x, key, k);
      var u := Insert(t', x, key);
      WithKeyAppend(u, [last], key, k);
      WithKeyAppend(t', [last], key, k);
      assert WithKey([last], key, k) == (if key(last) == k then [last] else []) + WithKey([last][1..], key, k);
      assert WithKey([x], key, k) == (if key(x) == k then [x] else []) + WithKey([x][1..], key, k);
    }
  }

  /** The sort is a permutation, ordered by key, and keeps the input order among equal keys. */
  lemma {:induction false} SortFacts<T>(s: seq<T>, key: T -> int)
    ensures multiset(Sort(s, key)) == multiset(s)
    ensures |Sort(s, key)| == |s|
    ensures SortedBy(Sort(s, key), key)
    ensures forall k :: WithKey(Sort(s, key), key, k) == WithKey(s, key, k)
  {
    if s != [] {
      var s', last := s[..|s| - 1], s[|s| - 1];
      assert s == s' + [last];
      SortFacts(s', key);
      InsertMultiset(Sort(s', key), last, key);
      InsertSorted(Sort(s', key), last, key);
      assert |multiset(Sort(s, key))| == |multiset(s)|;
      forall k ensures WithKey(Sort(s, key), key, k) == WithKey(s, key, k) {
        InsertWithKey(Sort(s', key), last, key, k);
        WithKeyAppend(s', [last], key, k);
        assert WithKey([last], key, k) == (if key(last) == k then [last] else []) + WithKey([last][1..], key, k);
      }
    }
  }

  /**
   * Any two sequences that are ordered by key and agree on the order of the
   * elements of every key are equal: a stable sort has only one result.
   */
  lemma {:induction false} StableSortUnique<T>(a: seq<T>, b: seq<T>, key: T -> int)
    requires SortedBy(a, key) && SortedBy(b, key)
    requires forall k :: WithKey(a, key, k) == WithKey(b, key, k)
    ensures a == b
    decreases |a|
  {
    if a == [] {
    } else {
      var m := key(a[0]);
      WithKeyMember(a, key, m, a[0]);
      assert WithKey(b, key, m) != [];
      assert b != [];
      var m' := key(b[0]);
      WithKeyMember(b, key, m', b[0]);
      WithKeyMember(a, key, m', b[0]);
      WithKeyMember(b, key, m, a[0]);
      assert m == m';
      assert WithKey(a, key, m)[0] == a[0];
      assert WithKey(b, key, m)[0] == b[0];
      assert a[0] == b[0];
      forall k ensures WithKey(a[1..], key, k) == WithKey(b[1..], key, k) {
        assert WithKey(a, key, k) == WithKey(b, key, k);
        if m == k {
          assert WithKey(a[1..], key, k) == WithKey(a, key, k)[1..];
          assert WithKey(b[1..], key, k) == WithKey(b, key, k)[1..];
        } else {
          assert WithKey(a[1..], key, k) == WithKey(a, key, k);
          assert WithKey(b[1..], key, k) == WithKey(b, key, k);
        }
      }
      StableSortUnique(a[1..], b[1..], key);
      assert a == [a[0]] + a[1..] && b == [b[0]] + b[1..];
    }
  }

  /** The result of sorting does not depend on the order of the input beyond the order among equal keys. */
  lemma SortDeterminedByKeys<T>(s: seq<T>, s': seq<T>, key: T -> int)
    requires forall k :: WithKey(s, key, k) == WithKey(s', key, k)
    ensures Sort(s, key) == Sort(s', key)
  {
    SortFacts(s, key);
    SortFacts(s', key);
    StableSortUnique(Sort(s, key), Sort(s', key), key);
  }

  /** Sorting an already sorted sequence changes nothing. */
  lemma SortOfSorted<T>(s: seq<T>, key: T -> int)
    requires SortedBy(s, key)
    ensures Sort(s, key) == s
  {
    SortFacts(s, key);
    StableSortUnique(Sort(s, key), s, key);
  }

  lemma {:induction false} FilterSorted<T>(s: seq<T>, p: T -> bool, key: T -> int)
    requires SortedBy(s, key)
    ensures SortedBy(Filter(s, p), key)
  {
    if s != [] {
      FilterSorted(s[1..], p, key);
      if p(s[0]) {
        var r := Filter(s, p);
        forall j | 0 < j < |r| ensures key(r[0]) <= key(r[j]) {
          FilterMember(s[1..], p, r[j]);
        }
      }
    }
  }

  /** The elements of one key keep any order the whole sequence had. */
  lemma {:induction false} WithKeySorted<T>(s: seq<T>, key: T -> int, k: int, other: T -> int)
    requires SortedBy(s, other)
    ensures SortedBy(WithKey(s, key, k), other)
  {
    if s != [] {
      WithKeySorted(s[1..], key, k, other);
      if key(s[0]) == k {
        var r := WithKey(s, key, k);
        forall j | 0 < j < |r| ensures other(r[0]) <= other(r[j]) {
          WithKeyMember(s[1..], key, k, r[j]);
        }
      }
    }
  }

  lemma {:induction false} FilterWithKeyCommute<T>(s: seq<T>, p: T -> bool, key: T -> int, k: int)
    ensures WithKey(Filter(s, p), key, k) == Filter(WithKey(s, key, k), p)
  {
    if s != [] {
      FilterWithKeyCommute(s[1..], p, key, k);
      var head := if p(s[0]) then [s[0]] else [];
      WithKeyAppend(head, Filter(s[1..], p), key, k);
      var head' := if key(s[0]) == k then [s[0]] else [];
      FilterAppend(head', WithKey(s[1..], key, k), p);
    }
  }

  /** Filtering before or after a stable sort gives the same sequence. */
  lemma FilterSortCommute<T>(s: seq<T>, p: T -> bool, key: T -> int)
    ensures Filter(Sort(s, key), p) == Sort(Filter(s, p), key)
  {
    SortFacts(s, key);
    SortFacts(Filter(s, p), key);
    FilterSorted(Sort(s, key), p, key);
    forall k ensures WithKey(Filter(Sort(s, key), p), key, k) == WithKey(Sort(Filter(s, p), key), key, k) {
      FilterWithKeyCommute(Sort(s, key), p, key, k);
      FilterWithKeyCommute(s, p, key, k);
    }
    StableSortUnique(Filter(Sort(s, key), p), Sort(Filter(s, p), key), key);
  }

  /** Where the insertion sort's inner loop stops, `Insert` puts `x`. */
  lemma {:induction false} InsertAt<T>(t: seq<T>, x: T, key: T -> int, j: nat)
    requires j <= |t|
    requires j == 0 || key(t[j - 1]) <= key(x)
    requires forall m | j <= m < |t| :: key(t[m]) > key(x)
    ensures Insert(t, x, key) == t[..j] + [x] + t[j..]
    decreases |t|
  {
    if j < |t| {
      var t' := t[..|t| - 1];
      InsertAt(t', x, key, j);
      assert t'[..j] == t[..j];
      assert t[j..] == t'[j..] + [t[|t| - 1]];
    }
  }

  /** One step of insertion sort: moves `a[i]` left, past the larger keys, into `a[..i]`. */
  method InsertLast<T>(a: array<T>, i: nat, key: T -> int)
    requires i < a.Length
    modifies a
    ensures a[..i + 1] == Insert(old(a[..i]), old(a[i]), key)
    ensures a[i + 1..] == old(a[i + 1..])
  {
    ghost var t := a[..i];
    var x := a[i];
    var j := i;
    while j > 0 && key(a[j - 1]) > key(x)
      invariant 0 <= j <= i
      invariant forall m | 0 <= m < j :: a[m] == t[m]
      invariant forall m | j < m <= i :: a[m] == t[m - 1]
      invariant forall m | j <= m < i :: key(t[m]) > key(x)
      invariant forall m | i < m < a.Length :: a[m] == old(a[m])
    {
      a[j] := a[j - 1];
      j := j - 1;
    }
    a[j] := x;
    InsertAt(t, x, key, j);
    assert a[..i + 1] == t[..j] + [x] + t[j..];
  }

  /** In-place stable insertion sort of an array. */
  method SortInPlace<T>(a: array<T>, key: T -> int)
    modifies a
    ensures a[..] == Sort(old(a[..]), key)
  {
    ghost var input := a[..];
    var i := 0;
    while i < a.Length
      invariant 0 <= i <= a.Length
      invariant a[..i] == Sort(input[..i], key)
      invariant a[i..] == input[i..]
    {
      assert input[..i + 1] == input[..i] + [input[i]];
      InsertLast(a, i, key);
      assert a[i + 1..] == input[i + 1..];
      i := i + 1;
    }
    assert input[..a.Length] == input;
    assert a[..] == a[..a.Length];
  }
}
