/** Optional values, standing in for JavaScript's `null` / `undefined`. */
module Wrappers {

  datatype Option<+T> = None | Some(value: T)

  /** The values of an optional: one element or none. */
  function Values<T>(o: Option<T>): (r: seq<T>)
    ensures |r| <= 1
  {
    match o
    case Some(v) => [v]
    case None => []
  }

  /** The present values `f` yields on `xs`, in the order of `xs`. */
  function FilterMap<T, U>(f: T -> Option<U>, xs: seq<T>): (r: seq<U>)
    ensures |r| <= |xs|
  {
    if xs == [] then []
    else FilterMap(f, xs[..|xs| - 1]) + Values(f(xs[|xs| - 1]))
  }

  lemma FilterMapPrefix<T, U>(f: T -> Option<U>, xs: seq<T>, i: nat)
    requires i < |xs|
    ensures FilterMap(f, xs[..i + 1]) == FilterMap(f, xs[..i]) + Values(f(xs[i]))
  {
    assert xs[..i + 1][..i] == xs[..i];
  }

  /** Mapping a concatenation concatenates the results. */
  lemma {:induction false} FilterMapAppend<T, U>(f: T -> Option<U>, xs: seq<T>, ys: seq<T>)
    ensures FilterMap(f, xs + ys) == FilterMap(f, xs) + FilterMap(f, ys)
    decreases |ys|
  {
    if ys == [] {
      assert xs + ys == xs;
    } else {
      var ys' := ys[..|ys| - 1];
      assert (xs + ys)[..|xs + ys| - 1] == xs + ys';
      assert (xs + ys)[|xs + ys| - 1] == ys[|ys| - 1];
      FilterMapAppend(f, xs, ys');
    }
  }

  /** Every value in the result is what `f` yields on some element. */
  lemma {:induction false} FilterMapOrigin<T, U>(f: T -> Option<U>, xs: seq<T>, y: U)
    requires y in FilterMap(f, xs)
    ensures exists i | 0 <= i < |xs| :: f(xs[i]) == Some(y)
    decreases |xs|
  {
    var n := |xs| - 1;
    if y in FilterMap(f, xs[..n]) {
      FilterMapOrigin(f, xs[..n], y);
      var i :| 0 <= i < n && f(xs[..n][i]) == Some(y);
      assert xs[..n][i] == xs[i];
    } else {
      assert f(xs[n]) == Some(y);
    }
  }

  /** Mapping a single element. */
  lemma FilterMapSingle<T, U>(f: T -> Option<U>, x: T)
    ensures FilterMap(f, [x]) == Values(f(x))
  {
    assert [x][..0] == [];
  }

  /** When `f` yields a value on every element, the result is exactly those values. */
  lemma {:induction false} FilterMapAll<T, U>(f: T -> Option<U>, xs: seq<T>, ys: seq<U>)
    requires |xs| == |ys|
    requires forall i | 0 <= i < |xs| :: f(xs[i]) == Some(ys[i])
    ensures FilterMap(f, xs) == ys
    decreases |xs|
  {
    if xs != [] {
      var n := |xs| - 1;
      FilterMapAll(f, xs[..n], ys[..n]);
      assert ys == ys[..n] + [ys[n]];
    }
  }

  /** Concatenation regroups freely. */
  lemma AppendAssoc<T>(a: seq<T>, b: seq<T>, c: seq<T>)
    ensures a + (b + c) == (a + b) + c
  {
  }
}
