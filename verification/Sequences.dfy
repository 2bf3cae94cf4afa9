/** Concatenation of the images of a list, with the two ends at which lists grow. */
module Sequences {
  function ConcatMap<T, U>(f: T -> seq<U>, xs: seq<T>): (r: seq<U>) {
    if xs == [] then [] else f(xs[0]) + ConcatMap(f, xs[1..])
  }

  lemma {:induction false} ConcatMapAppend<T, U>(f: T -> seq<U>, xs: seq<T>, ys: seq<T>)
    ensures ConcatMap(f, xs + ys) == ConcatMap(f, xs) + ConcatMap(f, ys)
  {
    if xs == [] {
      assert xs + ys == ys;
    } else {
      assert (xs + ys)[1..] == xs[1..] + ys;
      ConcatMapAppend(f, xs[1..], ys);
    }
  }

  /** Processing element i extends the image of the first i elements. */
  lemma ConcatMapTake<T, U>(f: T -> seq<U>, xs: seq<T>, i: nat)
    requires i < |xs|
    ensures ConcatMap(f, xs[..i + 1]) == ConcatMap(f, xs[..i]) + f(xs[i])
  {
    assert xs[..i + 1] == xs[..i] + [xs[i]];
    ConcatMapAppend(f, xs[..i], [xs[i]]);
    assert [xs[i]][1..] == [];
    assert ConcatMap(f, [xs[i]]) == f(xs[i]) + [];
  }

  /** What is already written never exceeds what will have been written. */
  lemma ConcatMapPrefix<T, U>(f: T -> seq<U>, xs: seq<T>, i: nat)
    requires i <= |xs|
    ensures |ConcatMap(f, xs[..i])| + |ConcatMap(f, xs[i..])| == |ConcatMap(f, xs)|
  {
    assert xs == xs[..i] + xs[i..];
    ConcatMapAppend(f, xs[..i], xs[i..]);
  }

  /** Images of equal length n have a concatenation of length n times the list's. */
  lemma {:induction false} ConcatMapUniform<T, U>(f: T -> seq<U>, xs: seq<T>, n: nat)
    requires forall i :: 0 <= i < |xs| ==> |f(xs[i])| == n
    ensures |ConcatMap(f, xs)| == n * |xs|
  {
    if xs == [] {
    } else {
      forall i | 0 <= i < |xs[1..]| ensures |f(xs[1..][i])| == n {
        assert xs[1..][i] == xs[i + 1];
      }
      ConcatMapUniform(f, xs[1..], n);
      assert n * |xs| == n + n * |xs[1..]|;
    }
  }

  /** Cutting a concatenation at its seams gives the pieces back. */
  lemma Seams<T>(a: seq<T>, b: seq<T>, c: seq<T>)
    ensures var d := a + b + c;
      d[|a|..|a| + |b|] == b && d[|a|..] == b + c && d[|a| + |b|..] == c && d == a + (b + c)
  {
  }

  lemma Regroup<T>(a: seq<T>, b: seq<T>, c: seq<T>, d: seq<T>, e: seq<T>)
    ensures a + b + (c + d + e) == (a + b + c) + d + e
  {
  }

  lemma Cuts<T>(s: seq<T>, i: nat, j: nat)
    requires i <= j <= |s|
    ensures s == s[..i] + s[i..j] + s[j..]
  {
  }

  lemma Assoc<T>(a: seq<T>, b: seq<T>, c: seq<T>, d: seq<T>)
    ensures a + b + c + d == a + (b + c + d)
  {
  }

  lemma SliceOfSlice<T>(s: seq<T>, lo: nat, hi: nat, i: nat, j: nat)
    requires lo <= hi <= |s| && i <= j <= hi - lo
    ensures s[lo..hi][i..j] == s[lo + i..lo + j]
  {
    var t := s[lo..hi];
    assert forall k :: 0 <= k < j - i ==> t[i..j][k] == t[i + k] == s[lo + i + k];
  }

  lemma AssocTail<T>(a: seq<T>, b: seq<T>, c: seq<T>, d: seq<T>)
    ensures a + b + c + d == a + (b + (c + d))
  {
  }

  lemma Assoc5<T>(a: seq<T>, b: seq<T>, c: seq<T>, d: seq<T>, e: seq<T>)
    ensures a + b + c + d + e == a + (b + c + d + e)
  {
  }

  lemma SliceOfDrop<T>(s: seq<T>, lo: nat, i: nat, j: nat)
    requires i <= j && lo + j <= |s|
    ensures s[lo..][i..j] == s[lo + i..lo + j]
  {
    var t := s[lo..];
    assert forall k :: 0 <= k < j - i ==> t[i..j][k] == t[i + k] == s[lo + i + k];
  }

  lemma ConcatMapTwo<T, U>(f: T -> seq<U>, x: T, y: T)
    ensures ConcatMap(f, [x, y]) == f(x) + f(y)
  {
    assert [x, y][1..] == [y] && [y][1..] == [];
    assert ConcatMap(f, [y]) == f(y) + [];
  }
}
