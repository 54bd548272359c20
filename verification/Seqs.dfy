/** Shared helpers on sequences. */
module Seqs {

  type byte = b: int | 0 <= b < 256

  datatype Option<+T> = None | Some(value: T)

  function Flatten<T>(parts: seq<seq<T>>): seq<T> {
    if parts == [] then [] else parts[0] + Flatten(parts[1..])
  }

  lemma {:induction false} FlattenAppend<T>(xs: seq<seq<T>>, ys: seq<seq<T>>)
    ensures Flatten(xs + ys) == Flatten(xs) + Flatten(ys)
  {
    if xs == [] {
      assert xs + ys == ys;
    } else {
      FlattenAppend(xs[1..], ys);
      assert (xs + ys)[1..] == xs[1..] + ys && (xs + ys)[0] == xs[0];
      assert Flatten(xs + ys) == xs[0] + Flatten(xs[1..] + ys);
      assert xs[0] + (Flatten(xs[1..]) + Flatten(ys)) == (xs[0] + Flatten(xs[1..])) + Flatten(ys);
    }
  }

  lemma {:induction false} SliceOfSlice<T>(x: seq<T>, k: nat, n: nat, j: nat, m: nat)
    requires k <= n <= |x| && j <= m <= n - k
    ensures x[k..n][j..m] == x[k + j..k + m]
  {
    assert |x[k..n][j..m]| == |x[k + j..k + m]|;
    assert forall i | 0 <= i < m - j :: x[k..n][j..m][i] == x[k + j..k + m][i];
  }

  /** A separator that the front parts lack splits a text in only one way. */
  lemma {:induction false} SplitAtFirst<T>(p: seq<T>, x: seq<T>, q: seq<T>, y: seq<T>, sep: T)
    requires sep !in p && sep !in q && p + [sep] + x == q + [sep] + y
    ensures p == q && x == y
  {
    var s, t := p + [sep] + x, q + [sep] + y;
    assert forall k | 0 <= k < |p| :: s[k] == p[k] && p[k] in p;
    assert forall k | 0 <= k < |q| :: t[k] == q[k] && q[k] in q;
    assert s[|p|] == sep && t[|q|] == sep;
    assert |p| == |q|;
    assert p == s[..|p|] && q == t[..|q|] && x == s[|p| + 1..] && y == t[|q| + 1..];
  }

  /** And so does one that the rear parts lack. */
  lemma {:induction false} SplitAtLast<T>(p: seq<T>, x: seq<T>, q: seq<T>, y: seq<T>, sep: T)
    requires sep !in x && sep !in y && p + [sep] + x == q + [sep] + y
    ensures p == q && x == y
  {
    var s, t := p + [sep] + x, q + [sep] + y;
    assert forall k | |p| < k < |s| :: s[k] == x[k - |p| - 1] && x[k - |p| - 1] in x;
    assert forall k | |q| < k < |t| :: t[k] == y[k - |q| - 1] && y[k - |q| - 1] in y;
    assert s[|p|] == sep && t[|q|] == sep;
    assert |p| == |q|;
    assert p == s[..|p|] && q == t[..|q|] && x == s[|p| + 1..] && y == t[|q| + 1..];
  }
}
