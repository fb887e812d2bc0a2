/** Order relations on sequences used to state what the model's
    operations keep and drop. */
module Seqs {

  predicate IsPrefix<T(==)>(p: seq<T>, s: seq<T>) {
    |p| <= |s| && s[..|p|] == p
  }

  /** `xs` is obtained from `ys` by deleting elements, keeping the order of
      the rest. */
  predicate IsSubsequence<T(==)>(xs: seq<T>, ys: seq<T>)
    decreases |ys|
  {
    if |xs| == 0 then true
    else if |ys| == 0 then false
    else (xs[|xs| - 1] == ys[|ys| - 1] && IsSubsequence(xs[..|xs| - 1], ys[..|ys| - 1]))
         || IsSubsequence(xs, ys[..|ys| - 1])
  }

  lemma {:induction false} SubsequenceBounds<T>(xs: seq<T>, ys: seq<T>)
    requires IsSubsequence(xs, ys)
    ensures |xs| <= |ys|
    ensures forall x :: x in xs ==> x in ys
    decreases |ys|
  {
    if |xs| > 0 {
      var ys' := ys[..|ys| - 1];
      if xs[|xs| - 1] == ys[|ys| - 1] && IsSubsequence(xs[..|xs| - 1], ys') {
        SubsequenceBounds(xs[..|xs| - 1], ys');
        assert xs == xs[..|xs| - 1] + [xs[|xs| - 1]];
        assert ys == ys' + [ys[|ys| - 1]];
      } else {
        SubsequenceBounds(xs, ys');
        assert ys == ys' + [ys[|ys| - 1]];
      }
    }
  }

  predicate Distinct<T(==)>(xs: seq<T>) {
    forall i, j :: 0 <= i < j < |xs| ==> xs[i] != xs[j]
  }

  /** `p` lists every index below `n` exactly once. */
  predicate IsPermutation(p: seq<nat>, n: nat) {
    && |p| == n
    && (forall i :: 0 <= i < |p| ==> p[i] < n)
    && (forall t :: 0 <= t < n ==> t in p)
    && Distinct(p)
  }

  /** `xs` lists every element of `keys` exactly once. */
  predicate IsEnumeration<T(==)>(xs: seq<T>, keys: set<T>) {
    && (forall i :: 0 <= i < |xs| ==> xs[i] in keys)
    && (forall k :: k in keys ==> k in xs)
    && Distinct(xs)
  }

  lemma HeadIsMember<T>(xs: seq<T>)
    requires |xs| > 0
    ensures xs[0] in xs
  {
  }
}
