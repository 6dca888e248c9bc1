/** Sequence vocabulary shared by the models: flattening, filtering and subsequences. */
module Sequences {

  /** The concatenation of the pieces, in order. */
  function Flatten<T>(ss: seq<seq<T>>): seq<T> {
    if ss == [] then [] else ss[0] + Flatten(ss[1..])
  }

  lemma {:induction false} FlattenAppend<T>(a: seq<seq<T>>, b: seq<seq<T>>)
    ensures Flatten(a + b) == Flatten(a) + Flatten(b)
  {
    if a == [] {
      assert a + b == b;
    } else {
      assert (a + b)[1..] == a[1..] + b;
      FlattenAppend(a[1..], b);
    }
  }

  lemma FlattenSnoc<T>(a: seq<seq<T>>, x: seq<T>)
    ensures Flatten(a + [x]) == Flatten(a) + x
  {
    FlattenAppend(a, [x]);
    assert [x][1..] == [];
  }

  /** The elements satisfying `p`, in order. */
  function Filter<T(!new)>(s: seq<T>, p: T -> bool): (r: seq<T>)
    ensures |r| <= |s|
    ensures forall x :: x in r <==> x in s && p(x)
  {
    if s == [] then []
    else
      var r := Filter(s[..|s| - 1], p);
      var last := s[|s| - 1];
      assert s == s[..|s| - 1] + [last];
      if p(last) then r + [last] else r
  }

  lemma FilterSnoc<T(!new)>(s: seq<T>, x: T, p: T -> bool)
    ensures Filter(s + [x], p) == Filter(s, p) + (if p(x) then [x] else [])
  {
    assert (s + [x])[..|s|] == s;
  }

  lemma {:induction false} FilterAppend<T(!new)>(a: seq<T>, b: seq<T>, p: T -> bool)
    ensures Filter(a + b, p) == Filter(a, p) + Filter(b, p)
  {
    if b == [] {
      assert a + b == a;
    } else {
      var b0, x := b[..|b| - 1], b[|b| - 1];
      assert b == b0 + [x] && a + b == (a + b0) + [x];
      FilterAppend(a, b0, p);
      FilterSnoc(a + b0, x, p);
      FilterSnoc(b0, x, p);
    }
  }

  lemma FilterOne<T(!new)>(x: T, p: T -> bool)
    ensures Filter([x], p) == if p(x) then [x] else []
  {
    FilterSnoc([], x, p);
    assert [] + [x] == [x];
  }

  function Without<T>(s: seq<T>, k: nat): (r: seq<T>)
    requires k < |s|
    ensures |r| == |s| - 1
  {
    s[..k] + s[k + 1..]
  }

  lemma FilterWithout<T(!new)>(s: seq<T>, k: nat, p: T -> bool)
    requires k < |s| && !p(s[k])
    ensures Filter(Without(s, k), p) == Filter(s, p)
  {
    hide Filter;
    var a, b := s[..k], s[k + 1..];
    FilterAppend(a, b, p);
    FilterSnoc(a, s[k], p);
    FilterAppend(a + [s[k]], b, p);
    assert a + [s[k]] + b == s;
  }

  /** `idx` picks `a` out of `b` from left to right. */
  ghost predicate Embeds<T>(a: seq<T>, b: seq<T>, idx: seq<int>) {
    && |idx| == |a|
    && (forall i :: 0 <= i < |idx| ==> 0 <= idx[i] < |b|)
    && (forall i, j :: 0 <= i < j < |idx| ==> idx[i] < idx[j])
    && (forall i :: 0 <= i < |a| ==> a[i] == b[idx[i]])
  }

  /** `a` is a (not necessarily contiguous) subsequence of `b`. */
  ghost predicate Subsequence<T>(a: seq<T>, b: seq<T>) {
    exists idx :: Embeds(a, b, idx)
  }

  lemma SubsequenceRefl<T>(a: seq<T>)
    ensures Subsequence(a, a)
  {
    assert Embeds(a, a, seq(|a|, i => i));
  }

  lemma SubsequenceTrans<T>(a: seq<T>, b: seq<T>, c: seq<T>)
    requires Subsequence(a, b) && Subsequence(b, c)
    ensures Subsequence(a, c)
  {
    var f :| Embeds(a, b, f);
    var g :| Embeds(b, c, g);
    assert Embeds(a, c, seq(|a|, i requires 0 <= i < |a| => g[f[i]]));
  }

  lemma SubsequenceConcat<T>(a: seq<T>, b: seq<T>, c: seq<T>, d: seq<T>)
    requires Subsequence(a, b) && Subsequence(c, d)
    ensures Subsequence(a + c, b + d)
  {
    var f :| Embeds(a, b, f);
    var g :| Embeds(c, d, g);
    assert Embeds(a + c, b + d, f + seq(|c|, i requires 0 <= i < |c| => g[i] + |b|));
  }

  lemma SubsequenceRemove<T>(a: seq<T>, k: nat)
    requires k < |a|
    ensures Subsequence(Without(a, k), a)
  {
    assert Embeds(Without(a, k), a, seq(|a| - 1, i => if i < k then i else i + 1));
  }

  /** A subsequence of full length is everything. */
  lemma SubsequenceFull<T>(a: seq<T>, b: seq<T>)
    requires Subsequence(a, b) && |a| == |b|
    ensures a == b
  {
    var idx :| Embeds(a, b, idx);
    forall i | 0 <= i < |a| ensures idx[i] == i {
      IndicesGrow(idx, i, |b|);
    }
  }

  /** Strictly increasing indices into as many places are all of them. */
  lemma IndicesGrow(idx: seq<int>, i: nat, n: nat)
    requires |idx| == n && i < n && (forall k :: 0 <= k < n ==> 0 <= idx[k] < n)
    requires forall k, m :: 0 <= k < m < n ==> idx[k] < idx[m]
    ensures idx[i] == i
  {
    AtLeast(idx, i);
    AtMost(idx, i, n);
  }

  lemma {:induction false} AtLeast(idx: seq<int>, i: nat)
    requires i < |idx| && (forall k :: 0 <= k < |idx| ==> 0 <= idx[k])
    requires forall k, m :: 0 <= k < m < |idx| ==> idx[k] < idx[m]
    ensures idx[i] >= i
  {
    if i > 0 {
      AtLeast(idx, i - 1);
    }
  }

  lemma {:induction false} AtMost(idx: seq<int>, i: nat, n: nat)
    requires |idx| == n && i < n && (forall k :: 0 <= k < n ==> idx[k] < n)
    requires forall k, m :: 0 <= k < m < n ==> idx[k] < idx[m]
    ensures idx[i] <= i
    decreases n - i
  {
    if i < n - 1 {
      AtMost(idx, i + 1, n);
    }
  }

  lemma SubsequenceEmpty<T>(a: seq<T>)
    ensures Subsequence([], a)
  {
    assert Embeds([], a, []);
  }

  lemma {:induction false} FilterSubsequence<T(!new)>(s: seq<T>, p: T -> bool)
    ensures Subsequence(Filter(s, p), s)
  {
    if s == [] {
      SubsequenceEmpty(s);
    } else {
      var init, x := s[..|s| - 1], s[|s| - 1];
      FilterSubsequence(init, p);
      SubsequenceRefl([x]);
      SubsequenceEmpty([x]);
      hide Subsequence;
      SubsequenceConcat(Filter(init, p), init, [x], [x]);
      SubsequenceConcat(Filter(init, p), init, [], [x]);
      assert init + [x] == s && Filter(init, p) + [] == Filter(init, p);
    }
  }

  /** Slices that lie in the front or start at the back of a concatenation. */
  lemma SliceFront<T>(a: seq<T>, b: seq<T>, i: nat, j: nat)
    requires i <= j <= |a|
    ensures (a + b)[i..j] == a[i..j]
  {
  }

  lemma SplitAt<T>(s: seq<T>, i: nat)
    requires i < |s|
    ensures s[..i] + ([s[i]] + s[i + 1..]) == s
  {
  }

  lemma SliceBack<T>(a: seq<T>, b: seq<T>)
    ensures (a + b)[|a|..] == b
  {
  }

  lemma SliceMiddle<T>(a: seq<T>, b: seq<T>, c: seq<T>)
    ensures (a + b + c)[|a|..|a| + |b|] == b && (a + b + c)[|a| + |b|..] == c
  {
  }

  lemma InsertedElements<T>(s: seq<T>, k: nat, d: T)
    requires k <= |s|
    ensures multiset(s[..k] + [d] + s[k..]) == multiset(s) + multiset{d}
  {
    assert s == s[..k] + s[k..];
  }

  lemma SomeMember(s: set<int>)
    ensures s == {} || exists x :: x in s
  {
    if !(exists x :: x in s) {
      assert forall x :: x !in s;
      assert s == {};
    }
  }
}
