/** Index permutations, and a stand-in for the C library's `qsort` that also reports,
    as a ghost value, which permutation it applied. */
module Permutations {

  function Range(n: nat): (r: seq<nat>)
    ensures |r| == n && forall i :: 0 <= i < n ==> r[i] == i
  {
    seq(n, (i: nat) => i)
  }

  /** `p` lists every index below `n` exactly once. */
  ghost predicate IsPermutation(p: seq<nat>, n: nat) {
    multiset(p) == multiset(Range(n))
  }

  /** `t` is `s` read through the index permutation `p`. */
  ghost predicate Rearranges<T>(t: seq<T>, s: seq<T>, p: seq<nat>) {
    && IsPermutation(p, |s|)
    && |t| == |p| == |s|
    && forall k :: 0 <= k < |p| ==> p[k] < |s| && t[k] == s[p[k]]
  }

  lemma {:induction false} DistinctCounts(s: seq<nat>, x: nat)
    requires forall i, j :: 0 <= i < j < |s| ==> s[i] != s[j]
    ensures multiset(s)[x] <= 1
  {
    if s != [] {
      var init := s[..|s| - 1];
      assert s == init + [s[|s| - 1]];
      DistinctCounts(init, x);
      if s[|s| - 1] == x {
        assert x !in init;
        assert x !in multiset(init);
      }
    }
  }

  lemma DuplicateCounts(s: seq<nat>, j: nat, k: nat)
    requires j < k < |s| && s[j] == s[k]
    ensures multiset(s)[s[j]] >= 2
  {
    assert s == s[..k] + [s[k]] + s[k + 1..];
    assert s[j] in s[..k];
  }

  /** A permutation is a bijection on the indices. */
  lemma PermutationIsBijection(p: seq<nat>, n: nat)
    requires IsPermutation(p, n)
    ensures |p| == n
    ensures forall k :: 0 <= k < n ==> p[k] < n
    ensures forall j, k :: 0 <= j < k < n ==> p[j] != p[k]
    ensures forall i :: 0 <= i < n ==> i in p
  {
    assert |multiset(p)| == |multiset(Range(n))|;
    forall k | 0 <= k < n ensures p[k] < n {
      assert p[k] in multiset(p);
      assert p[k] in Range(n);
    }
    forall j, k | 0 <= j < k < n ensures p[j] != p[k] {
      if p[j] == p[k] {
        DuplicateCounts(p, j, k);
        DistinctCounts(Range(n), p[j]);
      }
    }
    forall i | 0 <= i < n ensures i in p {
      assert Range(n)[i] == i;
      assert i in multiset(Range(n));
      assert i in multiset(p);
    }
  }

  /** The inverse of a permutation. */
  lemma Inverse(p: seq<nat>, n: nat) returns (q: seq<nat>)
    requires IsPermutation(p, n)
    ensures |p| == |q| == n
    ensures forall i :: 0 <= i < n ==> q[i] < n && p[q[i]] == i
    ensures forall k :: 0 <= k < n ==> p[k] < n && q[p[k]] == k
  {
    PermutationIsBijection(p, n);
    q := [];
    while |q| < n
      invariant |q| <= n
      invariant forall i :: 0 <= i < |q| ==> q[i] < n && p[q[i]] == i
    {
      assert |q| in p;
      var k :| 0 <= k < n && p[k] == |q|;
      q := q + [k];
    }
    forall k | 0 <= k < n ensures q[p[k]] == k {
      var k' := q[p[k]];
      assert p[k'] == p[k];
      assert !(k < k') && !(k' < k);
    }
  }

  function Without<T>(s: seq<T>, i: nat): seq<T>
    requires i < |s|
  {
    s[..i] + s[i + 1..]
  }

  lemma WithoutMultiset<T>(s: seq<T>, i: nat)
    requires i < |s|
    ensures multiset(s) == multiset(Without(s, i)) + multiset{s[i]}
  {
    assert s == s[..i] + [s[i]] + s[i + 1..];
  }

  lemma Cancel<T>(a: multiset<T>, b: multiset<T>, x: T)
    requires a + multiset{x} == b + multiset{x}
    ensures a == b
  {
    assert a == a + multiset{x} - multiset{x};
    assert b == b + multiset{x} - multiset{x};
  }

  function Pick<T>(s: seq<T>, idx: seq<nat>): (r: seq<T>)
    requires forall k :: 0 <= k < |idx| ==> idx[k] < |s|
    ensures |r| == |idx| && forall k :: 0 <= k < |idx| ==> r[k] == s[idx[k]]
  {
    seq(|idx|, k requires 0 <= k < |idx| => s[idx[k]])
  }

  /** Listing the same indices in another order picks the same values. */
  lemma {:induction false} PickMultiset<T>(s: seq<T>, a: seq<nat>, b: seq<nat>)
    requires multiset(a) == multiset(b)
    requires forall k :: 0 <= k < |a| ==> a[k] < |s|
    requires forall k :: 0 <= k < |b| ==> b[k] < |s|
    ensures multiset(Pick(s, a)) == multiset(Pick(s, b))
  {
    if a == [] {
      assert |multiset(b)| == 0;
    } else {
      assert a[0] in multiset(b);
      var i :| 0 <= i < |b| && b[i] == a[0];
      WithoutMultiset(a, 0);
      WithoutMultiset(b, i);
      Cancel(multiset(Without(a, 0)), multiset(Without(b, i)), a[0]);
      PickMultiset(s, Without(a, 0), Without(b, i));
      WithoutMultiset(Pick(s, a), 0);
      WithoutMultiset(Pick(s, b), i);
      assert Without(Pick(s, a), 0) == Pick(s, Without(a, 0));
      assert Without(Pick(s, b), i) == Pick(s, Without(b, i));
    }
  }

  lemma RearrangedMultiset<T>(t: seq<T>, s: seq<T>, p: seq<nat>)
    requires Rearranges(t, s, p)
    ensures multiset(t) == multiset(s)
  {
    PickMultiset(s, p, Range(|s|));
    assert Pick(s, p) == t;
    assert Pick(s, Range(|s|)) == s;
  }

  /** Adds up `s` from the left; `plus` is addition of one kind of number or another. */
  ghost function Fold<A>(plus: (A, A) -> A, zero: A, s: seq<A>): A {
    if s == [] then zero else plus(Fold(plus, zero, s[..|s| - 1]), s[|s| - 1])
  }

  ghost predicate OrderFree<A(!new)>(plus: (A, A) -> A) {
    forall a, x, y :: plus(plus(a, x), y) == plus(plus(a, y), x)
  }

  lemma {:induction false} FoldWithout<A(!new)>(plus: (A, A) -> A, zero: A, s: seq<A>, i: nat)
    requires i < |s| && OrderFree(plus)
    ensures Fold(plus, zero, s) == plus(Fold(plus, zero, Without(s, i)), s[i])
  {
    var last := |s| - 1;
    if i == last {
      assert Without(s, i) == s[..last];
    } else {
      FoldWithout(plus, zero, s[..last], i);
      assert Without(s, i)[..last - 1] == Without(s[..last], i);
    }
  }

  /** A sum depends on what is added, not on the order. */
  lemma {:induction false} FoldOfMultiset<A(!new)>(plus: (A, A) -> A, zero: A, s: seq<A>, t: seq<A>)
    requires multiset(s) == multiset(t) && OrderFree(plus)
    ensures Fold(plus, zero, s) == Fold(plus, zero, t)
  {
    if s == [] {
      assert |multiset(t)| == 0;
    } else {
      assert s[0] in multiset(t);
      var i :| 0 <= i < |t| && t[i] == s[0];
      WithoutMultiset(s, 0);
      WithoutMultiset(t, i);
      Cancel(multiset(Without(s, 0)), multiset(Without(t, i)), s[0]);
      FoldOfMultiset(plus, zero, Without(s, 0), Without(t, i));
      FoldWithout(plus, zero, s, 0);
      FoldWithout(plus, zero, t, i);
    }
  }

  ghost function Add(x: int, y: int): int { x + y }

  ghost function Sum(s: seq<int>): int { Fold(Add, 0, s) }

  lemma {:induction false} SumUpdate(s: seq<int>, i: nat, x: int)
    requires i < |s|
    ensures Sum(s[i := x]) == Sum(s) - s[i] + x
  {
    var init := s[..|s| - 1];
    if i == |s| - 1 {
      assert s[i := x][..i] == init;
    } else {
      SumUpdate(init, i, x);
      assert s[i := x][..|s| - 1] == init[i := x];
    }
  }

  ghost predicate TotalPreorder<T(!new)>(le: (T, T) -> bool) {
    && (forall x, y :: le(x, y) || le(y, x))
    && (forall x, y, z :: le(x, y) && le(y, z) ==> le(x, z))
  }

  ghost predicate SortedBy<T(!new)>(le: (T, T) -> bool, s: seq<T>) {
    forall i, j :: 0 <= i < j < |s| ==> le(s[i], s[j])
  }

  /** Swapping two cells keeps a rearrangement a rearrangement. */
  lemma SwapRearranges<T>(t: seq<T>, s: seq<T>, p: seq<nat>, i: nat, j: nat)
    requires Rearranges(t, s, p)
    requires i < |t| && j < |t|
    ensures Rearranges(t[i := t[j]][j := t[i]], s, p[i := p[j]][j := p[i]])
  {
  }

  /** Moves cell `i` down among the ordered cells below it. */
  method Sink<T(!new)>(a: array<T>, le: (T, T) -> bool, i: nat, ghost s: seq<T>, ghost p0: seq<nat>)
    returns (ghost p: seq<nat>)
    requires TotalPreorder(le)
    requires i < a.Length
    requires Rearranges(a[..], s, p0)
    requires forall x, y :: 0 <= x < y < i ==> le(a[x], a[y])
    modifies a
    ensures Rearranges(a[..], s, p)
    ensures forall x, y :: 0 <= x < y <= i ==> le(a[x], a[y])
  {
    p := p0;
    var j := i;
    while j > 0 && !le(a[j - 1], a[j])
      invariant 0 <= j <= i
      invariant Rearranges(a[..], s, p)
      invariant forall x, y :: 0 <= x < y <= i && y != j ==> le(a[x], a[y])
    {
      SwapRearranges(a[..], s, p, j - 1, j);
      ghost var t := a[..];
      a[j - 1], a[j] := a[j], a[j - 1];
      assert a[..] == t[j - 1 := t[j]][j := t[j - 1]];
      p := p[j - 1 := p[j]][j := p[j - 1]];
      j := j - 1;
    }
  }

  /** What the programs rely on `qsort` for: the cells end up ordered, and they are the old
      cells in some order, reported by `p`. */
  method Qsort<T(!new)>(a: array<T>, le: (T, T) -> bool) returns (ghost p: seq<nat>)
    requires TotalPreorder(le)
    modifies a
    ensures Rearranges(a[..], old(a[..]), p)
    ensures SortedBy(le, a[..])
  {
    p := Range(a.Length);
    for i := 0 to a.Length
      invariant Rearranges(a[..], old(a[..]), p)
      invariant forall x, y :: 0 <= x < y < i ==> le(a[x], a[y])
    {
      p := Sink(a, le, i, old(a[..]), p);
    }
  }
}
