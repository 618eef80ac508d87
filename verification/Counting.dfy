/** Sizes of finite sets, and sums over the members of a sequence. */
module Counting {

  lemma SubsetSize<T>(a: set<T>, b: set<T>)
    requires a <= b
    ensures |a| <= |b|
  {
    assert b == a + (b - a);
  }

  lemma UnionSize<T>(a: set<T>, b: set<T>)
    ensures |a + b| <= |a| + |b|
  {
    assert a + b == a + (b - a);
    assert b == (b - a) + (b * a);
  }

  /** The sum of `f` over the members of `s`. */
  ghost function Tally<T>(f: T -> nat, s: seq<T>): nat {
    if s == [] then 0 else Tally(f, s[..|s| - 1]) + f(s[|s| - 1])
  }

  lemma {:induction false} TallyUpdate<T>(f: T -> nat, s: seq<T>, i: nat, x: T)
    requires i < |s|
    ensures Tally(f, s[i := x]) + f(s[i]) == Tally(f, s) + f(x)
  {
    var last := |s| - 1;
    if i == last {
      assert s[i := x][..last] == s[..last];
    } else {
      TallyUpdate(f, s[..last], i, x);
      assert s[i := x][..last] == s[..last][i := x];
    }
  }

  lemma {:induction false} TallyConstant<T>(f: T -> nat, s: seq<T>, c: nat)
    requires forall i :: 0 <= i < |s| ==> f(s[i]) == c
    ensures Tally(f, s) == c * |s|
  {
    if s != [] {
      TallyConstant(f, s[..|s| - 1], c);
    }
  }
}
