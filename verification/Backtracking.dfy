/** Printing the permutations of 1..n by backtracking over two shared arrays
    (Code/wuxinyue/dfs.c). */
module Backtracking {

  predicate IsPermutation(n: nat, q: seq<nat>) {
    && |q| == n
    && IsPartial(n, q)
  }

  /** Distinct numbers from 1..n. */
  predicate IsPartial(n: nat, q: seq<nat>) {
    && (forall k :: 0 <= k < |q| ==> 1 <= q[k] <= n)
    && (forall j, k :: 0 <= j < k < |q| ==> q[j] != q[k])
  }

  predicate LexLess(p: seq<nat>, q: seq<nat>) {
    exists k :: 0 <= k < |p| && k < |q| && p[..k] == q[..k] && p[k] < q[k]
  }

  /** The permutations that begin with `prefix`, in the order the search meets them. */
  function Extensions(n: nat, prefix: seq<nat>): seq<seq<nat>>
    requires |prefix| <= n
    decreases n - |prefix|, n + 2
  {
    if |prefix| == n then [prefix] else ExtensionsFrom(n, prefix, 1)
  }

  /** Those among them whose next number is at least `i`. */
  function ExtensionsFrom(n: nat, prefix: seq<nat>, i: nat): seq<seq<nat>>
    requires |prefix| < n && 1 <= i <= n + 1
    decreases n - |prefix|, n + 1 - i
  {
    if i == n + 1 then []
    else (if i in prefix then [] else Extensions(n, prefix + [i])) + ExtensionsFrom(n, prefix, i + 1)
  }

  /** The search meets exactly the permutations that begin with `prefix`. */
  lemma {:induction false} ExtensionsExact(n: nat, prefix: seq<nat>, q: seq<nat>)
    requires |prefix| <= n && IsPartial(n, prefix)
    ensures q in Extensions(n, prefix) <==> IsPermutation(n, q) && prefix <= q
    decreases n - |prefix|, n + 2
  {
    if |prefix| < n {
      ExtensionsFromExact(n, prefix, 1, q);
    } else if prefix <= q && |q| == n {
      assert q == prefix;
    }
  }

  lemma {:induction false} ExtensionsFromExact(n: nat, prefix: seq<nat>, i: nat, q: seq<nat>)
    requires |prefix| < n && IsPartial(n, prefix) && 1 <= i <= n + 1
    ensures q in ExtensionsFrom(n, prefix, i)
       <==> IsPermutation(n, q) && prefix <= q && q[|prefix|] >= i
    decreases n - |prefix|, n + 1 - i
  {
    if i <= n {
      ExtensionsFromExact(n, prefix, i + 1, q);
      if i !in prefix {
        ExtensionsExact(n, prefix + [i], q);
        assert prefix <= q && |q| > |prefix| && q[|prefix|] == i ==> prefix + [i] <= q;
      } else if IsPermutation(n, q) && prefix <= q {
        assert q[|prefix|] !in q[..|prefix|];
      }
    }
  }

  ghost predicate LexSorted(s: seq<seq<nat>>) {
    forall x, y :: 0 <= x < y < |s| ==> LexLess(s[x], s[y])
  }

  /** The permutations come in strictly increasing lexicographic order. */
  lemma {:induction false} ExtensionsSorted(n: nat, prefix: seq<nat>)
    requires |prefix| <= n && IsPartial(n, prefix)
    ensures LexSorted(Extensions(n, prefix))
    decreases n - |prefix|, n + 2
  {
    if |prefix| < n {
      ExtensionsFromSorted(n, prefix, 1);
    }
  }

  lemma {:induction false} ExtensionsFromSorted(n: nat, prefix: seq<nat>, i: nat)
    requires |prefix| < n && IsPartial(n, prefix) && 1 <= i <= n + 1
    ensures LexSorted(ExtensionsFrom(n, prefix, i))
    decreases n - |prefix|, n + 1 - i
  {
    if i <= n {
      ExtensionsFromSorted(n, prefix, i + 1);
      if i !in prefix {
        var first, rest := Extensions(n, prefix + [i]), ExtensionsFrom(n, prefix, i + 1);
        ExtensionsSorted(n, prefix + [i]);
        forall x, y | 0 <= x < |first| && 0 <= y < |rest| ensures LexLess(first[x], rest[y]) {
          ExtensionsExact(n, prefix + [i], first[x]);
          ExtensionsFromExact(n, prefix, i + 1, rest[y]);
          SmallerNext(prefix, i, first[x], rest[y]);
        }
        SortedConcat(first, rest);
      }
    }
  }

  /** Of two sequences that begin with `prefix`, the one that goes on with the smaller number
      comes first. */
  lemma SmallerNext(prefix: seq<nat>, i: nat, p: seq<nat>, q: seq<nat>)
    requires prefix + [i] <= p && prefix <= q && |q| > |prefix| && q[|prefix|] > i
    ensures LexLess(p, q)
  {
    var k := |prefix|;
    assert p[..k] == (prefix + [i])[..k] == prefix == q[..k];
    assert p[k] == (prefix + [i])[k];
  }

  lemma SortedConcat(s: seq<seq<nat>>, t: seq<seq<nat>>)
    requires LexSorted(s) && LexSorted(t)
    requires forall x, y :: 0 <= x < |s| && 0 <= y < |t| ==> LexLess(s[x], t[y])
    ensures LexSorted(s + t)
  {
  }

  /** Over the whole search: every permutation of 1..n, each exactly once, in order. */
  lemma AllPermutationsOnce(n: nat)
    ensures LexSorted(Extensions(n, []))
    ensures forall q :: q in Extensions(n, []) <==> IsPermutation(n, q)
    ensures forall q :: IsPermutation(n, q) ==> multiset(Extensions(n, []))[q] == 1
  {
    ExtensionsSorted(n, []);
    forall q ensures q in Extensions(n, []) <==> IsPermutation(n, q) {
      ExtensionsExact(n, [], q);
    }
    forall q | IsPermutation(n, q) ensures multiset(Extensions(n, []))[q] == 1 {
      SortedCountsOnce(Extensions(n, []), q);
    }
  }

  lemma {:induction false} SortedCountsOnce(s: seq<seq<nat>>, q: seq<nat>)
    requires LexSorted(s)
    ensures multiset(s)[q] == if q in s then 1 else 0
  {
    if s != [] {
      var init, last := s[..|s| - 1], s[|s| - 1];
      assert s == init + [last];
      SortedCountsOnce(init, q);
      forall x | 0 <= x < |init| ensures init[x] != last {
        assert LexLess(s[x], s[|s| - 1]);
      }
    }
  }

  /** `book` marks with 1 the numbers in `prefix`, and with 0 the others. */
  ghost predicate Marks(n: nat, book: seq<nat>, prefix: seq<nat>) {
    && n < |book| && IsPartial(n, prefix)
    && forall i :: 1 <= i <= n ==> book[i] == if i in prefix then 1 else 0
  }

  lemma MarkMore(n: nat, book: seq<nat>, prefix: seq<nat>, i: nat)
    requires Marks(n, book, prefix) && 1 <= i <= n && i !in prefix
    ensures Marks(n, book[i := 1], prefix + [i])
  {
  }

  /** The program's globals, and what it has printed. */
  class Search {
    const n: nat
    const a: array<nat>
    const book: array<nat>
    var printed: seq<seq<nat>>

    ghost predicate Valid()
      reads this
    {
      a != book && n < a.Length && n < book.Length
    }

    /** `book` marks the numbers among the first `step - 1` places of `a`. */
    ghost predicate Booked(step: nat)
      requires Valid() && 1 <= step <= n + 1
      reads this, a, book
    {
      Marks(n, book[..], a[1..step])
    }

    constructor (n: nat, size: nat)
      requires n < size
      ensures Valid() && this.n == n && printed == [] && fresh(a) && fresh(book)
      ensures forall i :: 0 <= i < book.Length ==> book[i] == 0
    {
      this.n := n;
      a := new nat[size](_ => 0);
      book := new nat[size](_ => 0);
      printed := [];
    }

    /** Lines 21-24: puts `i` at place `step`, searches on, and takes `i` back. */
    method Place(step: nat, i: nat)
      requires Valid() && 1 <= step <= n && Booked(step)
      requires 1 <= i <= n && i !in a[1..step]
      modifies this`printed, a, book
      ensures printed == old(printed) + Extensions(n, old(a[1..step]) + [i])
      ensures book[..] == old(book[..])
      ensures a[1..step] == old(a[1..step])
      decreases n + 1 - step, 0
    {
      ghost var prefix, marks := a[1..step], book[..];
      MarkMore(n, marks, prefix, i);
      a[step] := i;
      book[i] := 1;
      assert a[1..step + 1] == prefix + [i] && book[..] == marks[i := 1];
      Dfs(step + 1);
      assert a[1..step] == a[1..step + 1][..step - 1] == prefix;
      book[i] := 0;
      assert book[..] == marks[i := 1][i := 0] == marks;
    }

    /** Prints, in order, every permutation that begins as `a` does, and restores `book`. */
    method Dfs(step: nat)
      requires Valid() && 1 <= step <= n + 1 && Booked(step)
      modifies this`printed, a, book
      ensures printed == old(printed) + Extensions(n, old(a[1..step]))
      ensures book[..] == old(book[..])
      ensures a[1..step] == old(a[1..step])
      decreases n + 1 - step, 1
    {
      if step == n + 1 {
        printed := printed + [a[1..n + 1]];
        return;
      }
      ghost var prefix, marks, before := a[1..step], book[..], printed;
      var i: nat := 1;
      while i <= n
        invariant 1 <= i <= n + 1
        invariant a[1..step] == prefix && book[..] == marks
        invariant printed + ExtensionsFrom(n, prefix, i) == before + ExtensionsFrom(n, prefix, 1)
      {
        assert book[i] == marks[i];
        if book[i] == 0 {
          ghost var sofar := printed;
          Place(step, i);
          assert printed + ExtensionsFrom(n, prefix, i + 1) == sofar + ExtensionsFrom(n, prefix, i);
        }
        i := i + 1;
      }
    }

    /** `main`: the search from the first place. */
    method PrintAll()
      requires Valid() && printed == []
      requires forall i :: 0 <= i < book.Length ==> book[i] == 0
      modifies this`printed, a, book
      ensures forall q :: q in printed <==> IsPermutation(n, q)
      ensures LexSorted(printed)
      ensures book[..] == old(book[..])
    {
      assert a[1..1] == [];
      Dfs(1);
      AllPermutationsOnce(n);
    }
  }
}
