/** The directory listing of lt_ls.c: a singly linked list of file names behind a dummy head,
    put in order by a bubble sort that relinks the nodes. */
module FileList {
  import opened LinkedNodes
  import opened Permutations

  /** `FL` of the source: a file name and a link. */
  type Entry = Node<string>

  /** `strcmp(a, b) <= 0` */
  predicate StrLe(a: string, b: string) {
    a == "" || (b != "" && (a[0] < b[0] || (a[0] == b[0] && StrLe(a[1..], b[1..]))))
  }

  lemma {:induction false} StrLeTotal(a: string, b: string)
    ensures StrLe(a, b) || StrLe(b, a)
    ensures StrLe(a, b) && StrLe(b, a) ==> a == b
  {
    if a != "" && b != "" {
      StrLeTotal(a[1..], b[1..]);
      assert a == [a[0]] + a[1..] && b == [b[0]] + b[1..];
    }
  }

  lemma {:induction false} StrLeTransitive(a: string, b: string, c: string)
    requires StrLe(a, b) && StrLe(b, c)
    ensures StrLe(a, c)
  {
    if a != "" && a[0] == b[0] == c[0] {
      StrLeTransitive(a[1..], b[1..], c[1..]);
    }
  }

  /** `a` comes no later than `b`: it is the beginning of `b`, or has the smaller character where
      they first differ. */
  ghost predicate NameLe(a: string, b: string) {
    a <= b || exists k :: 0 <= k < |a| && k < |b| && a[..k] == b[..k] && a[k] < b[k]
  }

  lemma {:induction false} StrLeExact(a: string, b: string)
    ensures StrLe(a, b) <==> NameLe(a, b)
  {
    if a != "" && b != "" {
      StrLeExact(a[1..], b[1..]);
      if a[0] < b[0] {
        assert a[..0] == b[..0];
      } else if a[0] == b[0] {
        NameLeTail(a, b);
      }
    }
  }

  lemma NameLeTail(a: string, b: string)
    requires a != "" && b != "" && a[0] == b[0]
    ensures NameLe(a, b) <==> NameLe(a[1..], b[1..])
  {
    var s, t := a[1..], b[1..];
    assert a <= b <==> s <= t by {
      assert a == [a[0]] + s && b == [b[0]] + t;
    }
    if k :| 0 <= k < |a| && k < |b| && a[..k] == b[..k] && a[k] < b[k] {
      assert s[..k - 1] == a[..k][1..] == b[..k][1..] == t[..k - 1];
      assert s[k - 1] < t[k - 1];
    }
    if k :| 0 <= k < |s| && k < |t| && s[..k] == t[..k] && s[k] < t[k] {
      assert a[..k + 1] == [a[0]] + s[..k] == [b[0]] + t[..k] == b[..k + 1];
      assert a[k + 1] < b[k + 1];
    }
  }

  /** Behind the dummy, two nodes out of their original order have names strictly in order. */
  ghost predicate Stable(ms: seq<Entry>, p: seq<nat>)
    requires |ms| == |p|
  {
    forall i, j :: 1 <= i < j < |ms| && p[i] > p[j] ==> !StrLe(ms[j].data, ms[i].data)
  }

  /** Every node from `k` on has a name at least that of every node before it. */
  ghost predicate SortedFrom(ms: seq<Entry>, k: int) {
    forall i, j :: 1 <= i < j < |ms| && k <= j ==> StrLe(ms[i].data, ms[j].data)
  }

  /** The node at `k`, or null past the end. */
  ghost function At(ms: seq<Entry>, k: nat): Node?<string> {
    if k < |ms| then ms[k] else null
  }

  /** Swapping neighbours whose names are strictly out of order keeps the sort stable. */
  lemma SwapStable(ms: seq<Entry>, p: seq<nat>, i: nat)
    requires |ms| == |p| && 1 <= i < |ms| - 1
    requires forall x, y :: 0 <= x < y < |p| ==> p[x] != p[y]
    requires Stable(ms, p)
    requires !StrLe(ms[i].data, ms[i + 1].data)
    ensures Stable(ms[i := ms[i + 1]][i + 1 := ms[i]], p[i := p[i + 1]][i + 1 := p[i]])
  {
  }

  /** Lines 194-198: the two nodes behind `p` change places. */
  method SwapBehind(p: Entry, ghost all: set<Entry>, ghost ms: seq<Entry>, ghost q: nat)
    requires Linked(ms) && Within(ms, all)
    requires q + 2 < |ms| && p == ms[q]
    modifies all
    ensures Linked(ms[q + 1 := ms[q + 2]][q + 2 := ms[q + 1]])
  {
    assert ms[q].next == ms[q + 1] && ms[q + 1].next == ms[q + 2];
    assert q + 3 < |ms| ==> ms[q + 2].next == ms[q + 3];
    var x := p.next;
    var y := p.next.next;
    p.next := y;
    x.next := y.next;
    y.next := x;
  }

  /** Halfway through a pass: node `q + 1` has the largest name so far among those before `k`,
      and the nodes are those of `ns`, read through `p`. */
  ghost predicate PassState(ns: seq<Entry>, ms: seq<Entry>, p: seq<nat>, k: nat, q: nat) {
    && Rearranges(ms, ns, p) && |ms| > 0 && p[0] == 0
    && q + 2 <= k <= |ms|
    && SortedFrom(ms, k) && Stable(ms, p)
    && (forall i :: 1 <= i <= q + 1 ==> StrLe(ms[i].data, ms[q + 1].data))
  }

  lemma PassStart(ns: seq<Entry>, ms: seq<Entry>, p: seq<nat>, k: nat)
    requires Rearranges(ms, ns, p) && |ms| > 0 && p[0] == 0
    requires 2 <= k <= |ms| && SortedFrom(ms, k) && Stable(ms, p)
    ensures PassState(ns, ms, p, k, 0)
  {
    StrLeTotal(ms[1].data, ms[1].data);
  }

  /** No swap: the next name is the largest so far. */
  lemma PassKeep(ns: seq<Entry>, ms: seq<Entry>, p: seq<nat>, k: nat, q: nat)
    requires PassState(ns, ms, p, k, q) && q + 2 < k
    requires StrLe(ms[q + 1].data, ms[q + 2].data)
    ensures PassState(ns, ms, p, k, q + 1)
  {
    forall i | 1 <= i <= q + 2 ensures StrLe(ms[i].data, ms[q + 2].data) {
      StrLeTotal(ms[i].data, ms[i].data);
      if i <= q { StrLeTransitive(ms[i].data, ms[q + 1].data, ms[q + 2].data); }
    }
  }

  lemma SwapSorted(ms: seq<Entry>, k: nat, i: nat)
    requires SortedFrom(ms, k) && 1 <= i && i + 1 < k <= |ms|
    ensures SortedFrom(ms[i := ms[i + 1]][i + 1 := ms[i]], k)
  {
  }

  lemma SwapLargest(ms: seq<Entry>, i: nat)
    requires 1 <= i && i + 1 < |ms|
    requires forall x :: 1 <= x <= i ==> StrLe(ms[x].data, ms[i].data)
    requires !StrLe(ms[i].data, ms[i + 1].data)
    ensures var t := ms[i := ms[i + 1]][i + 1 := ms[i]];
            forall x :: 1 <= x <= i + 1 ==> StrLe(t[x].data, t[i + 1].data)
  {
    StrLeTotal(ms[i].data, ms[i + 1].data);
  }

  /** A swap carries the largest name forward. */
  lemma PassSwap(ns: seq<Entry>, ms: seq<Entry>, p: seq<nat>, k: nat, q: nat)
    requires PassState(ns, ms, p, k, q) && q + 2 < k
    requires !StrLe(ms[q + 1].data, ms[q + 2].data)
    ensures PassState(ns, ms[q + 1 := ms[q + 2]][q + 2 := ms[q + 1]],
                      p[q + 1 := p[q + 2]][q + 2 := p[q + 1]], k, q + 1)
  {
    PermutationIsBijection(p, |ns|);
    SwapStable(ms, p, q + 1);
    SwapSorted(ms, k, q + 1);
    SwapRearranges(ms, ns, p, q + 1, q + 2);
    SwapLargest(ms, q + 1);
  }

  /** At the end of a pass the last node before `k` has the largest name. */
  lemma PassEnd(ns: seq<Entry>, ms: seq<Entry>, p: seq<nat>, k: nat)
    requires k >= 2 && PassState(ns, ms, p, k, k - 2)
    ensures SortedFrom(ms, k - 1)
  {
  }

  /** Lines 192-200: compare the two nodes behind `cur` and swap them if need be. */
  method CompareSwap(cur: Entry, ghost all: set<Entry>, ghost ns: seq<Entry>,
                     ghost ms0: seq<Entry>, ghost p0: seq<nat>, ghost k: nat, ghost q: nat)
      returns (ghost ms: seq<Entry>, ghost p: seq<nat>)
    requires Linked(ms0) && Within(ms0, all)
    requires PassState(ns, ms0, p0, k, q) && q + 2 < k && cur == ms0[q]
    modifies all
    ensures Linked(ms) && Within(ms, all)
    ensures PassState(ns, ms, p, k, q + 1)
    ensures forall i :: 0 <= i < |ms| && (i <= q || k <= i) ==> ms[i] == ms0[i]
  {
    ms, p := ms0, p0;
    assert ms[q].next == ms[q + 1] && ms[q + 1].next == ms[q + 2];
    if !StrLe(cur.next.data, cur.next.next.data) {
      SwapBehind(cur, all, ms, q);
      PassSwap(ns, ms, p, k, q);
      ms := ms[q + 1 := ms[q + 2]][q + 2 := ms[q + 1]];
      p := p[q + 1 := p[q + 2]][q + 2 := p[q + 1]];
    } else {
      PassKeep(ns, ms, p, k, q);
    }
  }

  /** Lines 189-203: one pass over the nodes before `f`, after which the last of them has the
      largest name. */
  method Pass(phead: Entry, f: Node?<string>, ghost all: set<Entry>, ghost ns: seq<Entry>,
              ghost ms0: seq<Entry>, ghost p0: seq<nat>, ghost k: nat)
      returns (f': Entry, ghost ms: seq<Entry>, ghost p: seq<nat>)
    requires Linked(ms0) && Within(ms0, all) && ms0[0] == phead
    requires k > 2 && PassState(ns, ms0, p0, k, 0) && f == At(ms0, k)
    modifies all
    ensures Linked(ms) && Within(ms, all) && |ms| == |ms0| && ms[0] == phead
    ensures f' == At(ms, k - 1) && PassState(ns, ms, p, k - 1, 0)
  {
    ms, p := ms0, p0;
    var cur := phead;
    ghost var q: nat := 0;
    assert ms[0].next == ms[1] && ms[1].next == ms[2];
    while f != cur.next.next
      invariant |ms| == |ms0| && q + 2 <= k && cur == ms[q] && ms[0] == phead
      invariant Linked(ms) && Within(ms, all)
      invariant PassState(ns, ms, p, k, q)
      invariant cur.next == ms[q + 1] && ms[q + 1].next == At(ms, q + 2) && f == At(ms, k)
      decreases k - q
    {
      ms, p := CompareSwap(cur, all, ns, ms, p, k, q);
      assert ms[q].next == ms[q + 1] && ms[q + 1].next == ms[q + 2];
      assert q + 3 < |ms| ==> ms[q + 2].next == ms[q + 3];
      cur := cur.next;
      q := q + 1;
    }
    PassEnd(ns, ms, p, k);
    PassStart(ns, ms, p, k - 1);
    f' := cur.next;
  }

  /** A stable order that is sorted from the second file on is sorted and keeps ties in place. */
  lemma SortedAndStable(ns: seq<Entry>, ms: seq<Entry>, p: seq<nat>)
    requires Rearranges(ms, ns, p) && SortedFrom(ms, 2) && Stable(ms, p)
    ensures forall i, j :: 1 <= i < j < |ms| ==> NameLe(ms[i].data, ms[j].data)
    ensures forall i, j :: 1 <= i < j < |ms| && ms[i].data == ms[j].data ==> p[i] < p[j]
  {
    PermutationIsBijection(p, |ns|);
    forall i, j | 1 <= i < j < |ms| ensures NameLe(ms[i].data, ms[j].data) {
      StrLeExact(ms[i].data, ms[j].data);
    }
    forall i, j | 1 <= i < j < |ms| && ms[i].data == ms[j].data ensures p[i] < p[j] {
      StrLeTotal(ms[i].data, ms[j].data);
      assert p[i] != p[j];
    }
  }

  lemma Ends(ms: seq<Entry>)
    requires Linked(ms) && |ms| >= 2
    ensures ms[0].next == ms[1] && ms[1].next == At(ms, 2)
  {
  }

  /** Lines 185-204, for a list with at least one file behind its dummy head: the same nodes end
      up linked in name order, equal names in their old order. */
  method Sort(phead: Entry, ghost ns: seq<Entry>) returns (ghost ms: seq<Entry>, ghost p: seq<nat>)
    requires Linked(ns) && ns[0] == phead && |ns| >= 2
    modifies ns
    ensures Linked(ms) && ms[0] == phead
    ensures Rearranges(ms, ns, p) && p[0] == 0
    ensures forall i, j :: 1 <= i < j < |ms| ==> NameLe(ms[i].data, ms[j].data)
    ensures forall i, j :: 1 <= i < j < |ms| && ms[i].data == ms[j].data ==> p[i] < p[j]
  {
    ms, p := ns, Range(|ns|);
    ghost var k: nat := |ns|;
    ghost var all := set n | n in ns;
    var f: Node?<string> := null;
    PassStart(ns, ms, p, k);
    Ends(ms);
    while f != phead.next.next
      invariant PassState(ns, ms, p, k, 0) && f == At(ms, k)
      invariant Linked(ms) && Within(ms, all) && ms[0] == phead
      invariant phead.next == ms[1] && ms[1].next == At(ms, 2)
      decreases k
    {
      f, ms, p := Pass(phead, f, all, ns, ms, p, k);
      Ends(ms);
      k := k - 1;
    }
    assert k == 2;
    SortedAndStable(ns, ms, p);
  }
}
