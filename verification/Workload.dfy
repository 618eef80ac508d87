/** The least number of lines to begin with so that v + v/k + v/k^2 + ... reaches n
    (Solution/huqingwei/week1/1_G.c and Solution/wuxinyue/week1G.c), all divisions rounding down. */
module Workload {

  function Pow(k: nat, i: nat): (p: nat)
    requires k >= 1
    ensures p >= 1
  {
    if i == 0 then 1 else k * Pow(k, i - 1)
  }

  function Term(k: nat, v: nat, i: nat): nat
    requires k >= 1
  {
    v / Pow(k, i)
  }

  /** The first `m` terms of the sum. */
  function SumTo(k: nat, v: nat, m: nat): nat
    requires k >= 1
  {
    if m == 0 then 0 else SumTo(k, v, m - 1) + Term(k, v, m - 1)
  }

  /** Enough terms of the sum reach `n`. */
  ghost predicate Reaches(n: int, k: nat, v: nat)
    requires k >= 1
  {
    exists m: nat :: SumTo(k, v, m) >= n
  }

  /** The least `v` of at least 1 for which the sum reaches `n`. */
  ghost predicate IsLeast(n: int, k: nat, v: nat)
    requires k >= 1
  {
    && v >= 1 && Reaches(n, k, v)
    && forall u: nat :: u < v ==> !Reaches(n, k, u)
  }

  // ---------- Division ----------

  lemma {:induction false} MulGap(d: nat, q: nat, q': nat)
    requires q < q'
    ensures d * q + d <= d * q'
  {
    assert d * q' == d * (q' - 1) + d;
    if q < q' - 1 { MulGap(d, q, q' - 1); }
  }

  lemma QuotientUnique(d: nat, q: nat, r: nat, q': nat, r': nat)
    requires r < d && r' < d && d * q + r == d * q' + r'
    ensures q == q'
  {
    if q < q' { MulGap(d, q, q'); }
    if q' < q { MulGap(d, q', q); }
  }

  lemma DivUnique(x: nat, d: nat, q: nat, r: nat)
    requires r < d && x == d * q + r
    ensures x / d == q
  {
    QuotientUnique(d, q, r, x / d, x % d);
  }

  lemma Nest(a: nat, k: nat, q2: nat, r2: nat, r: nat)
    requires r < a && r2 < k
    ensures a * (k * q2 + r2) + r == (a * k) * q2 + (a * r2 + r)
    ensures a * r2 + r < a * k
  {
    MulGap(a, r2, k);
  }

  lemma NestedDiv(v: nat, a: nat, k: nat, q: nat, r: nat, q2: nat, r2: nat)
    requires v == a * q + r && r < a
    requires q == k * q2 + r2 && r2 < k
    ensures a * k >= 1 && v / (a * k) == q2
  {
    Nest(a, k, q2, r2, r);
    DivUnique(v, a * k, q2, a * r2 + r);
  }

  /** Dividing twice is dividing by the product. */
  lemma DivTwice(v: nat, a: nat, k: nat)
    requires a >= 1 && k >= 1
    ensures a * k >= 1 && v / (a * k) == v / a / k
  {
    var q := v / a;
    NestedDiv(v, a, k, q, v % a, q / k, q % k);
  }

  lemma DivMonotone(v: nat, w: nat, d: nat)
    requires v <= w && d >= 1
    ensures v / d <= w / d
  {
    if w / d < v / d { MulGap(d, w / d, v / d); }
  }

  // ---------- The sum ----------

  lemma NextTerm(k: nat, v: nat, i: nat)
    requires k >= 1
    ensures Term(k, v, i + 1) == Term(k, v, i) / k
  {
    DivTwice(v, Pow(k, i), k);
  }

  /** Once a term is 0, all later ones are, and the sum is complete. */
  lemma {:induction false} ZeroFrom(k: nat, v: nat, i: nat, j: nat)
    requires k >= 1 && Term(k, v, i) == 0 && i <= j
    ensures Term(k, v, j) == 0 && SumTo(k, v, j) == SumTo(k, v, i)
  {
    if i < j {
      ZeroFrom(k, v, i, j - 1);
      NextTerm(k, v, j - 1);
    }
  }

  lemma {:induction false} SumGrows(k: nat, v: nat, i: nat, j: nat)
    requires k >= 1 && i <= j
    ensures SumTo(k, v, i) <= SumTo(k, v, j)
  {
    if i < j { SumGrows(k, v, i, j - 1); }
  }

  /** Once a term is 0, no number of terms adds up to more than those before it. */
  lemma Complete(n: int, k: nat, v: nat, i: nat)
    requires k >= 1 && Term(k, v, i) == 0
    ensures Reaches(n, k, v) <==> SumTo(k, v, i) >= n
  {
    if m: nat :| SumTo(k, v, m) >= n {
      if i <= m {
        ZeroFrom(k, v, i, m);
      } else {
        SumGrows(k, v, m, i);
      }
    }
  }

  lemma {:induction false} SumMonotone(k: nat, v: nat, w: nat, m: nat)
    requires k >= 1 && v <= w
    ensures SumTo(k, v, m) <= SumTo(k, w, m)
  {
    if m > 0 {
      SumMonotone(k, v, w, m - 1);
      DivMonotone(v, w, Pow(k, m - 1));
    }
  }

  /** Starting with more lines, at least as many get written. */
  lemma ReachesMonotone(n: int, k: nat, v: nat, w: nat)
    requires k >= 1 && v <= w && Reaches(n, k, v)
    ensures Reaches(n, k, w)
  {
    var m: nat :| SumTo(k, v, m) >= n;
    SumMonotone(k, v, w, m);
  }

  /** The first term is `v` itself. */
  lemma FirstTerm(k: nat, v: nat)
    requires k >= 1
    ensures Term(k, v, 0) == v && SumTo(k, v, 1) == v
  {
    assert Term(k, v, 0) == v / 1;
    assert SumTo(k, v, 1) == SumTo(k, v, 0) + Term(k, v, 0);
  }

  lemma NothingFromNothing(n: int, k: nat)
    requires k >= 1 && n >= 1
    ensures !Reaches(n, k, 0)
  {
    FirstTerm(k, 0);
    Complete(n, k, 0, 0);
  }

  // ---------- The two tests ----------

  /** `wancheng` divides again and again. */
  method Wancheng(n: int, k: nat, v0: nat) returns (enough: bool)
    requires k >= 2
    ensures enough <==> Reaches(n, k, v0)
  {
    var v, worked := v0, v0;
    ghost var i := 0;
    FirstTerm(k, v0);
    while v != 0
      invariant 0 <= i && v == Term(k, v0, i) && worked == SumTo(k, v0, i + 1)
      decreases v
    {
      NextTerm(k, v0, i);
      DivLess(v, k);
      worked := worked + v / k;
      v := v / k;
      i := i + 1;
    }
    ZeroFrom(k, v0, i, i + 1);
    Complete(n, k, v0, i);
    enough := worked >= n;
  }

  lemma DivLess(v: nat, k: nat)
    requires k >= 2 && v > 0
    ensures v / k < v
  {
  }

  /** `area` divides by growing powers and stops early once the sum is large enough, which with
      `k` = 1 is the only way its loop ends. */
  method Area(c: int, k: nat, num: nat) returns (r: nat)
    requires k >= 1
    ensures r == if Reaches(c, k, num) then num else 0
  {
    var sum, a := num, k;
    ghost var i := 1;
    FirstTerm(k, num);
    assert Pow(k, 1) == k * Pow(k, 0) == k;
    while num / a != 0 && sum < c
      invariant 1 <= i && a == Pow(k, i) && a >= 1 && sum == SumTo(k, num, i)
      decreases c - sum
    {
      sum := sum + num / a;
      assert a * k == k * a;
      a := a * k;
      i := i + 1;
    }
    if num / a == 0 {
      Complete(c, k, num, i);
    }
    if sum >= c {
      r := num;
    } else {
      r := 0;
    }
  }

  // ---------- The two searches ----------

  /** Every start below `lo` is too small and every start above `hi` is enough. */
  ghost predicate Narrowed(n: int, k: nat, lo: int, hi: int)
    requires k >= 1
  {
    && 0 <= lo <= hi + 1
    && (forall u: nat :: u < lo ==> !Reaches(n, k, u))
    && (forall u: nat :: u > hi ==> Reaches(n, k, u))
  }

  lemma NarrowStart(n: int, k: nat, lo: int)
    requires k >= 1 && n >= 1 && 0 <= lo <= 1
    ensures Narrowed(n, k, lo, n)
  {
    NothingFromNothing(n, k);
    forall u: nat | u > n ensures Reaches(n, k, u) {
      FirstTerm(k, u);
    }
  }

  lemma Narrow(n: int, k: nat, lo: int, hi: int, mid: nat)
    requires k >= 1 && Narrowed(n, k, lo, hi) && lo <= mid <= hi
    ensures if Reaches(n, k, mid) then Narrowed(n, k, lo, mid - 1) else Narrowed(n, k, mid + 1, hi)
  {
    if Reaches(n, k, mid) {
      forall u: nat | u > mid - 1 ensures Reaches(n, k, u) { ReachesMonotone(n, k, mid, u); }
    } else {
      forall u: nat | u < mid + 1 ensures !Reaches(n, k, u) {
        if Reaches(n, k, u) { ReachesMonotone(n, k, u, mid); }
      }
    }
  }

  lemma NarrowedIsLeast(n: int, k: nat, v: nat)
    requires k >= 1 && n >= 1 && Narrowed(n, k, v, v - 1)
    ensures IsLeast(n, k, v)
  {
    NothingFromNothing(n, k);
  }

  /** `main` of 1_G.c */
  method LeastByWancheng(n: int, k: nat) returns (head: nat)
    requires k >= 2
    ensures n >= 1 ==> IsLeast(n, k, head)
    ensures n < 1 ==> head == 1
  {
    head := 1;
    var tail := n;
    if n >= 1 { NarrowStart(n, k, 1); }
    while head <= tail
      invariant head >= 1 && (n >= 1 ==> Narrowed(n, k, head, tail)) && (n < 1 ==> head == 1 && tail == n)
      decreases tail + 1 - head
    {
      var mid := (head + tail) / 2;
      var enough := Wancheng(n, k, mid);
      Narrow(n, k, head, tail, mid);
      if enough {
        tail := mid - 1;
      } else {
        head := mid + 1;
      }
    }
    if n >= 1 { NarrowedIsLeast(n, k, head); }
  }

  /** The search of week1G.c can still be at `i` and `n`, with `mid` and `t` from the last test. */
  ghost predicate Searching(c: int, k: nat, i: int, n: int, mid: int, t: int)
    requires k >= 1
  {
    && Narrowed(c, k, i, n)
    && ((i == 0 && n == c) || if t == 0 then i == mid + 1 else n == mid - 1 && i <= mid)
  }

  lemma SearchOn(c: int, k: nat, i: int, n: int, mid: nat, t: nat)
    requires k >= 1 && c >= 1 && Narrowed(c, k, i, n) && i <= mid <= n
    requires t == if Reaches(c, k, mid) then mid else 0
    ensures if t > 0 then Searching(c, k, i, mid - 1, mid, t) else Searching(c, k, mid + 1, n, mid, t)
  {
    Narrow(c, k, i, n, mid);
    if mid == 0 { NothingFromNothing(c, k); }
  }

  /** `main` of week1G.c, which searches from 0 and takes the answer from the last test. `t0` and
      `mid0` are what `t` and `mid` hold beforehand, which is printed if there is no test. */
  method LeastByArea(c: int, k: nat, t0: int, mid0: int) returns (printed: int)
    requires k >= 1
    ensures c >= 1 ==> printed >= 1 && IsLeast(c, k, printed)
    ensures c == 0 ==> printed == 1
    ensures c < 0 ==> printed == if t0 == 0 then mid0 + 1 else mid0
  {
    var n, i, mid, t := c, 0, mid0, t0;
    if c >= 1 { NarrowStart(c, k, 0); }
    while i <= n
      invariant 0 <= i && (c >= 1 ==> Searching(c, k, i, n, mid, t))
      invariant c == 0 ==> n == 0 && (i == 0 || (i == 1 && mid == 0 && t == 0))
      invariant c < 0 ==> n == c && i == 0 && mid == mid0 && t == t0
      decreases n + 1 - i
    {
      mid := (i + n) / 2;
      t := Area(c, k, mid);
      if c >= 1 { SearchOn(c, k, i, n, mid, t); }
      if t > 0 {
        n := mid - 1;
      } else {
        i := mid + 1;
      }
    }
    if c >= 1 { NarrowedIsLeast(c, k, i); }
    if t == 0 {
      printed := mid + 1;
    } else {
      printed := mid;
    }
  }

  /** The two programs print the same, unless the second prints what it never set. */
  method Both(n: int, k: nat, t0: int, mid0: int) returns (x: nat, y: int)
    requires k >= 2
    ensures n >= 0 ==> x == y
    ensures n >= 1 ==> IsLeast(n, k, x)
  {
    x := LeastByWancheng(n, k);
    y := LeastByArea(n, k, t0, mid0);
    if n >= 1 { assert !(x < y) && !(y < x); }
  }
}
