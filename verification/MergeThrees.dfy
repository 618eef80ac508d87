/** Merging numbers into multiples of 3: two numbers may be replaced by their sum, any number of
    times, and four programs print how many multiples of 3 can be had at most. */
module MergeThrees {
  import opened Permutations

  ghost function Count(s: seq<nat>, r: nat): nat {
    if s == [] then 0 else Count(s[..|s| - 1], r) + if s[|s| - 1] % 3 == r then 1 else 0
  }

  ghost function Multiples(s: seq<nat>): nat {
    Count(s, 0)
  }

  /** Numbers `i` and `j` give way to their sum. */
  function Merge(s: seq<nat>, i: nat, j: nat): seq<nat>
    requires i < j < |s|
  {
    Without(Without(s, j), i) + [s[i] + s[j]]
  }

  ghost predicate IsRun(s: seq<nat>, moves: seq<(nat, nat)>, t: seq<nat>)
    decreases |moves|
  {
    if moves == [] then s == t
    else
      var (i, j) := moves[0];
      i < j < |s| && IsRun(Merge(s, i, j), moves[1..], t)
  }

  function Min(a: nat, b: nat): (m: nat)
    ensures m <= a && m <= b && (m == a || m == b)
  {
    if a > b then b else a
  }

  /** The printed count, in terms of how many numbers leave remainder 0, 1 and 2. */
  function Formula(zeros: nat, ones: nat, twos: nat): nat {
    var m := Min(ones, twos);
    zeros + m + (ones - m) / 3 + (twos - m) / 3
  }

  ghost function Best(s: seq<nat>): nat {
    Formula(Count(s, 0), Count(s, 1), Count(s, 2))
  }

  // ---------- Counting ----------

  lemma CountAppend(s: seq<nat>, x: nat, r: nat)
    ensures Count(s + [x], r) == Count(s, r) + if x % 3 == r then 1 else 0
  {
    assert (s + [x])[..|s|] == s;
  }

  lemma {:induction false} CountWithout(s: seq<nat>, i: nat, r: nat)
    requires i < |s|
    ensures Count(s, r) == Count(Without(s, i), r) + if s[i] % 3 == r then 1 else 0
  {
    var last := |s| - 1;
    if i == last {
      assert Without(s, i) == s[..last];
    } else {
      CountWithout(s[..last], i, r);
      assert Without(s, i)[..last - 1] == Without(s[..last], i);
    }
  }

  lemma CountMerge(s: seq<nat>, i: nat, j: nat, r: nat)
    requires i < j < |s|
    ensures Count(Merge(s, i, j), r)
         == Count(s, r) - (if s[i] % 3 == r then 1 else 0) - (if s[j] % 3 == r then 1 else 0)
          + if (s[i] + s[j]) % 3 == r then 1 else 0
  {
    CountWithout(s, j, r);
    CountWithout(Without(s, j), i, r);
    CountAppend(Without(Without(s, j), i), s[i] + s[j], r);
  }

  lemma {:induction false} Find(s: seq<nat>, r: nat) returns (i: nat)
    requires Count(s, r) > 0
    ensures i < |s| && s[i] % 3 == r
  {
    i := |s| - 1;
    if s[i] % 3 != r {
      i := Find(s[..i], r);
    }
  }

  /** Two different places holding remainders `q` and `r`. */
  lemma FindPair(s: seq<nat>, q: nat, r: nat) returns (i: nat, j: nat)
    requires Count(s, q) > 0 && Count(s, r) > (if q == r then 1 else 0)
    ensures i < j < |s|
    ensures (s[i] % 3 == q && s[j] % 3 == r) || (s[i] % 3 == r && s[j] % 3 == q)
  {
    var x := Find(s, q);
    CountWithout(s, x, r);
    var y := Find(Without(s, x), r);
    if y < x {
      i, j := y, x;
    } else {
      i, j := x, y + 1;
    }
  }

  // ---------- What a merge is ----------

  /** Two numbers leave and their sum comes. */
  lemma MergeExact(s: seq<nat>, i: nat, j: nat)
    requires i < j < |s|
    ensures |Merge(s, i, j)| == |s| - 1
    ensures multiset(Merge(s, i, j)) + multiset{s[i], s[j]} == multiset(s) + multiset{s[i] + s[j]}
  {
    WithoutMultiset(s, j);
    WithoutMultiset(Without(s, j), i);
    assert multiset(Merge(s, i, j)) == multiset(Without(Without(s, j), i)) + multiset{s[i] + s[j]};
  }

  ghost function Total(s: seq<nat>): nat {
    if s == [] then 0 else Total(s[..|s| - 1]) + s[|s| - 1]
  }

  lemma {:induction false} TotalWithout(s: seq<nat>, i: nat)
    requires i < |s|
    ensures Total(s) == Total(Without(s, i)) + s[i]
  {
    var last := |s| - 1;
    if i == last {
      assert Without(s, i) == s[..last];
    } else {
      TotalWithout(s[..last], i);
      assert Without(s, i)[..last - 1] == Without(s[..last], i);
    }
  }

  /** Merging loses nothing: a run keeps the sum of the numbers, and each merge takes one away. */
  lemma {:induction false} RunKeepsTotal(s: seq<nat>, moves: seq<(nat, nat)>, t: seq<nat>)
    requires IsRun(s, moves, t)
    ensures Total(t) == Total(s) && |t| + |moves| == |s|
    decreases |moves|
  {
    if moves != [] {
      var (i, j) := moves[0];
      var rest := Without(Without(s, j), i);
      TotalWithout(s, j);
      TotalWithout(Without(s, j), i);
      assert Merge(s, i, j)[..|rest|] == rest;
      RunKeepsTotal(Merge(s, i, j), moves[1..], t);
    }
  }

  // ---------- The bound and its attainment ----------

  function One(p: bool): nat {
    if p then 1 else 0
  }

  /** `after` counts what is left of `before` when remainders `a` and `b` give way to their sum,
      `r` being the remainder counted. */
  ghost predicate Shifts(before: nat, after: nat, a: nat, b: nat, r: nat) {
    after == before - One(a == r) - One(b == r) + One((a + b) % 3 == r)
  }

  lemma MergeShifts(s: seq<nat>, i: nat, j: nat, r: nat)
    requires i < j < |s|
    ensures Shifts(Count(s, r), Count(Merge(s, i, j), r), s[i] % 3, s[j] % 3, r)
  {
    CountMerge(s, i, j, r);
    assert (s[i] + s[j]) % 3 == (s[i] % 3 + s[j] % 3) % 3;
  }

  /** What the formula makes of such a change: it never rises, and it stays the same when a 1
      meets a 2 or when two of the three or more left over on one side meet. */
  lemma FormulaShifts(z: nat, o: nat, t: nat, z': nat, o': nat, t': nat, a: nat, b: nat)
    requires a < 3 && b < 3
    requires Shifts(z, z', a, b, 0) && Shifts(o, o', a, b, 1) && Shifts(t, t', a, b, 2)
    ensures Formula(z', o', t') <= Formula(z, o, t)
    ensures (a == 1 && b == 2) || (a == 2 && b == 1) ==> Formula(z', o', t') == Formula(z, o, t)
    ensures a == b == 1 && o >= t + 3 ==> Formula(z', o', t') == Formula(z, o, t)
    ensures a == b == 2 && t >= o + 3 ==> Formula(z', o', t') == Formula(z, o, t)
  {
    if a == b {
    } else if a == 0 || b == 0 {
    }
  }

  lemma BestShifts(s: seq<nat>, i: nat, j: nat)
    requires i < j < |s|
    ensures var (a, b, o, t) := (s[i] % 3, s[j] % 3, Count(s, 1), Count(s, 2));
            && Best(Merge(s, i, j)) <= Best(s)
            && ((a == 1 && b == 2) || (a == 2 && b == 1) || (a == b == 1 && o >= t + 3) || (a == b == 2 && t >= o + 3)
                ==> Best(Merge(s, i, j)) == Best(s))
  {
    MergeShifts(s, i, j, 0);
    MergeShifts(s, i, j, 1);
    MergeShifts(s, i, j, 2);
    var m := Merge(s, i, j);
    FormulaShifts(Count(s, 0), Count(s, 1), Count(s, 2), Count(m, 0), Count(m, 1), Count(m, 2), s[i] % 3, s[j] % 3);
  }

  /** A merge never raises the formula. */
  lemma MergeBound(s: seq<nat>, i: nat, j: nat)
    requires i < j < |s|
    ensures Best(Merge(s, i, j)) <= Best(s)
  {
    BestShifts(s, i, j);
  }

  /** No run ends with more multiples of 3 than the formula. */
  lemma {:induction false} NoRunDoesBetter(s: seq<nat>, moves: seq<(nat, nat)>, t: seq<nat>)
    requires IsRun(s, moves, t)
    ensures Multiples(t) <= Best(s)
    decreases |moves|
  {
    if moves != [] {
      var (i, j) := moves[0];
      MergeBound(s, i, j);
      NoRunDoesBetter(Merge(s, i, j), moves[1..], t);
    }
  }

  /** While the formula promises more multiples than there are, some merge keeps the promise. */
  lemma KeepPromise(s: seq<nat>) returns (i: nat, j: nat)
    requires Multiples(s) < Best(s)
    ensures i < j < |s| && Best(Merge(s, i, j)) == Best(s)
  {
    if Count(s, 1) > 0 && Count(s, 2) > 0 {
      i, j := FindPair(s, 1, 2);
    } else if Count(s, 1) > 0 {
      i, j := FindPair(s, 1, 1);
    } else {
      i, j := FindPair(s, 2, 2);
    }
    BestShifts(s, i, j);
  }

  /** Some run ends with exactly as many. */
  lemma {:induction false} SomeRunAttains(s: seq<nat>) returns (moves: seq<(nat, nat)>, t: seq<nat>)
    ensures IsRun(s, moves, t) && Multiples(t) == Best(s)
    decreases |s|
  {
    moves, t := [], s;
    if Multiples(s) != Best(s) {
      var i, j := KeepPromise(s);
      var rest;
      rest, t := SomeRunAttains(Merge(s, i, j));
      moves := [(i, j)] + rest;
      assert moves[1..] == rest;
    }
  }

  /** `count` is the largest number of multiples of 3 any run can end with. */
  ghost predicate IsMost(s: seq<nat>, count: int) {
    && (exists moves, t :: IsRun(s, moves, t) && Multiples(t) == count)
    && (forall moves, t :: IsRun(s, moves, t) ==> Multiples(t) <= count)
  }

  lemma BestIsMost(s: seq<nat>)
    ensures IsMost(s, Best(s))
  {
    var moves, t := SomeRunAttains(s);
    forall moves, t | IsRun(s, moves, t) ensures Multiples(t) <= Best(s) {
      NoRunDoesBetter(s, moves, t);
    }
  }

  // ---------- The four programs ----------

  /** Solution/huqingwei/week1/1_B.c */
  method ClosedForm(a: array<nat>) returns (num: nat)
    ensures IsMost(a[..], num)
  {
    var yu1, yu2: nat, i := 0, 0, 0;
    num := 0;
    while i < a.Length
      invariant 0 <= i <= a.Length
      invariant num == Count(a[..i], 0) && yu1 == Count(a[..i], 1) && yu2 == Count(a[..i], 2)
    {
      assert a[..i + 1] == a[..i] + [a[i]];
      CountAppend(a[..i], a[i], 0);
      CountAppend(a[..i], a[i], 1);
      CountAppend(a[..i], a[i], 2);
      if a[i] % 3 == 0 {
        num := num + 1;
      } else if a[i] % 3 == 1 {
        yu1 := yu1 + 1;
      } else if a[i] % 3 == 2 {
        yu2 := yu2 + 1;
      }
      i := i + 1;
    }
    num := num + Min(yu1, yu2);
    num := num + ((yu1 - Min(yu1, yu2)) / 3 + (yu2 - Min(yu1, yu2)) / 3);
    assert a[..i] == a[..];
    BestIsMost(a[..]);
  }

  /** Solution/liuting/hehanshu.c, which also reduces the numbers that are not multiples. */
  method BranchForm(a: array<nat>) returns (printed: nat)
    modifies a
    ensures IsMost(old(a[..]), printed)
    ensures forall k :: 0 <= k < a.Length ==>
              a[k] == if old(a[k]) % 3 == 0 then old(a[k]) else old(a[k]) % 3
  {
    ghost var s := a[..];
    var zeros: nat, sum1: nat, sum2: nat, su: nat := 0, 0, 0, 0;
    for i := 0 to a.Length
      invariant zeros == Count(s[..i], 0) && sum1 == Count(s[..i], 1) && sum2 == Count(s[..i], 2)
      invariant forall k :: i <= k < a.Length ==> a[k] == s[k]
      invariant forall k :: 0 <= k < i ==> a[k] == if s[k] % 3 == 0 then s[k] else s[k] % 3
    {
      assert s[..i + 1] == s[..i] + [s[i]];
      CountAppend(s[..i], s[i], 0);
      CountAppend(s[..i], s[i], 1);
      CountAppend(s[..i], s[i], 2);
      if a[i] % 3 == 0 {
        zeros := zeros + 1;
      } else {
        a[i] := a[i] % 3;
        if a[i] == 1 {
          sum1 := sum1 + a[i];
        } else {
          sum2 := sum2 + a[i] / 2;
        }
      }
    }
    assert s[..a.Length] == s;
    if sum1 > sum2 {
      if sum1 - sum2 >= 3 {
        su := sum1 - sum2;
        su := su / 3;
      }
      sum1 := sum2;
    } else {
      if sum2 - sum1 >= 3 {
        su := sum2 - sum1;
        su := su / 3;
      }
    }
    printed := sum1 + zeros + su;
    BestIsMost(s);
  }

  /** Tallies the remainders of the numbers read into the first three cells of `a`, as both of
      the remaining programs do. */
  method TallyRemainders(a: array<nat>, input: seq<nat>)
    requires a.Length >= 3
    modifies a
    ensures a[0] == Count(input, 0) && a[1] == Count(input, 1) && a[2] == Count(input, 2)
  {
    for k := 0 to a.Length
      invariant forall x :: 0 <= x < k ==> a[x] == 0
    {
      a[k] := 0;
    }
    for i := 0 to |input|
      invariant a[0] == Count(input[..i], 0) && a[1] == Count(input[..i], 1) && a[2] == Count(input[..i], 2)
    {
      assert input[..i + 1] == input[..i] + [input[i]];
      CountAppend(input[..i], input[i], 0);
      CountAppend(input[..i], input[i], 1);
      CountAppend(input[..i], input[i], 2);
      a[input[i] % 3] := a[input[i] % 3] + 1;
    }
    assert input[..|input|] == input;
  }

  /** Solution/wuxinyue/week1B.c */
  method ThreeCases(a: array<nat>, input: seq<nat>) returns (count: nat)
    requires a.Length == 1000
    modifies a
    ensures IsMost(input, count)
  {
    var b: nat := 0;
    count := 0;
    TallyRemainders(a, input);
    if a[1] > a[2] {
      var temp := a[1] - a[2];
      b := temp / 3;
      count := a[0] + a[2] + b;
    }
    if a[2] > a[1] {
      var temp := a[2] - a[1];
      b := temp / 3;
      count := a[0] + a[1] + b;
    }
    if a[2] == a[1] {
      count := a[2] + a[0];
    }
    BestIsMost(input);
  }

  /** Solution/wuxinyue/week1b.c */
  method SwapForm(a: array<nat>, input: seq<nat>) returns (count: nat)
    requires a.Length == 3
    modifies a
    ensures IsMost(input, count)
  {
    count := 0;
    TallyRemainders(a, input);
    if a[2] < a[1] {
      var temp := a[2];
      a[2] := a[1];
      a[1] := temp;
    }
    count := a[0] + a[1] + (a[2] - a[1]) / 3;
    BestIsMost(input);
  }

  /** The four programs print the same number for the same input. */
  method AllFour(input: seq<nat>) returns (w: int, x: int, y: int, z: int)
    ensures w == x == y == z && IsMost(input, w)
  {
    var a := new nat[|input|](i requires 0 <= i < |input| => input[i]);
    assert a[..] == input;
    w := ClosedForm(a);
    assert a[..] == input;
    x := BranchForm(a);
    var cells := new nat[1000];
    y := ThreeCases(cells, input);
    var three := new nat[3];
    z := SwapForm(three, input);
    MostIsUnique(input, w, x);
    MostIsUnique(input, w, y);
    MostIsUnique(input, w, z);
  }

  lemma MostIsUnique(s: seq<nat>, x: int, y: int)
    requires IsMost(s, x) && IsMost(s, y)
    ensures x == y
  {
  }
}
