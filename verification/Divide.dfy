/** The steps n/2, 2n/3 and 4n/5, each taken only when it divides: three programs apply them in
    different orders of preference (Solution/huqingwei/week1/1_A.c, Solution/liuting/1.c and
    Solution/wuxinyue/week1A.c). */
module Divide {

  datatype Rule = Half | TwoThirds | FourFifths

  predicate Applies(n: int, rule: Rule) {
    match rule
    case Half => n % 2 == 0
    case TwoThirds => n % 3 == 0
    case FourFifths => n % 5 == 0
  }

  /** Half of `n`, two thirds of it, or four fifths. */
  function Step(n: int, rule: Rule): (m: int)
    ensures Applies(n, rule) ==>
              match rule case Half => 2 * m == n case TwoThirds => 3 * m == 2 * n case FourFifths => 5 * m == 4 * n
  {
    match rule
    case Half => n / 2
    case TwoThirds => n / 3 * 2
    case FourFifths => n / 5 * 4
  }

  ghost predicate IsRun(n: int, rules: seq<Rule>, m: int)
    decreases |rules|
  {
    if rules == [] then n == m
    else Applies(n, rules[0]) && IsRun(Step(n, rules[0]), rules[1..], m)
  }

  ghost predicate Stuck(n: int) {
    forall rule :: !Applies(n, rule)
  }

  /** How many steps `n` has in it: one per factor 2, two per factor 3, three per factor 5. */
  function Weight(n: int): nat
    requires n >= 1
  {
    if n % 2 == 0 then 1 + Weight(n / 2)
    else if n % 3 == 0 then 2 + Weight(n / 3)
    else if n % 5 == 0 then 3 + Weight(n / 5)
    else 0
  }

  /** What is left of `n` without its factors 2, 3 and 5. */
  function Core(n: int): (m: int)
    requires n >= 1
    ensures 1 <= m <= n
  {
    if n % 2 == 0 then Core(n / 2)
    else if n % 3 == 0 then Core(n / 3)
    else if n % 5 == 0 then Core(n / 5)
    else n
  }

  lemma Double(n: int)
    requires n >= 1
    ensures Weight(2 * n) == 1 + Weight(n) && Core(2 * n) == Core(n)
  {
  }

  lemma ThreeTimes(n: int)
    requires n >= 1
    ensures 3 * n % 3 == 0 && 3 * n / 3 == n && 3 * n % 2 == n % 2
    ensures n % 2 == 0 ==> 3 * n / 2 == 3 * (n / 2)
  {
  }

  lemma FiveTimes(n: int)
    requires n >= 1
    ensures 5 * n % 5 == 0 && 5 * n / 5 == n && 5 * n % 2 == n % 2
    ensures n % 2 == 0 ==> 5 * n / 2 == 5 * (n / 2)
    ensures 5 * n % 3 == 0 <==> n % 3 == 0
    ensures n % 3 == 0 ==> 5 * n / 3 == 5 * (n / 3)
  {
  }

  lemma {:induction false} Triple(n: int)
    requires n >= 1
    ensures Weight(3 * n) == 2 + Weight(n) && Core(3 * n) == Core(n)
  {
    ThreeTimes(n);
    if n % 2 == 0 { Triple(n / 2); }
  }

  lemma {:induction false} Quintuple(n: int)
    requires n >= 1
    ensures Weight(5 * n) == 3 + Weight(n) && Core(5 * n) == Core(n)
  {
    FiveTimes(n);
    if n % 2 == 0 {
      Quintuple(n / 2);
    } else if n % 3 == 0 {
      Quintuple(n / 3);
    }
  }

  /** Of the multiples of `m`, each step goes to one of weight one less. */
  lemma Ladder(m: int)
    requires m >= 1
    ensures Weight(m) == Weight(2 * m) - 1 && Core(m) == Core(2 * m)
    ensures Weight(2 * m) == Weight(3 * m) - 1 && Core(2 * m) == Core(3 * m)
    ensures Weight(4 * m) == Weight(5 * m) - 1 && Core(4 * m) == Core(5 * m)
  {
    Double(m);
    Double(2 * m);
    Triple(m);
    Quintuple(m);
  }

  /** A step goes from 2m to m, from 3m to 2m, or from 5m to 4m. */
  lemma StepMultiples(n: int, rule: Rule) returns (m: int)
    requires n >= 1 && Applies(n, rule)
    ensures m >= 1
    ensures match rule
            case Half => n == 2 * m && Step(n, rule) == m
            case TwoThirds => n == 3 * m && Step(n, rule) == 2 * m
            case FourFifths => n == 5 * m && Step(n, rule) == 4 * m
  {
    m := if rule == Half then n / 2 else if rule == TwoThirds then n / 3 else n / 5;
  }

  /** Every step takes one off the weight and leaves the core alone, whichever step it is. */
  lemma StepWeight(n: int, rule: Rule)
    requires n >= 1 && Applies(n, rule)
    ensures 1 <= Step(n, rule) < n
    ensures Weight(Step(n, rule)) == Weight(n) - 1 && Core(Step(n, rule)) == Core(n)
  {
    var m := StepMultiples(n, rule);
    Ladder(m);
  }

  lemma StuckWeight(n: int)
    requires n >= 1
    ensures Stuck(n) <==> Weight(n) == 0
    ensures Stuck(n) ==> Core(n) == n
  {
    assert Applies(n, Half) <==> n % 2 == 0;
    assert Applies(n, TwoThirds) <==> n % 3 == 0;
    assert Applies(n, FourFifths) <==> n % 5 == 0;
  }

  lemma {:induction false} RunWeight(n: int, rules: seq<Rule>, m: int)
    requires n >= 1 && IsRun(n, rules, m)
    ensures m >= 1 && Weight(m) + |rules| == Weight(n) && Core(m) == Core(n)
    decreases |rules|
  {
    if rules != [] {
      StepWeight(n, rules[0]);
      RunWeight(Step(n, rules[0]), rules[1..], m);
    }
  }

  /** Confluence: all maximal runs from `n` end at the same number after equally many steps. */
  lemma Confluence(n: int, rules1: seq<Rule>, m1: int, rules2: seq<Rule>, m2: int)
    requires n >= 1
    requires IsRun(n, rules1, m1) && Stuck(m1)
    requires IsRun(n, rules2, m2) && Stuck(m2)
    ensures m1 == m2 && |rules1| == |rules2|
  {
    RunWeight(n, rules1, m1);
    RunWeight(n, rules2, m2);
    StuckWeight(m1);
    StuckWeight(m2);
  }

  // ---------- In terms of the factorisation ----------

  function Pow(b: nat, e: nat): nat {
    if e == 0 then 1 else b * Pow(b, e - 1)
  }

  lemma Regroup(b: int, p: int, x: int)
    ensures b * p * x == b * (p * x)
  {
  }

  lemma {:induction false} FactorOut(b: nat, e: nat, x: int, per: nat)
    requires x >= 1 && e >= 1
    requires b == 2 || b == 3 || b == 5
    requires per == if b == 2 then 1 else if b == 3 then 2 else 3
    ensures Pow(b, e) * x >= 1
    ensures Weight(Pow(b, e) * x) == per * e + Weight(x) && Core(Pow(b, e) * x) == Core(x)
  {
    var y := Pow(b, e - 1) * x;
    if e == 1 {
      assert Pow(b, 0) * x == x;
    } else {
      FactorOut(b, e - 1, x, per);
    }
    Regroup(b, Pow(b, e - 1), x);
    if b == 2 { Double(y); } else if b == 3 { Triple(y); } else { Quintuple(y); }
  }

  lemma Powers(b: nat, e: nat, x: int, per: nat)
    requires x >= 1
    requires b == 2 || b == 3 || b == 5
    requires per == if b == 2 then 1 else if b == 3 then 2 else 3
    ensures Pow(b, e) * x >= 1
    ensures Weight(Pow(b, e) * x) == per * e + Weight(x) && Core(Pow(b, e) * x) == Core(x)
  {
    if e > 0 { FactorOut(b, e, x, per); }
  }

  /** For n = 2^a 3^b 5^c m with m free of those factors, every maximal run takes a + 2b + 3c
      steps and ends at m. */
  lemma RunLength(n: int, a: nat, b: nat, c: nat, m: int)
    requires m >= 1 && m % 2 != 0 && m % 3 != 0 && m % 5 != 0
    requires n == Pow(2, a) * (Pow(3, b) * (Pow(5, c) * m))
    ensures forall rules, end :: IsRun(n, rules, end) && Stuck(end) ==> |rules| == a + 2 * b + 3 * c && end == m
  {
    Powers(5, c, m, 3);
    Powers(3, b, Pow(5, c) * m, 2);
    Powers(2, a, Pow(3, b) * (Pow(5, c) * m), 1);
    forall rules, end | IsRun(n, rules, end) && Stuck(end)
      ensures |rules| == a + 2 * b + 3 * c && end == m
    {
      RunWeight(n, rules, end);
      StuckWeight(end);
    }
  }

  // ---------- The programs ----------

  /** The C type `long long`: the verifier checks that no result leaves its range. */
  newtype LongLong = x: int | -0x8000_0000_0000_0000 <= x < 0x8000_0000_0000_0000

  const LIMIT: int := 1_000_000_000_000_000_000

  /** What is to be printed for `n`: the length of the runs that reach 1, or -1 if none does. */
  ghost predicate IsAnswer(n: int, printed: int) {
    && (forall rules :: IsRun(n, rules, 1) ==> printed == |rules|)
    && ((forall rules :: !IsRun(n, rules, 1)) ==> printed == -1)
  }

  /** The end of a maximal run settles the answer. */
  lemma Settles(n: int, rules: seq<Rule>, m: int)
    requires n >= 1 && IsRun(n, rules, m) && Stuck(m)
    ensures IsAnswer(n, if m == 1 then |rules| else -1)
  {
    RunWeight(n, rules, m);
    StuckWeight(m);
    StuckWeight(1);
    forall other | IsRun(n, other, 1) ensures m == 1 && |other| == |rules| {
      RunWeight(n, other, 1);
    }
  }

  lemma {:induction false} Extend(n: int, rules: seq<Rule>, m: int, rule: Rule)
    requires IsRun(n, rules, m) && Applies(m, rule)
    ensures IsRun(n, rules + [rule], Step(m, rule))
    decreases |rules|
  {
    if rules != [] {
      Extend(Step(n, rules[0]), rules[1..], m, rule);
      assert (rules + [rule])[1..] == rules[1..] + [rule];
    }
  }

  /** A negative number stays negative, so it never reaches 1. */
  lemma {:induction false} NegativeRun(n: int, rules: seq<Rule>, m: int)
    requires n < 0 && IsRun(n, rules, m)
    ensures m < 0
    decreases |rules|
  {
    if rules != [] {
      NegativeRun(Step(n, rules[0]), rules[1..], m);
    }
  }

  lemma NegativeNeverOne(n: int)
    requires n < 0
    ensures forall rules :: !IsRun(n, rules, 1)
  {
    forall rules ensures !IsRun(n, rules, 1) {
      if IsRun(n, rules, 1) { NegativeRun(n, rules, 1); }
    }
  }

  /** 1_A.c: prefers n/2, then 2n/3, then 4n/5. Zero would never leave its loop. */
  method TwoThreeFive(q: LongLong) returns (printed: int)
    requires q != 0 && -LIMIT <= q as int <= LIMIT
    ensures IsAnswer(q as int, printed)
  {
    var n, step := q, 0;
    ghost var rules := [];
    while n % 2 == 0 || n % 3 == 0 || n % 5 == 0
      invariant n != 0 && -LIMIT <= n as int <= LIMIT && (n < 0 <==> q < 0)
      invariant IsRun(q as int, rules, n as int) && step == |rules|
      decreases if n < 0 then -(n as int) else n as int
    {
      ghost var rule := if n % 2 == 0 then Half else if n % 3 == 0 then TwoThirds else FourFifths;
      Extend(q as int, rules, n as int, rule);
      rules := rules + [rule];
      if 0 == n % 2 {
        n := n / 2;
      } else if 0 == n % 3 {
        n := n * 2 / 3;
      } else if 0 == n % 5 {
        n := n * 4 / 5;
      }
      step := step + 1;
    }
    if q > 0 {
      Settles(q as int, rules, n as int);
    } else {
      NegativeNeverOne(q as int);
    }
    printed := if 1 == n then step else -1;
  }

  /** `fun` of 1.c: prefers 2n/3, then 4n/5, then n/2. */
  method ThreeFiveTwo(q: LongLong) returns (printed: int)
    requires q >= 1
    ensures IsAnswer(q as int, printed)
  {
    var a, i := q, 0;
    ghost var rules := [];
    while a != 1 && i != -1
      invariant 1 <= a && -1 <= i
      invariant IsRun(q as int, rules, a as int)
      invariant i == -1 || i == |rules|
      invariant i == -1 ==> a != 1 && Stuck(a as int)
      decreases a as int, i
    {
      ghost var before := a as int;
      if a % 3 == 0 {
        Extend(q as int, rules, before, TwoThirds);
        rules := rules + [TwoThirds];
        a := (a / 3) * 2;
        i := i + 1;
      } else if a % 5 == 0 {
        Extend(q as int, rules, before, FourFifths);
        rules := rules + [FourFifths];
        a := (a / 5) * 4;
        i := i + 1;
      } else if a % 2 == 0 {
        Extend(q as int, rules, before, Half);
        rules := rules + [Half];
        a := a / 2;
        i := i + 1;
      } else {
        i := -1;
      }
    }
    Settles(q as int, rules, a as int);
    printed := i;
  }

  /** The distance between neighbouring numbers of type `double` around `x`. */
  function Spacing(x: nat): (u: nat)
    ensures u >= 1
  {
    if x < 0x20_0000_0000_0000 then 1 else 2 * Spacing(x / 2)
  }

  /** The nearest multiple of `u`, the even one if two are equally near. */
  function RoundTo(x: nat, u: nat): nat
    requires u >= 1
  {
    var d, r := x / u, x % u;
    if 2 * r < u || (2 * r == u && d % 2 == 0) then d * u else (d + 1) * u
  }

  /** `x` as a `double`. */
  function AsDouble(x: nat): nat {
    RoundTo(x, Spacing(x))
  }

  /** The spacing doubles with every power of two from 2^53 on. */
  lemma {:induction false} SpacingBound(x: nat, e: nat)
    requires x < 0x20_0000_0000_0000 * Pow(2, e)
    ensures Spacing(x) <= Pow(2, e)
    ensures x >= 0x10_0000_0000_0000 * Pow(2, e) ==> Spacing(x) == Pow(2, e)
  {
    if e > 0 {
      assert Pow(2, e) == 2 * Pow(2, e - 1);
      SpacingBound(x / 2, e - 1);
    }
  }

  lemma RoundClose(x: nat, u: nat)
    requires u >= 1
    ensures 2 * x - u <= 2 * RoundTo(x, u) <= 2 * x + u
  {
    assert x == x / u * u + x % u;
  }

  /** The floating-point comparison of 1.c also lets the numbers through that round to 10^18. */
  lemma GuardRounds(q: LongLong)
    requires q >= 1
    ensures AsDouble(q as int) <= LIMIT <==> q as int <= LIMIT + 64
  {
    var x := q as int;
    assert Pow(2, 3) == 8;
    assert Pow(2, 6) == 64 && Pow(2, 7) == 128;
    assert Pow(2, 9) == 512 && Pow(2, 10) == 1024;
    RoundClose(x, Spacing(x));
    if x < 0x800_0000_0000_0000 {
      SpacingBound(x, 6);
    } else if x < 0x1000_0000_0000_0000 {
      SpacingBound(x, 7);
    } else {
      SpacingBound(x, 10);
    }
  }

  /** `main` of 1.c, which compares with 10^18 as a `double`: it prints the answer up to
      10^18 + 64, and nothing above that or below 1. */
  method GuardedFun(q: LongLong) returns (printed: seq<int>)
    ensures 1 <= q as int <= LIMIT + 64 ==> |printed| == 1 && IsAnswer(q as int, printed[0])
    ensures !(1 <= q as int <= LIMIT + 64) ==> printed == []
  {
    printed := [];
    if q >= 1 { GuardRounds(q); }
    if q >= 1 && AsDouble(q as int) <= LIMIT {
      var i := ThreeFiveTwo(q);
      printed := [i];
    }
  }

  /** week1A.c: prefers 4n/5, then 2n/3, then n/2, and prints -1 for anything below 1. */
  method FiveThreeTwo(q: LongLong) returns (printed: seq<int>)
    requires q as int <= LIMIT
    ensures |printed| == 1
    ensures q >= 1 ==> IsAnswer(q as int, printed[0])
    ensures q < 1 ==> printed[0] == -1
  {
    printed := [];
    var n, i := q, 0;
    if n < 1 {
      return [-1];
    }
    StuckWeight(1);
    if n == 1 {
      Settles(1, [], 1);
      return [0];
    }
    ghost var rules := [];
    while n != 1 && n > 1
      invariant 1 <= n as int <= LIMIT
      invariant IsRun(q as int, rules, n as int) && i == |rules| && printed == []
      decreases n as int
    {
      ghost var before := n as int;
      if n % 5 == 0 {
        Extend(q as int, rules, before, FourFifths);
        rules := rules + [FourFifths];
        n := 4 * n / 5;
        i := i + 1;
        continue;
      }
      if n % 3 == 0 {
        Extend(q as int, rules, before, TwoThirds);
        rules := rules + [TwoThirds];
        n := 2 * n / 3;
        i := i + 1;
        continue;
      }
      if n % 2 == 0 {
        Extend(q as int, rules, before, Half);
        rules := rules + [Half];
        n := n / 2;
        i := i + 1;
      } else {
        printed := printed + [-1];
        break;
      }
    }
    Settles(q as int, rules, n as int);
    if n == 1 {
      printed := printed + [i];
    }
  }

  /** The three programs print the same for every n from 1 to 10^18. */
  method AllThree(q: LongLong) returns (a: int, b: seq<int>, c: seq<int>)
    requires 1 <= q as int <= LIMIT
    ensures IsAnswer(q as int, a) && b == c == [a]
  {
    a := TwoThreeFive(q);
    b := GuardedFun(q);
    c := FiveThreeTwo(q);
    AnswerIsUnique(q as int, a, b[0]);
    AnswerIsUnique(q as int, a, c[0]);
  }

  lemma AnswerIsUnique(n: int, x: int, y: int)
    requires IsAnswer(n, x) && IsAnswer(n, y)
    ensures x == y
  {
    if rules :| IsRun(n, rules, 1) {
      assert x == |rules| == y;
    }
  }
}
