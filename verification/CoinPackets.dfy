/** Splitting n coins into as few packets as possible so that every amount up to n can be paid
    with whole packets (Solution/huqingwei/week1/1_H.c and Solution/wuxinyue/week1H.c). */
module CoinPackets {
  import opened Counting

  function Pow2(k: nat): (p: nat)
    ensures p > k
  {
    if k == 0 then 1 else 2 * Pow2(k - 1)
  }

  lemma {:induction false} Pow2Monotone(j: nat, k: nat)
    requires j <= k
    ensures Pow2(j) <= Pow2(k)
  {
    if j < k { Pow2Monotone(j, k - 1); }
  }

  /** What the packets chosen by `mask` hold together. */
  function Paid(packets: seq<nat>, mask: seq<bool>): nat
    requires |mask| == |packets|
  {
    if packets == [] then 0
    else
      var last := |packets| - 1;
      Paid(packets[..last], mask[..last]) + if mask[last] then packets[last] else 0
  }

  ghost predicate CanPay(packets: seq<nat>, v: int) {
    exists mask: seq<bool> :: |mask| == |packets| && Paid(packets, mask) == v
  }

  function Total(packets: seq<nat>): nat {
    if packets == [] then 0 else Total(packets[..|packets| - 1]) + packets[|packets| - 1]
  }

  /** Positive packets holding `n` coins in all, with which every amount up to `n` can be paid. */
  ghost predicate Suits(packets: seq<nat>, n: nat) {
    && (forall i :: 0 <= i < |packets| ==> packets[i] > 0)
    && Total(packets) == n
    && (forall v :: 1 <= v <= n ==> CanPay(packets, v))
  }

  ghost predicate IsLeast(n: nat, k: nat) {
    && (exists packets :: Suits(packets, n) && |packets| == k)
    && (forall packets :: Suits(packets, n) ==> |packets| >= k)
  }

  // ---------- Few packets pay few amounts ----------

  ghost function Shifted(s: set<nat>, d: nat): set<nat> {
    set v | v in s :: v + d
  }

  lemma {:induction false} ShiftedSize(s: set<nat>, d: nat)
    ensures |Shifted(s, d)| <= |s|
  {
    if v :| v in s {
      ShiftedSize(s - {v}, d);
      forall x | x in Shifted(s, d) ensures x in Shifted(s - {v}, d) + {v + d} {
        var w :| w in s && w + d == x;
        assert w == v || w in s - {v};
      }
      SubsetSize(Shifted(s, d), Shifted(s - {v}, d) + {v + d});
    }
  }

  /** All amounts the packets can pay. */
  ghost function Amounts(packets: seq<nat>): (amounts: set<nat>)
    ensures |amounts| <= Pow2(|packets|)
  {
    if packets == [] then {0}
    else
      var last := |packets| - 1;
      var s := Amounts(packets[..last]);
      ShiftedSize(s, packets[last]);
      UnionSize(s, Shifted(s, packets[last]));
      s + Shifted(s, packets[last])
  }

  lemma {:induction false} PaidIsAmount(packets: seq<nat>, mask: seq<bool>)
    requires |mask| == |packets|
    ensures Paid(packets, mask) in Amounts(packets)
  {
    if packets != [] {
      var last := |packets| - 1;
      PaidIsAmount(packets[..last], mask[..last]);
    }
  }

  ghost function UpTo(n: nat): (s: set<nat>)
    ensures |s| == n + 1
    ensures forall v: nat :: v in s <==> v <= n
  {
    if n == 0 then {0} else UpTo(n - 1) + {n}
  }

  lemma {:induction false} NoneChosen(packets: seq<nat>)
    ensures Paid(packets, seq(|packets|, _ => false)) == 0
  {
    if packets != [] {
      var last := |packets| - 1;
      NoneChosen(packets[..last]);
      assert seq(|packets|, _ => false)[..last] == seq(last, _ => false);
    }
  }

  /** Packets that pay every amount up to `n` number at least log2(n + 1). */
  lemma FewPacketsFail(packets: seq<nat>, n: nat)
    requires Suits(packets, n)
    ensures n < Pow2(|packets|)
  {
    forall v: nat | v <= n ensures v in Amounts(packets) {
      if v == 0 {
        NoneChosen(packets);
        PaidIsAmount(packets, seq(|packets|, _ => false));
      } else {
        assert CanPay(packets, v);
        var mask: seq<bool> :| |mask| == |packets| && Paid(packets, mask) == v;
        PaidIsAmount(packets, mask);
      }
    }
    assert UpTo(n) <= Amounts(packets);
    SubsetSize(UpTo(n), Amounts(packets));
  }

  // ---------- Halving builds packets that suffice ----------

  /** Half of the coins, rounded up, go into one packet; the rest are split again. */
  function Halves(n: nat): seq<nat> {
    if n == 0 then [] else Halves(n / 2) + [n - n / 2]
  }

  function Bits(n: nat): nat {
    if n == 0 then 0 else 1 + Bits(n / 2)
  }

  lemma {:induction false} BitsBound(n: nat)
    ensures n < Pow2(Bits(n))
    ensures n > 0 ==> Pow2(Bits(n) - 1) <= n
  {
    if n > 0 { BitsBound(n / 2); }
  }

  /** How to pay `v` with the halved packets. */
  lemma {:induction false} HalvesPay(n: nat, v: nat) returns (mask: seq<bool>)
    requires v <= n
    ensures |mask| == |Halves(n)| && Paid(Halves(n), mask) == v
  {
    if n == 0 {
      mask := [];
    } else {
      var big, rest := n - n / 2, Halves(n / 2);
      var sub;
      if v <= n / 2 {
        sub := HalvesPay(n / 2, v);
        mask := sub + [false];
      } else {
        sub := HalvesPay(n / 2, v - big);
        mask := sub + [true];
      }
      assert (rest + [big])[..|rest|] == rest && mask[..|rest|] == sub;
    }
  }

  lemma {:induction false} HalvesShape(n: nat)
    ensures |Halves(n)| == Bits(n) && Total(Halves(n)) == n
    ensures forall i :: 0 <= i < |Halves(n)| ==> Halves(n)[i] > 0
  {
    if n > 0 {
      HalvesShape(n / 2);
      assert (Halves(n / 2) + [n - n / 2])[..|Halves(n / 2)|] == Halves(n / 2);
    }
  }

  lemma BitsIsLeast(n: nat)
    ensures IsLeast(n, Bits(n))
  {
    HalvesShape(n);
    BitsBound(n);
    forall v | 1 <= v <= n ensures CanPay(Halves(n), v) {
      var mask := HalvesPay(n, v);
    }
    forall packets | Suits(packets, n) ensures |packets| >= Bits(n) {
      FewPacketsFail(packets, n);
      if |packets| < Bits(n) {
        Pow2Monotone(|packets|, Bits(n) - 1);
      }
    }
  }

  // ---------- The two programs ----------

  /** 1_H.c counts halvings. */
  method CountHalvings(coins: nat) returns (weishu: nat)
    ensures IsLeast(coins, weishu)
  {
    weishu := 0;
    var n := coins;
    while n != 0
      invariant weishu + Bits(n) == Bits(coins)
    {
      weishu := weishu + 1;
      n := n / 2;
    }
    BitsIsLeast(coins);
  }

  /** week1H.c looks for the first power of two above the number of coins, working each power out
      afresh. With no coins at all it prints 1 all the same. */
  method FirstPower(b: int) returns (i: nat)
    ensures b >= 1 ==> IsLeast(b, i)
    ensures b < 1 ==> i == 1
    ensures b >= 0 ==> (IsLeast(b, i) <==> b >= 1)
  {
    i := 1;
    while i <= b
      invariant 1 <= i && (i > 1 ==> Pow2(i - 1) - 1 < b)
    {
      var a, sum: nat := i, 1;
      while a != 0
        invariant 0 <= a <= i && sum == Pow2(i - a)
      {
        sum := sum * 2;
        a := a - 1;
      }
      sum := sum - 1;
      if sum >= b {
        break;
      }
      i := i + 1;
    }
    if b >= 1 {
      LeastPowerIsBits(b, i);
      BitsIsLeast(b);
    } else {
      BitsIsLeast(0);
      assert !IsLeast(0, 1) by {
        if IsLeast(0, 1) { LeastIsUnique(0, 0, 1); }
      }
    }
  }

  lemma LeastPowerIsBits(n: nat, i: nat)
    requires n >= 1 && i >= 1
    requires Pow2(i) > n && (i > 1 ==> Pow2(i - 1) <= n)
    ensures i == Bits(n)
  {
    BitsBound(n);
    if i < Bits(n) { Pow2Monotone(i, Bits(n) - 1); }
    if i > Bits(n) { Pow2Monotone(Bits(n), i - 1); }
  }

  /** The two programs print the same for every positive number of coins. */
  method Both(coins: nat) returns (x: nat, y: nat)
    requires coins >= 1
    ensures x == y && IsLeast(coins, x)
  {
    x := CountHalvings(coins);
    y := FirstPower(coins);
    LeastIsUnique(coins, x, y);
  }

  lemma LeastIsUnique(n: nat, j: nat, k: nat)
    requires IsLeast(n, j) && IsLeast(n, k)
    ensures j == k
  {
  }
}
