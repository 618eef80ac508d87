/** Trading for as much as possible on a budget (Solution/liuting/17.c): each room gives `gain`
    in full for `cost`, or any fraction of it for the same fraction of the cost. */
module Trade {
  import opened Permutations

  /** `j`, `f` and `arg` of the source. */
  datatype Room = Room(gain: real, cost: real, ratio: real)

  ghost predicate Entered(rooms: seq<Room>) {
    forall k :: 0 <= k < |rooms| ==>
      rooms[k].gain >= 0.0 && rooms[k].cost > 0.0 && rooms[k].ratio == rooms[k].gain / rooms[k].cost
  }

  /** The fraction taken of each room. */
  type Choice = seq<real>

  ghost predicate IsChoice(rooms: seq<Room>, x: Choice) {
    |x| == |rooms| && forall k :: 0 <= k < |x| ==> 0.0 <= x[k] <= 1.0
  }

  ghost function AddReal(x: real, y: real): real { x + y }

  ghost function Total(s: seq<real>): real { Fold(AddReal, 0.0, s) }

  ghost function Gains(rooms: seq<Room>, x: Choice): (w: seq<real>)
    requires |x| == |rooms|
    ensures |w| == |rooms|
  {
    seq(|x|, k requires 0 <= k < |x| => x[k] * rooms[k].gain)
  }

  ghost function Costs(rooms: seq<Room>, x: Choice): (w: seq<real>)
    requires |x| == |rooms|
    ensures |w| == |rooms|
  {
    seq(|x|, k requires 0 <= k < |x| => x[k] * rooms[k].cost)
  }

  ghost predicate Affordable(rooms: seq<Room>, budget: real, x: Choice) {
    IsChoice(rooms, x) && Total(Costs(rooms, x)) <= budget
  }

  /** `gain` is the most any affordable choice brings. */
  ghost predicate IsOptimum(rooms: seq<Room>, budget: real, gain: real) {
    && (exists x :: Affordable(rooms, budget, x) && Total(Gains(rooms, x)) == gain)
    && (forall x :: Affordable(rooms, budget, x) ==> Total(Gains(rooms, x)) <= gain)
  }

  function All(n: nat): (x: Choice)
    ensures |x| == n
  {
    seq(n, _ => 1.0)
  }

  /** The whole of the first `i` rooms, `part` of room `i`, and none of the rest. */
  function FirstRooms(n: nat, i: nat, part: real): (x: Choice)
    requires i < n
    ensures |x| == n
  {
    seq(n, k requires 0 <= k < n => if k < i then 1.0 else if k == i then part else 0.0)
  }

  // ---------- Sums ----------

  /** Term by term, what `u` gains over `v` is at most `r` times what `c` exceeds `d` by. */
  ghost predicate Scaled(u: seq<real>, v: seq<real>, c: seq<real>, d: seq<real>, r: real) {
    && |u| == |v| == |c| == |d|
    && forall k :: 0 <= k < |u| ==> u[k] - v[k] <= r * (c[k] - d[k])
  }

  /** Comparing two sums term by term, up to a factor. */
  lemma {:induction false} ScaledBound(u: seq<real>, v: seq<real>, c: seq<real>, d: seq<real>, r: real)
    requires Scaled(u, v, c, d, r)
    ensures Total(u) - Total(v) <= r * (Total(c) - Total(d))
  {
    if u != [] {
      var n := |u| - 1;
      ScaledBound(u[..n], v[..n], c[..n], d[..n], r);
      Distribute(r, Total(c[..n]) - Total(d[..n]), c[n] - d[n]);
    }
  }

  lemma Distribute(r: real, x: real, y: real)
    ensures r * x + r * y == r * (x + y)
  {
  }

  lemma {:induction false} TermwiseBound(u: seq<real>, v: seq<real>)
    requires |u| == |v|
    requires forall k :: 0 <= k < |u| ==> u[k] <= v[k]
    ensures Total(u) <= Total(v)
  {
    if u != [] {
      TermwiseBound(u[..|u| - 1], v[..|v| - 1]);
    }
  }

  // ---------- Greedy is optimal ----------

  /** Rooms come by falling ratio. */
  ghost predicate Sorted(rooms: seq<Room>) {
    forall k, l :: 0 <= k < l < |rooms| ==> rooms[k].ratio >= rooms[l].ratio
  }

  lemma RoomBound(room: Room, r: real, x: real, g: real)
    requires room.cost > 0.0 && room.ratio == room.gain / room.cost
    requires (x <= g && room.ratio >= r) || (x >= g && room.ratio <= r)
    ensures x * room.gain - g * room.gain <= r * (x * room.cost - g * room.cost)
  {
    assert room.gain == room.ratio * room.cost;
    var d := x - g;
    assert x * room.gain - g * room.gain == (d * room.cost) * room.ratio;
    assert r * (x * room.cost - g * room.cost) == (d * room.cost) * r;
    if x <= g {
      assert d * room.cost <= 0.0;
    } else {
      assert d * room.cost >= 0.0;
    }
  }

  lemma TermBound(rooms: seq<Room>, i: nat, part: real, x: Choice, k: nat)
    requires Entered(rooms) && Sorted(rooms) && i < |rooms| && 0.0 <= part <= 1.0
    requires IsChoice(rooms, x) && k < |rooms|
    ensures var g := FirstRooms(|rooms|, i, part);
            Gains(rooms, x)[k] - Gains(rooms, g)[k]
              <= rooms[i].ratio * (Costs(rooms, x)[k] - Costs(rooms, g)[k])
  {
    var g := FirstRooms(|rooms|, i, part);
    assert (x[k] <= g[k] && rooms[k].ratio >= rooms[i].ratio) || (x[k] >= g[k] && rooms[k].ratio <= rooms[i].ratio);
    RoomBound(rooms[k], rooms[i].ratio, x[k], g[k]);
  }

  lemma RatioSign(room: Room)
    requires room.gain >= 0.0 && room.cost > 0.0 && room.ratio == room.gain / room.cost
    ensures room.ratio >= 0.0
    ensures room.ratio == 0.0 <==> room.gain == 0.0
  {
    assert room.gain == room.ratio * room.cost;
  }

  lemma TermBounds(rooms: seq<Room>, i: nat, part: real, x: Choice)
    requires Entered(rooms) && Sorted(rooms) && i < |rooms| && 0.0 <= part <= 1.0
    requires IsChoice(rooms, x)
    ensures var g := FirstRooms(|rooms|, i, part);
            Scaled(Gains(rooms, x), Gains(rooms, g), Costs(rooms, x), Costs(rooms, g), rooms[i].ratio)
  {
    forall k | 0 <= k < |rooms|
      ensures Gains(rooms, x)[k] - Gains(rooms, FirstRooms(|rooms|, i, part))[k]
           <= rooms[i].ratio * (Costs(rooms, x)[k] - Costs(rooms, FirstRooms(|rooms|, i, part))[k])
    {
      TermBound(rooms, i, part, x, k);
    }
  }

  lemma NoGain(r: real, x: real)
    requires r >= 0.0 && x <= 0.0
    ensures r * x <= 0.0
  {
  }

  /** Spending the whole budget on the rooms of highest ratio cannot be beaten. */
  lemma FirstRoomsBest(rooms: seq<Room>, budget: real, i: nat, part: real, x: Choice)
    requires Entered(rooms) && Sorted(rooms) && i < |rooms| && 0.0 <= part <= 1.0
    requires Total(Costs(rooms, FirstRooms(|rooms|, i, part))) == budget
    requires Affordable(rooms, budget, x)
    ensures Total(Gains(rooms, x)) <= Total(Gains(rooms, FirstRooms(|rooms|, i, part)))
  {
    var g, r := FirstRooms(|rooms|, i, part), rooms[i].ratio;
    TermBounds(rooms, i, part, x);
    var over := Total(Costs(rooms, x)) - Total(Costs(rooms, g));
    ScaledBound(Gains(rooms, x), Gains(rooms, g), Costs(rooms, x), Costs(rooms, g), r);
    RatioSign(rooms[i]);
    NoGain(r, over);
  }

  /** With money for everything, taking everything is best. */
  lemma AllBest(rooms: seq<Room>, x: Choice)
    requires Entered(rooms) && IsChoice(rooms, x)
    ensures Total(Gains(rooms, x)) <= Total(Gains(rooms, All(|rooms|)))
  {
    TermwiseBound(Gains(rooms, x), Gains(rooms, All(|rooms|)));
  }

  // ---------- Reordering the rooms ----------

  lemma RearrangedChoice(rooms: seq<Room>, sorted: seq<Room>, p: seq<nat>, x: Choice, moved: Choice)
    requires Rearranges(sorted, rooms, p)
    requires Rearranges(moved, x, p) && |x| == |rooms|
    ensures Total(Gains(sorted, moved)) == Total(Gains(rooms, x))
    ensures Total(Costs(sorted, moved)) == Total(Costs(rooms, x))
  {
    forall k | 0 <= k < |p|
      ensures Gains(sorted, moved)[k] == Gains(rooms, x)[p[k]]
      ensures Costs(sorted, moved)[k] == Costs(rooms, x)[p[k]]
    {
      assert moved[k] == x[p[k]] && sorted[k] == rooms[p[k]];
    }
    RearrangedMultiset(Gains(sorted, moved), Gains(rooms, x), p);
    FoldOfMultiset(AddReal, 0.0, Gains(sorted, moved), Gains(rooms, x));
    RearrangedMultiset(Costs(sorted, moved), Costs(rooms, x), p);
    FoldOfMultiset(AddReal, 0.0, Costs(sorted, moved), Costs(rooms, x));
  }

  /** Every affordable choice has its counterpart among the rearranged rooms. */
  lemma CarryOver(rooms: seq<Room>, sorted: seq<Room>, p: seq<nat>, q: seq<nat>, budget: real, y: Choice)
      returns (x: Choice)
    requires Rearranges(sorted, rooms, p) && |q| == |p|
    requires forall k :: 0 <= k < |p| ==> p[k] < |p| && q[p[k]] == k
    requires forall i :: 0 <= i < |q| ==> q[i] < |p|
    requires Affordable(sorted, budget, y)
    ensures Affordable(rooms, budget, x) && Total(Gains(rooms, x)) == Total(Gains(sorted, y))
  {
    x := Pick(y, q);
    RearrangedChoice(rooms, sorted, p, x, y);
  }

  lemma CarryBack(rooms: seq<Room>, sorted: seq<Room>, p: seq<nat>, budget: real, x: Choice)
      returns (y: Choice)
    requires Rearranges(sorted, rooms, p) && Affordable(rooms, budget, x)
    ensures Affordable(sorted, budget, y) && Total(Gains(sorted, y)) == Total(Gains(rooms, x))
  {
    y := Pick(x, p);
    RearrangedChoice(rooms, sorted, p, x, y);
  }

  /** The sorted rooms have the same optimum. */
  lemma OptimumSurvivesSorting(rooms: seq<Room>, sorted: seq<Room>, p: seq<nat>, budget: real, gain: real)
    requires Rearranges(sorted, rooms, p)
    ensures IsOptimum(rooms, budget, gain) <==> IsOptimum(sorted, budget, gain)
  {
    var q := Inverse(p, |rooms|);
    forall x | Affordable(rooms, budget, x)
      ensures exists y :: Affordable(sorted, budget, y) && Total(Gains(sorted, y)) == Total(Gains(rooms, x))
    {
      var y := CarryBack(rooms, sorted, p, budget, x);
    }
    forall y | Affordable(sorted, budget, y)
      ensures exists x :: Affordable(rooms, budget, x) && Total(Gains(rooms, x)) == Total(Gains(sorted, y))
    {
      var x := CarryOver(rooms, sorted, p, q, budget, y);
    }
  }

  // ---------- The program ----------

  function Enter(js: seq<real>, fs: seq<real>): (rooms: seq<Room>)
    requires |js| == |fs| && forall k :: 0 <= k < |fs| ==> fs[k] > 0.0
    ensures |rooms| == |js|
    ensures forall k :: 0 <= k < |js| ==>
              rooms[k].gain == js[k] && rooms[k].cost == fs[k] && rooms[k].ratio * fs[k] == js[k]
  {
    seq(|js|, k requires 0 <= k < |js| => Room(js[k], fs[k], js[k] / fs[k]))
  }

  /** Nothing after place `i` counts. */
  lemma {:induction false} TailOfZeros(w: seq<real>, s: seq<real>, i: nat)
    requires i < |w| && i <= |s|
    requires forall k :: 0 <= k < i ==> w[k] == s[k]
    requires forall k :: i < k < |w| ==> w[k] == 0.0
    ensures Total(w) == Total(s[..i]) + w[i]
  {
    if |w| == i + 1 {
      assert w[..i] == s[..i];
    } else {
      TailOfZeros(w[..|w| - 1], s, i);
    }
  }

  lemma BreakAmount(room: Room, rest: real, part: real)
    requires room.cost > 0.0 && room.ratio == room.gain / room.cost && part == rest / room.cost
    ensures part * room.cost == rest && part * room.gain == room.ratio * rest
    ensures 0.0 <= rest <= room.cost ==> 0.0 <= part <= 1.0
  {
    assert part * room.cost == rest;
    assert room.gain == room.ratio * room.cost;
    ProductSign(part, room.cost);
    ProductSign(part - 1.0, room.cost);
  }

  lemma ProductSign(x: real, y: real)
    requires y > 0.0
    ensures x < 0.0 <==> x * y < 0.0
    ensures x > 0.0 <==> x * y > 0.0
  {
  }

  /** What the first `i` rooms and the affordable part of room `i` cost and bring. */
  lemma BreakTotals(rooms: seq<Room>, budget: real, i: nat, t: real, t1: real, part: real)
    requires Entered(rooms) && i < |rooms|
    requires t == Total(Gains(rooms, All(|rooms|))[..i]) && t1 == Total(Costs(rooms, All(|rooms|))[..i])
    requires t1 <= budget <= t1 + rooms[i].cost && part == (budget - t1) / rooms[i].cost
    ensures 0.0 <= part <= 1.0
    ensures Total(Costs(rooms, FirstRooms(|rooms|, i, part))) == budget
    ensures Total(Gains(rooms, FirstRooms(|rooms|, i, part))) == t + rooms[i].ratio * (budget - t1)
  {
    var n := |rooms|;
    var g := FirstRooms(n, i, part);
    BreakAmount(rooms[i], budget - t1, part);
    TailOfZeros(Gains(rooms, g), Gains(rooms, All(n)), i);
    TailOfZeros(Costs(rooms, g), Costs(rooms, All(n)), i);
  }

  /** Line 54: stopping in room `i` with the budget spent is optimal. */
  lemma BreakIsOptimal(rooms: seq<Room>, budget: real, i: nat, t: real, t1: real, got: real)
    requires Entered(rooms) && Sorted(rooms) && i < |rooms|
    requires got == t + (rooms[i].ratio * (budget - t1))
    requires t == Total(Gains(rooms, All(|rooms|))[..i]) && t1 == Total(Costs(rooms, All(|rooms|))[..i])
    requires t1 <= budget <= t1 + rooms[i].cost
    ensures IsOptimum(rooms, budget, got)
  {
    var n, part := |rooms|, (budget - t1) / rooms[i].cost;
    var g := FirstRooms(n, i, part);
    BreakTotals(rooms, budget, i, t, t1, part);
    assert Affordable(rooms, budget, g);
    forall x | Affordable(rooms, budget, x) ensures Total(Gains(rooms, x)) <= Total(Gains(rooms, g)) {
      FirstRoomsBest(rooms, budget, i, part, x);
    }
  }

  /** When the money outlasts the rooms, the amount printed leaves out the last room, which is
      right only if that room has nothing to give. */
  lemma LeftOutLast(rooms: seq<Room>, budget: real, t: real)
    requires Entered(rooms) && Sorted(rooms) && |rooms| > 0
    requires Total(Costs(rooms, All(|rooms|))) <= budget
    requires t == Total(Gains(rooms, All(|rooms|))[..|rooms| - 1])
    ensures IsOptimum(rooms, budget, t) <==> exists k :: 0 <= k < |rooms| && rooms[k].gain == 0.0
  {
    var n := |rooms|;
    var all := All(n);
    assert Affordable(rooms, budget, all);
    assert Gains(rooms, all)[n - 1] == rooms[n - 1].gain;
    forall x | Affordable(rooms, budget, x) ensures Total(Gains(rooms, x)) <= Total(Gains(rooms, all)) {
      AllBest(rooms, x);
    }
    if k :| 0 <= k < n && rooms[k].gain == 0.0 {
      RatioSign(rooms[k]);
      RatioSign(rooms[n - 1]);
      assert rooms[k].ratio >= rooms[n - 1].ratio;
    }
  }

  /** Everything can be bought with money to spare, and every room has something to give: then,
      and only then, is the printed amount short of the optimum. */
  ghost predicate MoneyLeft(rooms: seq<Room>, budget: real) {
    Total(Costs(rooms, All(|rooms|))) < budget && forall k :: 0 <= k < |rooms| ==> rooms[k].gain != 0.0
  }

  /** One room that gives 1 for 1, and 2 to spend: the loop ends with 0, where 1 is possible. */
  lemma MoneyLeftFails()
    ensures var rooms := [Room(1.0, 1.0, 1.0)];
            && Entered(rooms) && Sorted(rooms) && MoneyLeft(rooms, 2.0)
            && Ends(rooms, 2, 1, 0.0, 0.0, 0.0)
            && !IsOptimum(rooms, 2.0, 0.0) && IsOptimum(rooms, 2.0, 1.0)
  {
    var rooms := [Room(1.0, 1.0, 1.0)];
    var all := All(1);
    assert Gains(rooms, all) == [1.0] && Costs(rooms, all) == [1.0];
    assert Total([1.0]) == 1.0 by {
      assert [1.0][..0] == [];
    }
    assert Affordable(rooms, 2.0, all);
    forall x | Affordable(rooms, 2.0, x) ensures Total(Gains(rooms, x)) <= 1.0 {
      AllBest(rooms, x);
    }
  }

  /** The printed amount is the optimum exactly when there is no money left over. */
  ghost predicate RightUnlessMoneyLeft(rooms: seq<Room>, M: int, t: real) {
    M >= 0 && |rooms| > 0 ==> (IsOptimum(rooms, M as real, t) <==> !MoneyLeft(rooms, M as real))
  }

  lemma GainsRearranged(rooms: seq<Room>, sorted: seq<Room>, p: seq<nat>)
    requires Rearranges(sorted, rooms, p)
    ensures (exists k :: 0 <= k < |rooms| && rooms[k].gain == 0.0)
       <==> (exists k :: 0 <= k < |sorted| && sorted[k].gain == 0.0)
  {
    RearrangedMultiset(sorted, rooms, p);
    if k :| 0 <= k < |rooms| && rooms[k].gain == 0.0 {
      assert rooms[k] in multiset(sorted);
    }
    if k :| 0 <= k < |sorted| && sorted[k].gain == 0.0 {
      assert sorted[k] in multiset(rooms);
    }
  }

  lemma MoneyLeftRearranged(rooms: seq<Room>, sorted: seq<Room>, p: seq<nat>, budget: real)
    requires Rearranges(sorted, rooms, p)
    ensures MoneyLeft(rooms, budget) <==> MoneyLeft(sorted, budget)
  {
    var all := All(|rooms|);
    assert Rearranges(all, all, p);
    RearrangedChoice(rooms, sorted, p, all, all);
    GainsRearranged(rooms, sorted, p);
  }

  /** The first `i` rooms bring `sum` and cost `sum1`. */
  ghost predicate Spent(rooms: seq<Room>, i: nat, sum: real, sum1: real) {
    && i <= |rooms|
    && sum == Total(Gains(rooms, All(|rooms|))[..i])
    && sum1 == Total(Costs(rooms, All(|rooms|))[..i])
  }

  lemma SpendMore(rooms: seq<Room>, i: nat, sum: real, sum1: real)
    requires Spent(rooms, i, sum, sum1) && i < |rooms|
    ensures Spent(rooms, i + 1, sum + rooms[i].gain, sum1 + rooms[i].cost)
  {
    var gs, cs := Gains(rooms, All(|rooms|)), Costs(rooms, All(|rooms|));
    assert gs[..i + 1][..i] == gs[..i] && cs[..i + 1][..i] == cs[..i];
  }

  /** How the loop ends: in room `i`, where the budget is used up, or after the last room. The
      rooms before the last one looked at bring `sum` and cost `sum1`. */
  ghost predicate Ends(rooms: seq<Room>, M: int, i: nat, sum: real, sum1: real, t: real)
    requires |rooms| > 0
  {
    var last := if i < |rooms| then i else |rooms| - 1;
    && Spent(rooms, last, sum, sum1)
    && if i < |rooms| then
         (i > 0 ==> sum1 < M as real) && M as real <= sum1 + rooms[i].cost
         && t == sum + (rooms[i].ratio * (M as real - sum1))
       else
         sum1 + rooms[last].cost < M as real && t == sum
  }

  /** Lines 46-57 over the sorted rooms. `leftover` is what `t` holds beforehand. */
  method SpendLoop(value: array<Room>, M: int, leftover: real)
      returns (t: real, ghost stop: nat, ghost before: real, ghost spent: real)
    ensures if value.Length == 0 then t == leftover else Ends(value[..], M, stop, before, spent, t)
  {
    ghost var rooms := value[..];
    t := leftover;
    var sum, sum1, t1 := 0.0, 0.0, 0.0;
    var i := 0;
    while i < value.Length
      invariant 0 <= i <= value.Length
      invariant Spent(rooms, i, sum, sum1)
      invariant if i == 0 then t == leftover else Spent(rooms, i - 1, t, t1) && sum1 == t1 + rooms[i - 1].cost
      invariant i > 0 ==> sum1 < M as real
    {
      t := sum;
      t1 := sum1;
      SpendMore(rooms, i, sum, sum1);
      sum := sum + value[i].gain;
      sum1 := sum1 + value[i].cost;
      if sum1 >= M as real {
        t := t + (value[i].ratio * (M as real - t1));
        stop, before, spent := i, t - (value[i].ratio * (M as real - t1)), t1;
        return;
      }
      i := i + 1;
    }
    stop, before, spent := i, t, t1;
  }

  /** However the loop ends, the amount is the optimum unless there is money left over. */
  lemma EndsRight(rooms: seq<Room>, M: int, i: nat, sum: real, sum1: real, t: real)
    requires Entered(rooms) && Sorted(rooms) && |rooms| > 0 && Ends(rooms, M, i, sum, sum1, t)
    ensures RightUnlessMoneyLeft(rooms, M, t)
  {
    if M >= 0 {
      if i < |rooms| {
        BreakOutcome(rooms, i, sum, sum1, M, t);
      } else {
        var n := |rooms| - 1;
        SpendMore(rooms, n, t, sum1);
        MoneyOutlasts(rooms, t + rooms[n].gain, sum1 + rooms[n].cost, M, t, sum1);
      }
    }
  }

  /** What line 58 prints for the sorted rooms. */
  method Spend(value: array<Room>, M: int, leftover: real) returns (t: real)
    requires Entered(value[..]) && Sorted(value[..])
    ensures RightUnlessMoneyLeft(value[..], M, t)
    ensures value.Length == 0 ==> t == leftover
  {
    ghost var stop, sum, sum1;
    t, stop, sum, sum1 := SpendLoop(value, M, leftover);
    if value.Length > 0 {
      EndsRight(value[..], M, stop, sum, sum1, t);
    }
  }

  lemma BreakOutcome(rooms: seq<Room>, i: nat, t: real, t1: real, M: int, got: real)
    requires Entered(rooms) && Sorted(rooms) && i < |rooms|
    requires Spent(rooms, i, t, t1) && t1 <= M as real <= t1 + rooms[i].cost
    requires got == t + (rooms[i].ratio * (M as real - t1))
    ensures RightUnlessMoneyLeft(rooms, M, got)
  {
    var budget := M as real;
    BreakIsOptimal(rooms, budget, i, t, t1, got);
    SpendMore(rooms, i, t, t1);
    ShortOfMoney(rooms, i, budget);
  }

  lemma MoneyOutlasts(rooms: seq<Room>, sum: real, sum1: real, M: int, t: real, t1: real)
    requires Entered(rooms) && Sorted(rooms) && |rooms| > 0
    requires Spent(rooms, |rooms|, sum, sum1) && sum1 < M as real
    requires Spent(rooms, |rooms| - 1, t, t1)
    ensures RightUnlessMoneyLeft(rooms, M, t)
  {
    var budget := M as real;
    var cs := Costs(rooms, All(|rooms|));
    assert cs[..|rooms|] == cs;
    LeftOutLast(rooms, budget, t);
  }

  /** If some of the rooms use the budget up, all of them do. */
  lemma ShortOfMoney(rooms: seq<Room>, i: nat, budget: real)
    requires Entered(rooms) && i < |rooms|
    requires Total(Costs(rooms, All(|rooms|))[..i + 1]) >= budget
    ensures !MoneyLeft(rooms, budget)
  {
    var cs := Costs(rooms, All(|rooms|));
    PrefixBound(cs, i + 1);
  }

  lemma {:induction false} PrefixBound(s: seq<real>, i: nat)
    requires i <= |s| && forall k :: 0 <= k < |s| ==> s[k] >= 0.0
    ensures Total(s[..i]) <= Total(s)
  {
    if i == |s| {
      assert s[..i] == s;
    } else {
      PrefixBound(s[..|s| - 1], i);
      assert s[..|s| - 1][..i] == s[..i];
    }
  }

  /** The whole of 17.c for one test case with at least one room and a budget that is not
      negative: the printed amount is the optimum exactly when there is no money left over, or
      some room gives nothing anyway. */
  method MostGain(js: seq<real>, fs: seq<real>, M: int, leftover: real) returns (t: real)
    requires |js| == |fs|
    requires forall k :: 0 <= k < |js| ==> js[k] >= 0.0 && fs[k] > 0.0
    ensures RightUnlessMoneyLeft(Enter(js, fs), M, t)
    ensures |js| == 0 ==> t == leftover
  {
    var value := new Room[|js|](_ => Room(0.0, 0.0, 0.0));
    for i := 0 to |js|
      invariant forall k :: 0 <= k < i ==> value[k] == Enter(js, fs)[k]
    {
      value[i] := Room(js[i], fs[i], js[i] / fs[i]);
    }
    ghost var rooms := value[..];
    assert rooms == Enter(js, fs);
    ghost var p := Qsort(value, (a: Room, b: Room) => a.ratio >= b.ratio);
    t := Spend(value, M, leftover);
    OptimumSurvivesSorting(rooms, value[..], p, M as real, t);
    MoneyLeftRearranged(rooms, value[..], p, M as real);
  }
}
