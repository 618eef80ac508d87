/** Homework scheduling (Solution/liuting/18.c): one job per day, a job handed in after its
    deadline costs its score, and the program prints the least total cost. */
module Homework {
  import opened Counting
  import opened Permutations

  datatype Job = Job(deadline: int, score: int)

  /** A plan gives each job the day it is done, or 0 when it is never done. */
  type Plan = seq<nat>

  ghost predicate Feasible(jobs: seq<Job>, plan: Plan) {
    && |plan| == |jobs|
    && (forall k :: 0 <= k < |plan| && plan[k] != 0 ==> plan[k] <= jobs[k].deadline)
    && (forall j, k :: 0 <= j < k < |plan| && plan[j] != 0 ==> plan[j] != plan[k])
  }

  ghost function Costs(jobs: seq<Job>, plan: Plan): (w: seq<int>)
    requires |plan| == |jobs|
    ensures |w| == |jobs|
  {
    seq(|jobs|, k requires 0 <= k < |jobs| => if plan[k] == 0 then jobs[k].score else 0)
  }

  /** The total score of the jobs the plan leaves undone. */
  ghost function Penalty(jobs: seq<Job>, plan: Plan): int
    requires |plan| == |jobs|
  {
    Sum(Costs(jobs, plan))
  }

  /** `cost` is the least penalty any plan can reach. */
  ghost predicate IsOptimum(jobs: seq<Job>, cost: int) {
    && (exists plan :: Feasible(jobs, plan) && Penalty(jobs, plan) == cost)
    && (forall plan :: Feasible(jobs, plan) ==> cost <= Penalty(jobs, plan))
  }

  lemma PenaltyUpdate(jobs: seq<Job>, plan: Plan, k: nat, d: nat)
    requires |plan| == |jobs| && k < |plan|
    ensures Penalty(jobs, plan[k := d])
         == Penalty(jobs, plan) - Costs(jobs, plan)[k] + (if d == 0 then jobs[k].score else 0)
  {
    SumUpdate(Costs(jobs, plan), k, if d == 0 then jobs[k].score else 0);
    assert Costs(jobs, plan[k := d])
        == Costs(jobs, plan)[k := if d == 0 then jobs[k].score else 0];
  }

  // ---------- Pigeonhole: |jobs| days are enough ----------

  ghost function Days(plan: Plan): set<nat> {
    set k | 0 <= k < |plan| :: plan[k]
  }

  lemma {:induction false} DaysBound(plan: Plan)
    ensures |Days(plan)| <= |plan|
  {
    if plan != [] {
      var last := |plan| - 1;
      DaysBound(plan[..last]);
      assert Days(plan) == Days(plan[..last]) + {plan[last]} by {
        forall d | d in Days(plan[..last]) ensures d in Days(plan) {
          var k :| 0 <= k < last && plan[..last][k] == d;
          assert plan[k] == d;
        }
        forall d | d in Days(plan) ensures d in Days(plan[..last]) + {plan[last]} {
          var k :| 0 <= k <= last && plan[k] == d;
          if k < last { assert plan[..last][k] == d; }
        }
      }
    }
  }

  ghost function FirstDays(n: nat): (days: set<nat>)
    ensures |days| == n
    ensures forall d :: d in days <==> 1 <= d <= n
  {
    if n == 0 then {} else FirstDays(n - 1) + {n}
  }

  /** If some job is done after day `|plan|`, an earlier day is free. */
  lemma FreeDay(plan: Plan, j: nat) returns (d: nat)
    requires j < |plan| && plan[j] > |plan|
    ensures 1 <= d <= |plan| && d !in plan
  {
    var n := |plan|;
    if FirstDays(n) <= Days(plan) {
      DaysBound(plan);
      assert plan[j] in Days(plan);
      assert |FirstDays(n) + {plan[j]}| == n + 1;
      SubsetSize(FirstDays(n) + {plan[j]}, Days(plan));
      assert false;
    } else {
      d :| d in FirstDays(n) && d !in Days(plan);
    }
  }

  /** Any plan can be carried out within the first `|jobs|` days at the same cost. */
  lemma Compress(jobs: seq<Job>, plan: Plan) returns (tight: Plan)
    requires Feasible(jobs, plan)
    ensures Feasible(jobs, tight) && Penalty(jobs, tight) == Penalty(jobs, plan)
    ensures forall k :: 0 <= k < |tight| ==> tight[k] <= |jobs|
  {
    tight := plan;
    var j := 0;
    while j < |jobs|
      invariant 0 <= j <= |jobs|
      invariant Feasible(jobs, tight) && Penalty(jobs, tight) == Penalty(jobs, plan)
      invariant forall k :: 0 <= k < j ==> tight[k] <= |jobs|
    {
      if tight[j] > |jobs| {
        var d := FreeDay(tight, j);
        PenaltyUpdate(jobs, tight, j, d);
        tight := tight[j := d];
      }
      j := j + 1;
    }
  }

  // ---------- The exchange argument ----------

  /** Day `d` is filled greedily: whatever is worth something, could still be done that day and
      is not done on a later one is worth no more than the job chosen for it. */
  ghost predicate GreedyDay(jobs: seq<Job>, plan: Plan, d: nat)
    requires |plan| == |jobs|
  {
    forall x :: 0 <= x < |jobs| && jobs[x].deadline >= d && jobs[x].score > 0 && (plan[x] == 0 || plan[x] < d) ==>
      exists k :: 0 <= k < |plan| && plan[k] == d && jobs[x].score <= jobs[k].score
  }

  /** The days above `i` have been filled, greedily, and no other. */
  ghost predicate GreedyAbove(jobs: seq<Job>, plan: Plan, i: nat) {
    && Feasible(jobs, plan)
    && (forall k :: 0 <= k < |plan| && plan[k] != 0 ==> i < plan[k] <= |jobs| && jobs[k].score >= 0)
    && (forall d :: i < d <= |jobs| ==> GreedyDay(jobs, plan, d))
  }

  ghost predicate AgreeAbove(a: Plan, b: Plan, d: nat)
    requires |a| == |b|
  {
    forall k :: 0 <= k < |a| && (a[k] > d || b[k] > d) ==> a[k] == b[k]
  }

  /** Doing job `g` on day `d` instead, whoever had that day taking `g`'s old one. */
  lemma TakeDay(jobs: seq<Job>, plan: Plan, g: nat, d: nat) returns (better: Plan)
    requires Feasible(jobs, plan) && g < |plan| && plan[g] < d <= jobs[g].deadline
    requires jobs[g].score >= 0
    requires forall x :: 0 <= x < |plan| && plan[x] == d ==> jobs[x].score <= jobs[g].score
    ensures Feasible(jobs, better) && better[g] == d
    ensures forall k :: 0 <= k < |plan| && k != g ==>
              better[k] == if plan[k] == d then plan[g] else plan[k]
    ensures Penalty(jobs, better) <= Penalty(jobs, plan)
  {
    better := plan;
    if x :| 0 <= x < |plan| && plan[x] == d {
      PenaltyUpdate(jobs, better, x, plan[g]);
      better := better[x := plan[g]];
    }
    PenaltyUpdate(jobs, better, g, d);
    better := better[g := d];
  }

  /** A competitor that agrees with the greedy plan above day `d` can be made to agree on
      day `d` as well, at no extra cost. */
  lemma Exchange(jobs: seq<Job>, greedy: Plan, plan: Plan, d: nat) returns (better: Plan)
    requires 0 < d <= |jobs|
    requires Feasible(jobs, greedy) && GreedyDay(jobs, greedy, d)
    requires forall k :: 0 <= k < |jobs| && greedy[k] == d ==> jobs[k].score >= 0
    requires Feasible(jobs, plan) && AgreeAbove(plan, greedy, d)
    ensures Feasible(jobs, better) && AgreeAbove(better, greedy, d - 1)
    ensures Penalty(jobs, better) <= Penalty(jobs, plan)
  {
    better := plan;
    if g :| 0 <= g < |greedy| && greedy[g] == d {
      if plan[g] != d {
        forall x | 0 <= x < |plan| && plan[x] == d ensures jobs[x].score <= jobs[g].score {
          if jobs[x].score > 0 {
            var k :| 0 <= k < |greedy| && greedy[k] == d && jobs[x].score <= jobs[k].score;
            assert k == g;
          }
        }
        better := TakeDay(jobs, plan, g, d);
      }
    } else {
      if x :| 0 <= x < |plan| && plan[x] == d {
        PenaltyUpdate(jobs, plan, x, 0);
        better := plan[x := 0];
      }
    }
  }

  /** No feasible plan costs less than a greedy one. */
  lemma GreedyIsOptimal(jobs: seq<Job>, greedy: Plan, plan: Plan)
    requires GreedyAbove(jobs, greedy, 0)
    requires Feasible(jobs, plan)
    ensures Penalty(jobs, greedy) <= Penalty(jobs, plan)
  {
    var rival := Compress(jobs, plan);
    var d := |jobs|;
    while d > 0
      invariant 0 <= d <= |jobs|
      invariant Feasible(jobs, rival) && AgreeAbove(rival, greedy, d)
      invariant Penalty(jobs, rival) <= Penalty(jobs, plan)
    {
      rival := Exchange(jobs, greedy, rival, d);
      d := d - 1;
    }
    assert forall k :: 0 <= k < |rival| ==> rival[k] == greedy[k];
    assert rival == greedy;
  }

  // ---------- Reordering the jobs ----------

  /** Sorting the jobs carries plans along with their cost. */
  lemma RearrangedPlan(jobs: seq<Job>, sorted: seq<Job>, p: seq<nat>, plan: Plan, moved: Plan)
    requires Rearranges(sorted, jobs, p)
    requires Rearranges(moved, plan, p) && |plan| == |jobs|
    requires Feasible(jobs, plan)
    ensures Feasible(sorted, moved)
    ensures Penalty(sorted, moved) == Penalty(jobs, plan)
  {
    PermutationIsBijection(p, |jobs|);
    forall j, k | 0 <= j < k < |moved| && moved[j] != 0 ensures moved[j] != moved[k] {
      assert p[j] != p[k];
      assert p[j] < p[k] || p[k] < p[j];
    }
    assert Rearranges(Costs(sorted, moved), Costs(jobs, plan), p);
    RearrangedMultiset(Costs(sorted, moved), Costs(jobs, plan), p);
    FoldOfMultiset(Add, 0, Costs(sorted, moved), Costs(jobs, plan));
  }

  /** The optimum of the sorted jobs is the optimum of the jobs as they were entered. */
  lemma OptimumSurvivesSorting(jobs: seq<Job>, sorted: seq<Job>, p: seq<nat>, greedy: Plan)
    requires Rearranges(sorted, jobs, p)
    requires GreedyAbove(sorted, greedy, 0)
    ensures IsOptimum(jobs, Penalty(sorted, greedy))
  {
    var q := Inverse(p, |jobs|);
    PermutationIsBijection(p, |jobs|);
    var best := Pick(greedy, q);
    forall j, k | 0 <= j < k < |best| && best[j] != 0 ensures best[j] != best[k] {
      assert q[j] != q[k];
      assert q[j] < q[k] || q[k] < q[j];
    }
    assert Rearranges(greedy, best, p);
    RearrangedPlan(jobs, sorted, p, best, greedy);
    forall plan | Feasible(jobs, plan) ensures Penalty(sorted, greedy) <= Penalty(jobs, plan) {
      RearrangedPlan(jobs, sorted, p, plan, Pick(plan, p));
      GreedyIsOptimal(sorted, greedy, Pick(plan, p));
    }
  }

  // ---------- Doing every job that is worth something ----------

  ghost predicate DoesAllPositive(jobs: seq<Job>, plan: Plan)
    requires |plan| == |jobs|
  {
    forall k :: 0 <= k < |jobs| && jobs[k].score > 0 ==> plan[k] != 0
  }

  /** The jobs worth something that are due by day `d`. */
  ghost function DueBy(jobs: seq<Job>, d: int): set<nat> {
    set k | 0 <= k < |jobs| && jobs[k].score > 0 && jobs[k].deadline <= d
  }

  /** By every day, no more jobs worth something are due than there are days. */
  ghost predicate PositivesFit(jobs: seq<Job>) {
    forall d :: |DueBy(jobs, d)| <= if d > 0 then d else 0
  }

  ghost function DaysOf(plan: Plan, ks: set<nat>): set<nat>
    requires forall k :: k in ks ==> k < |plan|
  {
    set k | k in ks :: plan[k]
  }

  lemma {:induction false} DaysOfCount(plan: Plan, ks: set<nat>)
    requires forall k :: k in ks ==> k < |plan|
    requires forall j, k :: j in ks && k in ks && j != k ==> plan[j] != plan[k]
    ensures |DaysOf(plan, ks)| == |ks|
  {
    if k :| k in ks {
      var rest := ks - {k};
      DaysOfCount(plan, rest);
      assert DaysOf(plan, ks) == DaysOf(plan, rest) + {plan[k]} by {
        forall d | d in DaysOf(plan, ks) ensures d in DaysOf(plan, rest) + {plan[k]} {
          var j :| j in ks && plan[j] == d;
          assert j == k || j in rest;
        }
      }
      assert plan[k] !in DaysOf(plan, rest);
    }
  }

  /** A plan that does them all gives each of those due by day `d` a day of its own up to `d`. */
  lemma PlanFits(jobs: seq<Job>, plan: Plan)
    requires Feasible(jobs, plan) && DoesAllPositive(jobs, plan)
    ensures PositivesFit(jobs)
  {
    forall d ensures |DueBy(jobs, d)| <= if d > 0 then d else 0 {
      var ks := DueBy(jobs, d);
      forall j, k | j in ks && k in ks && j != k ensures plan[j] != plan[k] {
        assert j < k || k < j;
      }
      DaysOfCount(plan, ks);
      SubsetSize(DaysOf(plan, ks), FirstDays(if d > 0 then d else 0));
    }
  }

  /** The jobs worth something that are due before job `k`, or with it but not listed after it. */
  ghost function UpTo(jobs: seq<Job>, k: nat): set<nat>
    requires k < |jobs|
  {
    set i | i in DueBy(jobs, jobs[k].deadline) && (jobs[i].deadline < jobs[k].deadline || i <= k)
  }

  lemma UpToGrows(jobs: seq<Job>, i: nat, k: nat)
    requires i < |jobs| && k < |jobs| && jobs[k].score > 0
    requires jobs[i].deadline < jobs[k].deadline || (jobs[i].deadline == jobs[k].deadline && i < k)
    ensures |UpTo(jobs, i)| < |UpTo(jobs, k)|
  {
    assert k in UpTo(jobs, k) && k !in UpTo(jobs, i);
    SubsetSize(UpTo(jobs, i) + {k}, UpTo(jobs, k));
  }

  /** If they fit, doing them in the order they are due does them all in time. */
  lemma FitPlan(jobs: seq<Job>) returns (plan: Plan)
    requires PositivesFit(jobs)
    ensures Feasible(jobs, plan) && DoesAllPositive(jobs, plan)
  {
    plan := seq(|jobs|, k requires 0 <= k < |jobs| => if jobs[k].score > 0 then |UpTo(jobs, k)| else 0);
    forall k | 0 <= k < |jobs| && jobs[k].score > 0 ensures 0 < plan[k] <= jobs[k].deadline {
      assert k in UpTo(jobs, k);
      SubsetSize({k}, UpTo(jobs, k));
      SubsetSize(UpTo(jobs, k), DueBy(jobs, jobs[k].deadline));
    }
    forall j, k | 0 <= j < k < |plan| && plan[j] != 0 ensures plan[j] != plan[k] {
      if jobs[k].score > 0 {
        if jobs[j].deadline <= jobs[k].deadline { UpToGrows(jobs, j, k); } else { UpToGrows(jobs, k, j); }
      }
    }
  }

  // ---------- Forgiving a job ----------

  function Waive(jobs: seq<Job>, k: nat): seq<Job>
    requires k < |jobs|
  {
    jobs[k := Job(jobs[k].deadline, 0)]
  }

  lemma WaivedPenalty(jobs: seq<Job>, f: nat, plan: Plan)
    requires f < |jobs| && |plan| == |jobs|
    ensures Penalty(Waive(jobs, f), plan) == Penalty(jobs, plan) - if plan[f] == 0 then jobs[f].score else 0
    ensures Feasible(Waive(jobs, f), plan) <==> Feasible(jobs, plan)
  {
    var w := Costs(jobs, plan);
    SumUpdate(w, f, 0);
    assert Costs(Waive(jobs, f), plan) == w[f := 0];
  }

  /** What no plan can avoid: the negative scores. */
  ghost function Unavoidable(jobs: seq<Job>): (w: seq<int>)
    ensures |w| == |jobs|
  {
    seq(|jobs|, k requires 0 <= k < |jobs| => if jobs[k].score < 0 then jobs[k].score else 0)
  }

  lemma {:induction false} SumBound(s: seq<int>, t: seq<int>)
    requires |s| == |t| && forall k :: 0 <= k < |s| ==> s[k] <= t[k]
    ensures Sum(s) <= Sum(t)
  {
    if s != [] {
      SumBound(s[..|s| - 1], t[..|t| - 1]);
    }
  }

  lemma AtLeastUnavoidable(jobs: seq<Job>, plan: Plan)
    requires |plan| == |jobs|
    ensures Sum(Unavoidable(jobs)) <= Penalty(jobs, plan)
  {
    SumBound(Unavoidable(jobs), Costs(jobs, plan));
  }

  /** A plan that does all jobs worth something, and no other, reaches it. */
  lemma ReachesUnavoidable(jobs: seq<Job>, plan: Plan) returns (lean: Plan)
    requires Feasible(jobs, plan) && DoesAllPositive(jobs, plan)
    ensures Feasible(jobs, lean) && DoesAllPositive(jobs, lean)
    ensures Penalty(jobs, lean) == Sum(Unavoidable(jobs))
  {
    lean := seq(|jobs|, k requires 0 <= k < |jobs| => if jobs[k].score > 0 then plan[k] else 0);
    assert Costs(jobs, lean) == Unavoidable(jobs);
  }

  /** Forgiving `f` costs nothing: it is worth nothing, or everything worth something gets done. */
  ghost predicate HarmlessWaiver(jobs: seq<Job>, f: nat)
    requires f < |jobs|
  {
    jobs[f].score == 0 || (jobs[f].score > 0 && PositivesFit(jobs))
  }

  lemma HarmlessSuffices(jobs: seq<Job>, f: nat, cost: int)
    requires f < |jobs| && HarmlessWaiver(jobs, f) && IsOptimum(Waive(jobs, f), cost)
    ensures IsOptimum(jobs, cost)
  {
    if jobs[f].score == 0 {
      assert Waive(jobs, f) == jobs;
    } else {
      var all := FitPlan(jobs);
      var lean := ReachesUnavoidable(jobs, all);
      WaivedPenalty(jobs, f, lean);
      assert Unavoidable(Waive(jobs, f)) == Unavoidable(jobs);
      var best :| Feasible(Waive(jobs, f), best) && Penalty(Waive(jobs, f), best) == cost;
      AtLeastUnavoidable(Waive(jobs, f), best);
      forall plan | Feasible(jobs, plan) ensures cost <= Penalty(jobs, plan) {
        AtLeastUnavoidable(jobs, plan);
      }
    }
  }

  /** If a job worth something is left undone, it can take over the day of `f`, which is due
      first and whose score no longer counts. */
  lemma TakeOver(jobs: seq<Job>, f: nat, plan: Plan, x: nat) returns (better: Plan)
    requires f < |jobs| && x < |jobs| && jobs[f].deadline <= jobs[x].deadline
    requires Feasible(jobs, plan) && plan[f] != 0 && plan[x] == 0 && jobs[x].score > 0
    ensures Feasible(Waive(jobs, f), better)
    ensures Penalty(Waive(jobs, f), better) < Penalty(jobs, plan)
  {
    var d := plan[f];
    PenaltyUpdate(jobs, plan, f, 0);
    var freed := plan[f := 0];
    PenaltyUpdate(jobs, freed, x, d);
    better := freed[x := d];
    WaivedPenalty(jobs, f, better);
  }

  lemma HarmlessNeeded(jobs: seq<Job>, f: nat, cost: int)
    requires f < |jobs| && (forall k :: 0 <= k < |jobs| ==> jobs[f].deadline <= jobs[k].deadline)
    requires IsOptimum(Waive(jobs, f), cost) && IsOptimum(jobs, cost)
    ensures HarmlessWaiver(jobs, f)
  {
    if jobs[f].score < 0 {
      var best :| Feasible(Waive(jobs, f), best) && Penalty(Waive(jobs, f), best) == cost;
      PenaltyUpdate(Waive(jobs, f), best, f, 0);
      WaivedPenalty(jobs, f, best[f := 0]);
    } else if jobs[f].score > 0 {
      var plan :| Feasible(jobs, plan) && Penalty(jobs, plan) == cost;
      WaivedPenalty(jobs, f, plan);
      forall x | 0 <= x < |jobs| && jobs[x].score > 0 ensures plan[x] != 0 {
        if x != f && plan[x] == 0 {
          var better := TakeOver(jobs, f, plan, x);
        }
      }
      PlanFits(jobs, plan);
    }
  }

  /** The optimum with an earliest job forgiven is the true optimum exactly when forgiving it is
      harmless. */
  lemma WaivedOptimum(jobs: seq<Job>, f: nat, cost: int)
    requires f < |jobs| && (forall k :: 0 <= k < |jobs| ==> jobs[f].deadline <= jobs[k].deadline)
    requires IsOptimum(Waive(jobs, f), cost)
    ensures IsOptimum(jobs, cost) <==> HarmlessWaiver(jobs, f)
  {
    if IsOptimum(jobs, cost) { HarmlessNeeded(jobs, f, cost); }
    if HarmlessWaiver(jobs, f) { HarmlessSuffices(jobs, f, cost); }
  }

  // ---------- The program ----------

  /** Some day can only be given to jobs that are worth nothing (or less). The program then has no
      candidate when it first clears a score, and clears the first cell instead. */
  ghost predicate IdleTop(jobs: seq<Job>) {
    exists d :: IdleFrom(jobs, d)
  }

  ghost predicate IdleFrom(jobs: seq<Job>, d: int) {
    && 1 <= d <= |jobs|
    && (exists k :: 0 <= k < |jobs| && jobs[k].deadline >= d)
    && (forall k :: 0 <= k < |jobs| && jobs[k].deadline >= d ==> jobs[k].score <= 0)
  }

  /** The sorted jobs as the scan treats them. */
  ghost function Effective(s: seq<Job>): (r: seq<Job>)
    ensures |r| == |s|
  {
    if IdleTop(s) then Waive(s, 0) else s
  }

  /** `a` holds the jobs of `s`, those the plan does having their score zeroed. */
  ghost predicate Cleared(a: seq<Job>, s: seq<Job>, plan: Plan) {
    && |a| == |s| == |plan|
    && forall k :: 0 <= k < |s| ==>
         a[k] == if plan[k] == 0 then s[k] else Job(s[k].deadline, 0)
  }

  /** Where the scan of day `i` stands: cells above `j` have been looked at, `max` is the
      largest score left among them, and `flag` is where it was found. */
  ghost predicate Scanned(a: seq<Job>, i: int, j: int, max: int, flag: int, seen: bool, clean: bool) {
    && -1 <= j < |a| && 0 <= max
    && (forall k :: j < k < |a| ==> a[k].deadline >= i && a[k].score <= max)
    && (max > 0 ==> j < flag < |a| && a[flag].score == max)
    && (seen && max == 0 ==> 0 <= flag < |a| && (if clean then flag == 0 else a[flag].score == 0))
    && (if seen then clean ==> j < |a| - 1 else clean && j == |a| - 1 && max == 0)
  }

  /** Giving an undone job day `i` leaves later days filled greedily. */
  lemma LaterDayKept(s: seq<Job>, plan: Plan, i: nat, g: nat, d: nat)
    requires |plan| == |s| && g < |s| && plan[g] == 0 && i < d
    requires GreedyDay(s, plan, d)
    ensures GreedyDay(s, plan[g := i], d)
  {
    var next := plan[g := i];
    forall x | 0 <= x < |s| && s[x].deadline >= d && s[x].score > 0 && (next[x] == 0 || next[x] < d)
      ensures exists k :: 0 <= k < |next| && next[k] == d && s[x].score <= s[k].score
    {
      var k :| 0 <= k < |plan| && plan[k] == d && s[x].score <= s[k].score;
      assert next[k] == d;
    }
  }

  /** Clearing the largest score found on day `i` fills that day greedily. */
  lemma FillDay(s: seq<Job>, plan: Plan, i: nat, g: nat)
    requires GreedyAbove(s, plan, i) && 0 < i <= |s|
    requires g < |s| && plan[g] == 0 && s[g].deadline >= i && s[g].score >= 0
    requires forall x :: 0 <= x < |s| && s[x].deadline >= i && plan[x] == 0 ==> s[x].score <= s[g].score
    ensures GreedyAbove(s, plan[g := i], i - 1)
  {
    var next := plan[g := i];
    forall d | i - 1 < d <= |s| ensures GreedyDay(s, next, d) {
      if d == i {
        assert next[g] == i;
      } else {
        LaterDayKept(s, plan, i, g, d);
      }
    }
  }

  /** When nothing has been cleared yet, day `i` is the first that any job can use, and the scan
      has found a candidate exactly when that day is not idle. */
  lemma FirstClear(s: seq<Job>, i: int, j: int, max: int)
    requires 1 <= i <= |s| && -1 <= j < |s| - 1
    requires forall k :: 0 <= k < |s| ==> (s[k].deadline >= i <==> j < k)
    requires i == |s| || forall k :: 0 <= k < |s| ==> s[k].deadline <= i
    requires forall k :: j < k < |s| ==> s[k].score <= max
    requires max > 0 ==> exists k :: j < k < |s| && s[k].score == max
    requires 0 <= max
    ensures IdleTop(s) <==> max == 0
  {
    if max == 0 {
      assert s[|s| - 1].deadline >= i;
      assert IdleFrom(s, i);
    } else {
      var k :| j < k < |s| && s[k].score == max;
      forall d | 1 <= d <= |s| && exists x :: 0 <= x < |s| && s[x].deadline >= d
        ensures !IdleFrom(s, d)
      {
        assert s[k].deadline >= d;
      }
    }
  }

  /** Everything the scan keeps: the days above `i` are filled, the cells show it, and day `i`
      has been scanned down to `j`. `clean` says that nothing has been cleared yet. */
  ghost predicate ScanState(entered: seq<Job>, a: seq<Job>, plan: Plan, i: int,
                            j: int, max: int, flag: int, seen: bool, clean: bool)
  {
    var s := Effective(entered);
    && 0 <= i <= |a| == |entered|
    && GreedyAbove(s, plan, i)
    && Cleared(a, if clean then entered else s, plan)
    && Scanned(a, i, j, max, flag, seen, clean)
    && (clean ==> forall k :: 0 <= k < |plan| ==> plan[k] == 0)
    && (clean ==> i == |a| || forall k :: 0 <= k < |a| ==> entered[k].deadline <= i)
  }

  ghost predicate ByDeadline(s: seq<Job>) {
    forall k, l :: 0 <= k < l < |s| ==> s[k].deadline <= s[l].deadline
  }

  /** Looking at one more cell. */
  lemma LookStep(entered: seq<Job>, a: seq<Job>, plan: Plan, i: int,
                 j: int, max: int, flag: int, seen: bool, clean: bool)
    requires ByDeadline(entered) && i > 0
    requires ScanState(entered, a, plan, i, j, max, flag, seen, clean)
    requires j >= 0 && a[j].deadline >= i
    requires !seen ==> flag == 0
    ensures ScanState(entered, a, plan, i, j - 1, if max < a[j].score then a[j].score else max,
                      if max < a[j].score then j else flag, true, clean)
  {
  }

  /** No job can use day `i`. */
  lemma IdleStep(entered: seq<Job>, a: seq<Job>, plan: Plan, i: int,
                 j: int, max: int, flag: int, clean: bool)
    requires ByDeadline(entered) && i > 0
    requires ScanState(entered, a, plan, i, j, max, flag, false, clean)
    requires j >= 0 ==> a[j].deadline < i
    ensures ScanState(entered, a, plan, i - 1, j, max, flag, false, clean)
  {
    var s := Effective(entered);
    assert forall k :: 0 <= k < |a| ==> a[k].deadline == s[k].deadline == entered[k].deadline;
    assert forall k :: 0 <= k <= j ==> a[k].deadline <= a[j].deadline;
    assert GreedyDay(s, plan, i);
  }

  /** What the scan of a day has found, in terms of the jobs as the scan treats them: the cell
      to clear is either the best job for the day, or holds nothing. */
  lemma Found(entered: seq<Job>, a: seq<Job>, plan: Plan, i: int,
              j: int, max: int, flag: int, clean: bool)
    requires ByDeadline(entered) && i > 0
    requires ScanState(entered, a, plan, i, j, max, flag, true, clean)
    requires j >= 0 ==> a[j].deadline < i
    ensures 0 <= flag < |a|
    ensures var s := Effective(entered);
            && (forall x :: 0 <= x < |s| && s[x].deadline >= i && plan[x] == 0 ==> s[x].score <= max)
            && (if max > 0 then plan[flag] == 0 && s[flag].deadline >= i && s[flag].score == max
                else plan[flag] != 0 || s[flag].score == 0)
            && (clean ==> a == entered && if max > 0 then s == entered else s == Waive(entered, 0) && flag == 0)
  {
    assert forall k :: 0 <= k < |a| ==> a[k].deadline == entered[k].deadline;
    assert forall k :: 0 <= k <= j ==> entered[k].deadline <= entered[j].deadline;
    if clean {
      assert a == entered;
      FirstClear(entered, i, j, max);
    }
  }

  /** The scan of day `i` ends with a clearing that fills the day. */
  lemma ClearStep(entered: seq<Job>, a: seq<Job>, plan: Plan, i: int,
                  j: int, max: int, flag: int, clean: bool)
      returns (next: Plan)
    requires ByDeadline(entered) && i > 0
    requires ScanState(entered, a, plan, i, j, max, flag, true, clean)
    requires j >= 0 ==> a[j].deadline < i
    ensures 0 <= flag < |a|
    ensures ScanState(entered, a[flag := Job(a[flag].deadline, 0)], next, i - 1, |a| - 1, 0, flag, true, false)
  {
    var s := Effective(entered);
    Found(entered, a, plan, i, j, max, flag, clean);
    next := plan;
    if max > 0 {
      FillDay(s, plan, i, flag);
      next := plan[flag := i];
    } else {
      assert GreedyDay(s, plan, i);
    }
    assert Cleared(a[flag := Job(a[flag].deadline, 0)], s, next);
  }

  /** The scan of 18.c, lines 42-61: days from last to first, the counter `i` being raised
      again as long as there are jobs left to look at for the day. */
  method DayScan(a: array<Job>) returns (ghost plan: Plan)
    requires ByDeadline(a[..])
    modifies a
    ensures GreedyAbove(Effective(old(a[..])), plan, 0)
    ensures Cleared(a[..], Effective(old(a[..])), plan)
  {
    ghost var entered := a[..];
    ghost var clean := true;
    plan := seq(a.Length, _ => 0);
    var i, j, max, flag, seen := a.Length, a.Length - 1, 0, 0, false;
    while i > 0
      invariant ScanState(entered, a[..], plan, i, j, max, flag, seen, clean)
      invariant !seen ==> flag == 0
      decreases i, j
    {
      if j >= 0 && a[j].deadline >= i {
        LookStep(entered, a[..], plan, i, j, max, flag, seen, clean);
        if max < a[j].score {
          max := a[j].score;
          flag := j;
        }
        i := i + 1;
        j := j - 1;
        seen := true;
      } else if seen {
        ghost var before := a[..];
        plan := ClearStep(entered, before, plan, i, j, max, flag, clean);
        a[flag] := Job(a[flag].deadline, 0);
        assert a[..] == before[flag := Job(before[flag].deadline, 0)];
        clean := false;
        j := a.Length - 1;
        max := 0;
      } else {
        IdleStep(entered, a[..], plan, i, j, max, flag, clean);
      }
      i := i - 1;
    }
  }

  function Scores(a: seq<Job>): (w: seq<int>)
    ensures |w| == |a|
  {
    seq(|a|, k requires 0 <= k < |a| => a[k].score)
  }

  /** Lines 62-68: the scores that are left. */
  method TotalScore(a: array<Job>) returns (sum: int)
    ensures sum == Sum(Scores(a[..]))
  {
    sum := 0;
    ghost var w := Scores(a[..]);
    for i := 0 to a.Length
      invariant sum == Sum(w[..i])
    {
      assert w[..i + 1][..i] == w[..i];
      if a[i].score != 0 {
        sum := sum + a[i].score;
      }
    }
    assert w[..a.Length] == w;
  }

  lemma ClearedScores(a: seq<Job>, s: seq<Job>, plan: Plan)
    requires Cleared(a, s, plan)
    ensures Sum(Scores(a)) == Penalty(s, plan)
  {
    assert Scores(a) == Costs(s, plan);
  }

  lemma SortedByDeadline(jobs: seq<Job>, sorted: seq<Job>, p: seq<nat>)
    requires Rearranges(sorted, jobs, p)
    requires SortedBy((m: Job, n: Job) => m.deadline <= n.deadline, sorted)
    ensures ByDeadline(sorted)
  {
  }

  /** Job `f` is due no later than any other, and `sum` is the optimum without its score, which
      is the true optimum exactly when forgiving `f` is harmless. */
  ghost predicate Forgiven(jobs: seq<Job>, f: nat, sum: int) {
    && f < |jobs| && (forall k :: 0 <= k < |jobs| ==> jobs[f].deadline <= jobs[k].deadline)
    && IsOptimum(Waive(jobs, f), sum)
    && (IsOptimum(jobs, sum) <==> HarmlessWaiver(jobs, f))
  }

  /** The whole of 18.c for one test case. The answer is the optimum, except that when the last
      usable day is idle it is the optimum with one earliest job forgiven. */
  method LeastPenalty(a: array<Job>) returns (sum: int)
    modifies a
    ensures !IdleTop(old(a[..])) ==> IsOptimum(old(a[..]), sum)
    ensures IdleTop(old(a[..])) ==> exists f :: Forgiven(old(a[..]), f, sum)
  {
    ghost var jobs := a[..];
    ghost var p := Qsort(a, (m: Job, n: Job) => m.deadline <= n.deadline);
    ghost var sorted := a[..];
    SortedByDeadline(jobs, sorted, p);
    ghost var greedy := DayScan(a);
    sum := TotalScore(a);
    ClearedScores(a[..], Effective(sorted), greedy);
    PrintedSum(jobs, sorted, p, greedy);
  }

  lemma IdleTopRearranged(jobs: seq<Job>, sorted: seq<Job>, p: seq<nat>)
    requires Rearranges(sorted, jobs, p)
    ensures IdleTop(jobs) <==> IdleTop(sorted)
  {
    PermutationIsBijection(p, |jobs|);
    if d :| IdleFrom(jobs, d) {
      var k :| 0 <= k < |jobs| && jobs[k].deadline >= d;
      assert k in p;
      var i :| 0 <= i < |p| && p[i] == k;
      assert sorted[i].deadline >= d;
      assert IdleFrom(sorted, d);
    }
    if d :| IdleFrom(sorted, d) {
      var i :| 0 <= i < |sorted| && sorted[i].deadline >= d;
      assert jobs[p[i]].deadline >= d;
      forall k | 0 <= k < |jobs| && jobs[k].deadline >= d ensures jobs[k].score <= 0 {
        assert k in p;
        var x :| 0 <= x < |p| && p[x] == k;
        assert sorted[x].deadline >= d;
      }
      assert IdleFrom(jobs, d);
    }
  }

  /** What the greedy plan of the sorted jobs says about the jobs as they were entered. */
  lemma PrintedSum(jobs: seq<Job>, sorted: seq<Job>, p: seq<nat>, greedy: Plan)
    requires Rearranges(sorted, jobs, p)
    requires forall k, l :: 0 <= k < l < |sorted| ==> sorted[k].deadline <= sorted[l].deadline
    requires GreedyAbove(Effective(sorted), greedy, 0)
    ensures !IdleTop(jobs) ==> IsOptimum(jobs, Penalty(Effective(sorted), greedy))
    ensures IdleTop(jobs) ==> exists f :: Forgiven(jobs, f, Penalty(Effective(sorted), greedy))
  {
    IdleTopRearranged(jobs, sorted, p);
    if IdleTop(jobs) {
      PermutationIsBijection(p, |jobs|);
      var f := p[0];
      forall k | 0 <= k < |jobs| ensures jobs[f].deadline <= jobs[k].deadline {
        assert k in p;
        var x :| 0 <= x < |p| && p[x] == k;
        assert x == 0 || 0 < x;
      }
      assert Rearranges(Waive(sorted, 0), Waive(jobs, f), p);
      OptimumSurvivesSorting(Waive(jobs, f), Waive(sorted, 0), p, greedy);
      WaivedOptimum(jobs, f, Penalty(Effective(sorted), greedy));
      assert Forgiven(jobs, f, Penalty(Effective(sorted), greedy));
    } else {
      OptimumSurvivesSorting(jobs, sorted, p, greedy);
    }
  }

  /** Three jobs on which the idle last day makes the program print 0 where the least penalty
      is 4: two jobs share the only day they can be done on. */
  lemma IdleTopFails()
    ensures var jobs := [Job(1, 5), Job(1, 4), Job(3, 0)];
            && IdleTop(jobs)
            && IsOptimum(jobs, 4)
            && IsOptimum(Waive(jobs, 0), 0)
            && IsOptimum(Waive(jobs, 1), 0)
  {
    var jobs := [Job(1, 5), Job(1, 4), Job(3, 0)];
    assert jobs[2].deadline >= 3;
    assert IdleFrom(jobs, 3);
    assert Feasible(jobs, [1, 0, 2]) && Feasible(Waive(jobs, 0), [0, 1, 2]) && Feasible(Waive(jobs, 1), [1, 0, 2]);
    ThreeJobPenalty(jobs, [1, 0, 2]);
    ThreeJobPenalty(Waive(jobs, 0), [0, 1, 2]);
    ThreeJobPenalty(Waive(jobs, 1), [1, 0, 2]);
    forall plan | Feasible(jobs, plan)
      ensures Penalty(jobs, plan) >= 4
    {
      ThreeJobPenalty(jobs, plan);
      assert plan[0] == 0 || plan[0] == 1;
      assert plan[1] == 0 || plan[1] == 1;
    }
    forall plan | Feasible(Waive(jobs, 0), plan)
      ensures Penalty(Waive(jobs, 0), plan) >= 0
    {
      ThreeJobPenalty(Waive(jobs, 0), plan);
    }
    forall plan | Feasible(Waive(jobs, 1), plan)
      ensures Penalty(Waive(jobs, 1), plan) >= 0
    {
      ThreeJobPenalty(Waive(jobs, 1), plan);
    }
  }

  lemma ThreeJobPenalty(jobs: seq<Job>, plan: Plan)
    requires |jobs| == |plan| == 3
    ensures Penalty(jobs, plan)
         == (if plan[0] == 0 then jobs[0].score else 0)
          + (if plan[1] == 0 then jobs[1].score else 0)
          + (if plan[2] == 0 then jobs[2].score else 0)
  {
    var w := Costs(jobs, plan);
    assert w[..2][..1] == w[..1] && w[..1][..0] == [];
    assert Sum([]) == 0;
    assert Sum(w[..1]) == Sum(w[..1][..0]) + w[0];
    assert Sum(w[..2]) == w[0] + w[1];
    assert Sum(w) == w[0] + w[1] + w[2];
  }
}
