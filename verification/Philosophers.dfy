/** Dining philosophers who try the second chopstick and put the first one back when it is taken
    (Code/huqingwei/test/zhexuejia.c), for a ring of any size. */
module Philosophers {
  import opened Counting
  import opened Wrappers

  /** Where a philosopher is in the loop of `eat_think`. */
  datatype Phil =
    | Thinking   // about to lock the left chopstick
    | HasLeft    // about to try the right one
    | BackingOff // found it taken, about to put the left one back
    | Eating     // about to put the left one back
    | HasRight   // about to put the right one back

  /** `owner[c]` is the philosopher who has locked chopstick `c`. */
  datatype Table = Table(phils: seq<Phil>, owner: seq<Option<nat>>)

  function Left(n: nat, p: nat): (c: nat)
    requires p < n
    ensures c < n
  {
    if p == 0 then n - 1 else p - 1
  }

  function Right(n: nat, p: nat): nat {
    p
  }

  function Init(n: nat): Table {
    Table(seq(n, _ => Thinking), seq(n, _ => None))
  }

  ghost predicate WellFormed(s: Table) {
    |s.phils| == |s.owner| >= 2
  }

  /** Only `pthread_mutex_lock` can keep a philosopher waiting. */
  predicate CanAct(s: Table, p: nat)
    requires |s.phils| == |s.owner|
  {
    p < |s.phils| && (s.phils[p] == Thinking ==> s.owner[Left(|s.phils|, p)] == None)
  }

  /** The next action of philosopher `p`. */
  function Act(s: Table, p: nat): (t: Table)
    requires |s.phils| == |s.owner| && CanAct(s, p)
    ensures |t.phils| == |t.owner| == |s.phils|
  {
    var n := |s.phils|;
    var l, r := Left(n, p), Right(n, p);
    match s.phils[p]
    case Thinking => Table(s.phils[p := HasLeft], s.owner[l := Some(p)])
    case HasLeft =>
      if s.owner[r] == None then Table(s.phils[p := Eating], s.owner[r := Some(p)])
      else Table(s.phils[p := BackingOff], s.owner)
    case BackingOff => Table(s.phils[p := Thinking], s.owner[l := None])
    case Eating => Table(s.phils[p := HasRight], s.owner[l := None])
    case HasRight => Table(s.phils[p := Thinking], s.owner[r := None])
  }

  ghost predicate IsRun(s: Table, who: seq<nat>, t: Table)
    decreases |who|
  {
    |s.phils| == |s.owner| &&
    if who == [] then s == t else CanAct(s, who[0]) && IsRun(Act(s, who[0]), who[1..], t)
  }

  // ---------- The invariant ----------

  ghost predicate Holds(s: Table, p: nat, c: nat)
    requires p < |s.phils|
  {
    || (c == Left(|s.phils|, p) && (s.phils[p].HasLeft? || s.phils[p].BackingOff? || s.phils[p].Eating?))
    || (c == Right(|s.phils|, p) && (s.phils[p].Eating? || s.phils[p].HasRight?))
  }

  /** A chopstick's lock belongs to whoever holds it. */
  ghost predicate Inv(s: Table) {
    && WellFormed(s)
    && (forall c :: 0 <= c < |s.owner| && s.owner[c].Some? ==> s.owner[c].value < |s.phils|)
    && (forall c, p :: 0 <= c < |s.owner| && 0 <= p < |s.phils| ==> (s.owner[c] == Some(p) <==> Holds(s, p, c)))
  }

  lemma ActInv(s: Table, p: nat)
    requires Inv(s) && CanAct(s, p)
    ensures Inv(Act(s, p))
  {
    var t, n := Act(s, p), |s.phils|;
    forall c, q | 0 <= c < n && 0 <= q < n ensures t.owner[c] == Some(q) <==> Holds(t, q, c) {
      assert s.owner[c] == Some(q) <==> Holds(s, q, c);
      assert s.owner[c] == Some(p) <==> Holds(s, p, c);
    }
  }

  lemma {:induction false} RunInv(s: Table, who: seq<nat>, t: Table)
    requires Inv(s) && IsRun(s, who, t)
    ensures Inv(t) && |t.phils| == |s.phils|
    decreases |who|
  {
    if who != [] {
      ActInv(s, who[0]);
      RunInv(Act(s, who[0]), who[1..], t);
    }
  }

  ghost predicate Reachable(n: nat, s: Table) {
    n >= 2 && exists who :: IsRun(Init(n), who, s)
  }

  lemma ReachableInv(n: nat, s: Table)
    requires Reachable(n, s)
    ensures Inv(s) && |s.phils| == n
  {
    var who :| IsRun(Init(n), who, s);
    RunInv(Init(n), who, s);
  }

  /** No chopstick is in two hands. */
  lemma OneHolder(n: nat, s: Table, p: nat, q: nat, c: nat)
    requires Reachable(n, s) && p < n && q < n && c < n
    requires |s.phils| == n && Holds(s, p, c) && Holds(s, q, c)
    ensures p == q
  {
    ReachableInv(n, s);
  }

  // ---------- One turn of the loop ----------

  /** With both chopsticks free a turn is a meal: the left one is taken, then the right one, and
      after the meal the left one is put back first. */
  lemma MealTurn(s: Table, p: nat)
    requires Inv(s) && p < |s.phils| && s.phils[p] == Thinking
    requires var l, r := Left(|s.phils|, p), Right(|s.phils|, p); s.owner[l] == None && s.owner[r] == None
    ensures var l, r := Left(|s.phils|, p), Right(|s.phils|, p);
            && CanAct(s, p) && Act(s, p).owner == s.owner[l := Some(p)]
            && var a := Act(s, p);
            && CanAct(a, p) && Act(a, p).owner == s.owner[l := Some(p)][r := Some(p)] && Act(a, p).phils[p] == Eating
            && var b := Act(a, p);
            && CanAct(b, p) && Act(b, p).owner == s.owner[r := Some(p)]
            && var c := Act(b, p);
            && CanAct(c, p) && Act(c, p) == s
  {
    var l := Left(|s.phils|, p);
    var a := Act(s, p);
    var b := Act(a, p);
    var c := Act(b, p);
    assert l != p;
    assert s.owner[l := Some(p)][p := Some(p)][l := None] == s.owner[p := Some(p)];
    assert c.owner[p := None] == s.owner && c.phils[p := Thinking] == s.phils;
  }

  /** With the right one taken the left one is taken and put back. */
  lemma BackOffTurn(s: Table, p: nat)
    requires Inv(s) && p < |s.phils| && s.phils[p] == Thinking
    requires var l, r := Left(|s.phils|, p), Right(|s.phils|, p); s.owner[l] == None && s.owner[r] != None
    ensures CanAct(s, p) && Act(s, p).owner == s.owner[Left(|s.phils|, p) := Some(p)]
    ensures var a := Act(s, p);
            && CanAct(a, p) && Act(a, p).owner == a.owner && Act(a, p).phils[p] != Eating
            && CanAct(Act(a, p), p) && Act(Act(a, p), p) == s
  {
    var l := Left(|s.phils|, p);
    var b := Act(Act(s, p), p);
    assert b.owner[l := None] == s.owner && b.phils[p := Thinking] == s.phils;
  }

  // ---------- At most half of them eat ----------

  ghost function Eaters(s: Table): set<nat> {
    set p | 0 <= p < |s.phils| && s.phils[p] == Eating
  }

  ghost function LeftHands(n: nat, e: set<nat>): set<nat>
    requires forall p :: p in e ==> p < n
  {
    set p | p in e :: Left(n, p)
  }

  lemma {:induction false} LeftHandsCount(n: nat, e: set<nat>)
    requires forall p :: p in e ==> p < n
    ensures |LeftHands(n, e)| == |e|
  {
    if p :| p in e {
      LeftHandsCount(n, e - {p});
      assert LeftHands(n, e) == LeftHands(n, e - {p}) + {Left(n, p)} by {
        forall c | c in LeftHands(n, e) ensures c in LeftHands(n, e - {p}) + {Left(n, p)} {
          var q :| q in e && Left(n, q) == c;
          assert q == p || q in e - {p};
        }
      }
      assert Left(n, p) !in LeftHands(n, e - {p});
    }
  }

  ghost function Below(n: nat): (s: set<nat>)
    ensures |s| == n
    ensures forall p: nat :: p in s <==> p < n
  {
    if n == 0 then {} else Below(n - 1) + {n - 1}
  }

  lemma HalfEat(n: nat, s: Table)
    requires Reachable(n, s)
    ensures |Eaters(s)| <= n / 2
  {
    ReachableInv(n, s);
    var e := Eaters(s);
    var l := LeftHands(n, e);
    LeftHandsCount(n, e);
    forall c | c in l ensures c !in e && c < n {
      var p :| p in e && Left(n, p) == c;
      assert Holds(s, p, c);
      if c in e {
        assert Holds(s, c, c);
      }
    }
    assert |l + e| == |l| + |e|;
    SubsetSize(l + e, Below(n));
  }

  // ---------- No deadlock ----------

  /** Whoever waits, waits for a philosopher who can go on; so somebody always can. */
  lemma NoDeadlock(n: nat, s: Table, p: nat)
    requires Reachable(n, s) && p < n && |s.phils| == |s.owner| == n
    ensures CanAct(s, p) || exists q :: 0 <= q < n && q != p && Holds(s, q, Left(n, p)) && CanAct(s, q)
  {
    ReachableInv(n, s);
    var c := Left(n, p);
    if s.owner[c].Some? {
      assert Holds(s, s.owner[c].value, c);
    }
  }

  ghost function Distance(p: Phil): nat {
    match p
    case Thinking => 0 case HasRight => 1 case BackingOff => 1 case Eating => 2 case HasLeft => 3
  }

  lemma {:induction false} Chain(s: Table, a: seq<nat>, t: Table, b: seq<nat>, u: Table)
    requires IsRun(s, a, t) && IsRun(t, b, u)
    ensures IsRun(s, a + b, u)
    decreases |a|
  {
    if a == [] {
      assert a + b == b;
    } else {
      Chain(Act(s, a[0]), a[1..], t, b, u);
      assert (a + b)[1..] == a[1..] + b;
    }
  }

  /** If everybody who holds something goes on, all end up thinking. */
  lemma {:induction false} AllPutDown(s: Table) returns (who: seq<nat>, t: Table)
    requires Inv(s)
    ensures IsRun(s, who, t) && Inv(t) && |t.phils| == |s.phils|
    ensures forall p :: 0 <= p < |t.phils| ==> t.phils[p] == Thinking
    decreases Tally(Distance, s.phils)
  {
    if p :| 0 <= p < |s.phils| && s.phils[p] != Thinking {
      var s' := Act(s, p);
      ActInv(s, p);
      TallyUpdate(Distance, s.phils, p, s'.phils[p]);
      assert s'.phils == s.phils[p := s'.phils[p]];
      var rest;
      rest, t := AllPutDown(s');
      who := [p] + rest;
      assert who[1..] == rest;
    } else {
      who, t := [], s;
    }
  }

  /** From every reachable state, every philosopher can still come to eat. */
  lemma EveryoneCanEat(n: nat, s: Table, p: nat) returns (who: seq<nat>, t: Table)
    requires Reachable(n, s) && p < n
    ensures IsRun(s, who, t) && p < |t.phils| && t.phils[p] == Eating
  {
    ReachableInv(n, s);
    var calm;
    who, calm := AllPutDown(s);
    forall c | 0 <= c < n ensures calm.owner[c] == None {
      assert calm.owner[c].Some? ==> Holds(calm, calm.owner[c].value, c);
    }
    var one := Act(calm, p);
    t := Act(one, p);
    assert IsRun(t, [], t) && IsRun(one, [p], t) && [p, p][1..] == [p];
    assert IsRun(calm, [p, p], t);
    Chain(s, who, calm, [p, p], t);
    who := who + [p, p];
  }

  // ---------- But nobody need ever eat ----------

  ghost predicate NobodyEats(s: Table) {
    forall p :: 0 <= p < |s.phils| ==> s.phils[p] != Eating
  }

  ghost predicate HungryRun(s: Table, who: seq<nat>, t: Table)
    decreases |who|
  {
    |s.phils| == |s.owner| && NobodyEats(s) &&
    if who == [] then s == t else CanAct(s, who[0]) && HungryRun(Act(s, who[0]), who[1..], t)
  }

  lemma {:induction false} HungryChain(s: Table, a: seq<nat>, t: Table, b: seq<nat>, u: Table)
    requires HungryRun(s, a, t) && HungryRun(t, b, u)
    ensures HungryRun(s, a + b, u)
    decreases |a|
  {
    if a == [] {
      assert a + b == b;
    } else {
      HungryChain(Act(s, a[0]), a[1..], t, b, u);
      assert (a + b)[1..] == a[1..] + b;
    }
  }

  /** The philosophers of `acting`, and no others, act and are where they started, nobody having
      eaten: they can go on like that for ever. */
  ghost predicate HungryCycle(s: Table, acting: set<nat>, who: seq<nat>) {
    HungryRun(s, who, s) && forall p :: p in who <==> p in acting
  }

  /** The philosopher whose left chopstick is the right one of `p`. */
  function Next(n: nat, p: nat): (q: nat)
    requires p < n
    ensures q < n && Left(n, q) == p
  {
    if p == n - 1 then 0 else p + 1
  }

  predicate HoldsLeftOnly(x: Phil) {
    x.HasLeft? || x.BackingOff?
  }

  /** `p` cannot get at its right chopstick, and nothing keeps it from its left one: the next
      philosopher acts as well or has stopped with that chopstick in hand, and neither `p` nor the
      one before is still to put a right chopstick back. */
  ghost predicate Spins(s: Table, acting: set<nat>, p: nat) {
    && p < |s.phils| && s.phils[p] != HasRight && s.phils[Left(|s.phils|, p)] != HasRight
    && var q := Next(|s.phils|, p); (q in acting || HoldsLeftOnly(s.phils[q]))
  }

  ghost predicate AllSpin(s: Table, acting: set<nat>) {
    NobodyEats(s) && forall p :: p in acting ==> Spins(s, acting, p)
  }

  // ---------- Spinning goes on for ever ----------

  /** The three places of a philosopher who never eats, in their order. */
  predicate Hungry(x: Phil) {
    x.Thinking? || HoldsLeftOnly(x)
  }

  function Onward(x: Phil): (y: Phil)
    requires Hungry(x)
    ensures Hungry(y)
  {
    if x.Thinking? then HasLeft else if x.HasLeft? then BackingOff else Thinking
  }

  function Gap(x: Phil, y: Phil): nat
    requires Hungry(x) && Hungry(y)
  {
    if x == y then 0 else if Onward(x) == y then 1 else 2
  }

  /** On the way from `x` to `y` the right chopstick is tried. */
  predicate Tries(x: Phil, y: Phil) {
    (x.HasLeft? && y != x) || (x.Thinking? && y.BackingOff?)
  }

  lemma MoveOn(s: Table, p: nat)
    requires Inv(s) && NobodyEats(s) && p < |s.phils| && Hungry(s.phils[p])
    requires s.phils[Left(|s.phils|, p)] != HasRight
    requires s.phils[p].HasLeft? ==> HoldsLeftOnly(s.phils[Next(|s.phils|, p)])
    ensures CanAct(s, p) && Inv(Act(s, p)) && NobodyEats(Act(s, p))
    ensures Act(s, p).phils == s.phils[p := Onward(s.phils[p])]
  {
    var n := |s.phils|;
    var l, q := Left(n, p), Next(n, p);
    if s.phils[p].Thinking? {
      assert forall o :: 0 <= o < n ==> !Holds(s, o, l);
    } else if s.phils[p].HasLeft? {
      assert Holds(s, q, p);
    }
    ActInv(s, p);
  }

  /** `p` alone goes on until it is at `goal`. */
  lemma {:induction false} Turn(s: Table, p: nat, goal: Phil) returns (who: seq<nat>, t: Table)
    requires Inv(s) && NobodyEats(s) && p < |s.phils| && Hungry(s.phils[p]) && Hungry(goal)
    requires s.phils[Left(|s.phils|, p)] != HasRight
    requires Tries(s.phils[p], goal) ==> HoldsLeftOnly(s.phils[Next(|s.phils|, p)])
    ensures HungryRun(s, who, t) && Inv(t) && NobodyEats(t) && t.phils == s.phils[p := goal]
    ensures (forall q :: q in who ==> q == p) && (s.phils[p] != goal ==> p in who)
    decreases Gap(s.phils[p], goal)
  {
    if s.phils[p] == goal {
      who, t := [], s;
    } else {
      MoveOn(s, p);
      var rest;
      rest, t := Turn(Act(s, p), p, goal);
      who := [p] + rest;
      assert who[1..] == rest;
    }
  }

  /** `p` can go on to where it is in `goals`. */
  ghost predicate CanTurn(s: Table, goals: seq<Phil>, p: nat)
    requires |goals| == |s.phils|
  {
    && p < |s.phils| && Hungry(s.phils[p]) && Hungry(goals[p])
    && s.phils[Left(|s.phils|, p)] != HasRight
    && var q := Next(|s.phils|, p);
       Tries(s.phils[p], goals[p]) ==> HoldsLeftOnly(s.phils[q]) && HoldsLeftOnly(goals[q])
  }

  lemma TurnKeeps(s: Table, goals: seq<Phil>, p: nat, t: Table, q: nat)
    requires |goals| == |s.phils| && CanTurn(s, goals, p) && CanTurn(s, goals, q) && p != q
    requires t.phils == s.phils[p := goals[p]]
    ensures CanTurn(t, goals, q)
  {
  }

  /** One after the other, the philosophers of `todo` go on to where they are in `goals`. */
  lemma {:induction false} Arrange(s: Table, goals: seq<Phil>, todo: set<nat>) returns (who: seq<nat>, t: Table)
    requires Inv(s) && NobodyEats(s) && |goals| == |s.phils|
    requires forall p :: p in todo ==> CanTurn(s, goals, p)
    requires forall p :: 0 <= p < |goals| && p !in todo ==> goals[p] == s.phils[p]
    ensures HungryRun(s, who, t) && Inv(t) && NobodyEats(t) && t.phils == goals
    ensures forall p :: p in who ==> p in todo
    ensures forall p :: p in todo && p < |goals| && s.phils[p] != goals[p] ==> p in who
    decreases |todo|
  {
    if p :| p in todo {
      var a, b, mid;
      a, mid := Turn(s, p, goals[p]);
      forall q | q in todo - {p} ensures CanTurn(mid, goals, q) {
        TurnKeeps(s, goals, p, mid, q);
      }
      b, t := Arrange(mid, goals, todo - {p});
      HungryChain(s, a, mid, b, t);
      who := a + b;
    } else {
      who, t := [], s;
      assert goals == s.phils;
    }
  }

  /** Where the philosophers are says who has locked what. */
  lemma PhilsDecide(s: Table, t: Table)
    requires Inv(s) && Inv(t) && s.phils == t.phils
    ensures s == t
  {
    forall c | 0 <= c < |s.owner| ensures s.owner[c] == t.owner[c] {
      assert s.owner[c].Some? ==> Holds(s, s.owner[c].value, c) && Holds(t, s.owner[c].value, c);
      assert t.owner[c].Some? ==> Holds(t, t.owner[c].value, c) && Holds(s, t.owner[c].value, c);
    }
    assert s.owner == t.owner;
  }

  function AllAt(phils: seq<Phil>, acting: set<nat>, x: Phil): seq<Phil> {
    seq(|phils|, p requires 0 <= p < |phils| => if p in acting then x else phils[p])
  }

  /** All take their left chopsticks, then all find the right one taken, then all go on to where
      they were. */
  lemma SpinForEver(s: Table, acting: set<nat>) returns (who: seq<nat>)
    requires Inv(s) && AllSpin(s, acting)
    ensures HungryCycle(s, acting, who)
  {
    var taken, back := AllAt(s.phils, acting, HasLeft), AllAt(s.phils, acting, BackingOff);
    var a, b, c, t, u, v;
    a, t := Arrange(s, taken, acting);
    b, u := Arrange(t, back, acting);
    c, v := Arrange(u, s.phils, acting);
    PhilsDecide(s, v);
    HungryChain(s, a, t, b, u);
    HungryChain(s, a + b, u, c, s);
    who := a + b + c;
  }

  /** In every ring all philosophers can take and put back their left chopsticks in step: the
      back-off rules out deadlock, not livelock. */
  lemma Livelock(n: nat) returns (who: seq<nat>)
    requires n >= 2
    ensures HungryRun(Init(n), who, Init(n)) && forall p :: 0 <= p < n ==> p in who
  {
    who := SpinForEver(Init(n), Below(n));
  }

  // ---------- Nothing else does ----------

  /** A right chopstick put back is not taken again without eating. */
  lemma {:induction false} RightStaysBack(s: Table, who: seq<nat>, t: Table, p: nat)
    requires HungryRun(s, who, t) && p < |s.phils| && (s.phils[p] != HasRight || p in who)
    ensures |t.phils| == |s.phils| && t.phils[p] != HasRight
    decreases |who|
  {
    if who != [] {
      RightStaysBack(Act(s, who[0]), who[1..], t, p);
    }
  }

  /** Behind one who has stopped with the right chopstick in hand, nobody takes the left one. */
  lemma {:induction false} LeftStaysTaken(s: Table, who: seq<nat>, t: Table, p: nat)
    requires Inv(s) && HungryRun(s, who, t) && p < |s.phils| && s.phils[p] != HasRight
    requires var l := Left(|s.phils|, p); l !in who && s.phils[l] == HasRight
    ensures p !in who
    decreases |who|
  {
    var l := Left(|s.phils|, p);
    assert Holds(s, l, l) && l != p;
    assert s.owner[l] == Some(l) && !Holds(s, p, l);
    if who != [] {
      assert who[0] != p;
      ActInv(s, who[0]);
      LeftStaysTaken(Act(s, who[0]), who[1..], t, p);
    }
  }

  ghost function ActsLeft(x: Phil): nat {
    if x.HasLeft? then 0 else if x.Thinking? then 1 else 2
  }

  lemma TryIsMeal(s: Table, p: nat)
    requires Inv(s) && p < |s.phils| && s.phils[p].HasLeft? && NobodyEats(s)
    requires !HoldsLeftOnly(s.phils[Next(|s.phils|, p)])
    ensures Act(s, p).phils[p] == Eating
  {
    assert forall o :: 0 <= o < |s.phils| ==> !Holds(s, o, p);
  }

  /** Next to one who has stopped without the left chopstick, whoever tries the right one eats:
      there are at most two acts before. */
  lemma {:induction false} RightIsFree(s: Table, who: seq<nat>, t: Table, p: nat)
    requires Inv(s) && HungryRun(s, who, t) && p < |s.phils|
    requires var q := Next(|s.phils|, p); q !in who && !HoldsLeftOnly(s.phils[q])
    ensures |t.phils| == |s.phils| && ActsLeft(t.phils[p]) <= ActsLeft(s.phils[p])
    ensures p in who ==> ActsLeft(t.phils[p]) < ActsLeft(s.phils[p])
    decreases |who|
  {
    if who != [] {
      if s.phils[p].HasLeft? {
        TryIsMeal(s, p);
      }
      ActInv(s, who[0]);
      RightIsFree(Act(s, who[0]), who[1..], t, p);
    }
  }

  lemma CycleSpins(s: Table, acting: set<nat>, who: seq<nat>, p: nat)
    requires Inv(s) && HungryCycle(s, acting, who) && p in acting && p < |s.phils|
    ensures Spins(s, acting, p)
  {
    var l, q := Left(|s.phils|, p), Next(|s.phils|, p);
    RightStaysBack(s, who, s, p);
    if l in who {
      RightStaysBack(s, who, s, l);
    } else if s.phils[l] == HasRight {
      LeftStaysTaken(s, who, s, p);
    }
    if q !in acting && !HoldsLeftOnly(s.phils[q]) {
      RightIsFree(s, who, s, p);
    }
  }

  lemma {:induction false} WhoIsInRing(s: Table, who: seq<nat>, t: Table, p: nat)
    requires HungryRun(s, who, t) && p in who
    ensures p < |s.phils|
    decreases |who|
  {
    if who[0] != p {
      WhoIsInRing(Act(s, who[0]), who[1..], t, p);
    }
  }

  /** From any reachable state, the philosophers of `acting` can act for ever with nobody eating
      and the others standing still exactly when all of `acting` spin. */
  lemma LivelockExact(n: nat, s: Table, acting: set<nat>)
    requires Reachable(n, s)
    ensures (exists who :: HungryCycle(s, acting, who)) <==> AllSpin(s, acting)
  {
    ReachableInv(n, s);
    if who :| HungryCycle(s, acting, who) {
      forall p | p in acting ensures Spins(s, acting, p) {
        WhoIsInRing(s, who, s, p);
        CycleSpins(s, acting, who, p);
      }
    }
    if AllSpin(s, acting) {
      var who := SpinForEver(s, acting);
    }
  }

  /** Those who do not act have nothing in their hands. */
  ghost predicate OthersThink(s: Table, acting: set<nat>) {
    forall p :: 0 <= p < |s.phils| && p !in acting ==> s.phils[p] == Thinking
  }

  lemma {:induction false} AllAfter(n: nat, acting: set<nat>, p: nat, k: nat)
    requires p < n && p in acting && k < n
    requires forall q :: q in acting ==> q < n && Next(n, q) in acting
    ensures k in acting
    decreases if k < p then k + n - p else k - p
  {
    if k != p {
      AllAfter(n, acting, p, Left(n, k));
      assert Next(n, Left(n, k)) == k;
    }
  }

  /** If those who do not act hold nothing, it takes everybody: in a cycle with even one philosopher
      sitting out, somebody eats. */
  lemma LivelockTakesAll(n: nat, acting: set<nat>)
    requires n >= 2 && acting != {} && forall p :: p in acting ==> p < n
    ensures (exists s, who :: Reachable(n, s) && OthersThink(s, acting) && HungryCycle(s, acting, who))
       <==> forall p: nat :: p < n ==> p in acting
  {
    if s, who :| Reachable(n, s) && OthersThink(s, acting) && HungryCycle(s, acting, who) {
      ReachableInv(n, s);
      LivelockExact(n, s, acting);
      forall q | q in acting ensures q < n && Next(n, q) in acting {
        assert Spins(s, acting, q);
      }
      var p :| p in acting;
      forall k: nat | k < n ensures k in acting {
        AllAfter(n, acting, p, k);
      }
    }
    if forall p: nat :: p < n ==> p in acting {
      assert IsRun(Init(n), [], Init(n));
      LivelockExact(n, Init(n), acting);
    }
  }

  // ---------- The five of the source ----------

  /** `get` numbers the chopsticks from 1. */
  function Get(phi: char): (hands: (nat, nat))
    requires 'A' <= phi <= 'E'
  {
    match phi
    case 'A' => (5, 1)
    case 'B' => (1, 2)
    case 'C' => (2, 3)
    case 'D' => (3, 4)
    case _ => (4, 5)
  }

  /** The five philosophers form a ring of the general kind. */
  lemma GetIsRing(phi: char)
    requires 'A' <= phi <= 'E'
    ensures var p := phi as int - 'A' as int;
            Get(phi) == (Left(5, p) + 1, Right(5, p) + 1)
  {
  }
}
