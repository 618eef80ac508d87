/** Watching as many whole programmes as possible (Solution/huqingwei/week2/2_J.c). */
module Programmes {
  import opened Permutations
  import opened Wrappers

  datatype Programme = Programme(start: int, end: int)

  /** Neither begins before the other has ended. */
  predicate Apart(x: Programme, y: Programme) {
    x.end <= y.start || y.end <= x.start
  }

  /** Programmes from the list, no two of which overlap. */
  ghost predicate IsTimetable(all: multiset<Programme>, c: seq<Programme>) {
    && multiset(c) <= all
    && forall i, j :: 0 <= i < j < |c| ==> Apart(c[i], c[j])
  }

  ghost predicate IsLargest(all: multiset<Programme>, count: int) {
    && (exists c :: IsTimetable(all, c) && |c| == count)
    && (forall c :: IsTimetable(all, c) ==> |c| <= count)
  }

  ghost predicate Forward(s: seq<Programme>) {
    forall k :: 0 <= k < |s| ==> s[k].start <= s[k].end
  }

  // ---------- No timetable is larger ----------

  /** The programme is on just before one of the moments `cuts`. */
  ghost predicate Hit(x: Programme, cuts: set<int>) {
    exists e :: e in cuts && x.start < e <= x.end
  }

  /** The programme is on both before and after one of the moments `points`. */
  ghost predicate Straddles(x: Programme, points: multiset<int>) {
    exists t :: t in points && x.start < t < x.end
  }

  ghost predicate Barred(x: Programme, cuts: set<int>, points: multiset<int>) {
    Hit(x, cuts) || Straddles(x, points)
  }

  /** No two of `c` overlap, those that take some time are barred, and those that take none are
      among the points. */
  ghost predicate Covered(c: seq<Programme>, cuts: set<int>, points: multiset<int>) {
    && Forward(c)
    && (forall i, j :: 0 <= i < j < |c| ==> Apart(c[i], c[j]))
    && (forall i :: 0 <= i < |c| && c[i].start < c[i].end ==> Barred(c[i], cuts, points))
    && (forall t :: multiset(c)[Programme(t, t)] <= points[t])
  }

  lemma CoveredInit(c: seq<Programme>, x: Programme, cuts: set<int>, points: multiset<int>)
    requires Covered(c + [x], cuts, points)
    ensures Covered(c, cuts, points)
    ensures x.start <= x.end && (x.start < x.end ==> Barred(x, cuts, points))
    ensures forall i :: 0 <= i < |c| ==> Apart(c[i], x)
    ensures x.start == x.end ==> multiset(c)[x] < points[x.end]
  {
    var d := c + [x];
    assert forall i :: 0 <= i < |c| ==> c[i] == d[i];
    assert d[|c|] == x;
    assert multiset(d) == multiset(c) + multiset{x};
    forall i | 0 <= i < |c| ensures Apart(c[i], x) {
      assert Apart(d[i], d[|c|]);
    }
    forall t ensures multiset(c)[Programme(t, t)] <= points[t] {
      assert multiset(d)[Programme(t, t)] <= points[t];
    }
    assert x.start == x.end ==> multiset(d)[Programme(x.end, x.end)] <= points[x.end];
  }

  /** Whoever does not straddle `t` does without one of the points there. */
  lemma DropPoint(c: seq<Programme>, cuts: set<int>, points: multiset<int>, t: int)
    requires Covered(c, cuts, points) && multiset(c)[Programme(t, t)] < points[t]
    requires forall i :: 0 <= i < |c| ==> !(c[i].start < t < c[i].end)
    ensures Covered(c, cuts, points - multiset{t})
  {
    forall i | 0 <= i < |c| && c[i].start < c[i].end ensures Barred(c[i], cuts, points - multiset{t}) {
      if !Hit(c[i], cuts) {
        assert Barred(c[i], cuts, points);
        var u :| u in points && c[i].start < u < c[i].end;
        assert u in points - multiset{t};
      }
    }
  }

  /** Whoever is not hit by `e` does without that cut. */
  lemma DropCut(c: seq<Programme>, cuts: set<int>, points: multiset<int>, e: int)
    requires Covered(c, cuts, points)
    requires forall i :: 0 <= i < |c| && c[i].start < c[i].end ==> !(c[i].start < e <= c[i].end)
    ensures Covered(c, cuts - {e}, points)
  {
    forall i | 0 <= i < |c| && c[i].start < c[i].end ensures Barred(c[i], cuts - {e}, points) {
      assert Barred(c[i], cuts, points);
      if f :| f in cuts && c[i].start < f <= c[i].end {
        assert f in cuts - {e};
      }
    }
  }

  /** Only one of those that do not overlap is on around a moment. */
  lemma BesidePoint(c: seq<Programme>, x: Programme, t: int)
    requires forall i :: 0 <= i < |c| ==> Apart(c[i], x)
    requires x.start < t < x.end || x.start == t == x.end
    ensures forall i :: 0 <= i < |c| ==> !(c[i].start < t < c[i].end)
    ensures x.start < x.end ==> multiset(c)[Programme(t, t)] == 0
  {
    forall i | 0 <= i < |c| ensures !(c[i].start < t < c[i].end) && (x.start < x.end ==> c[i] != Programme(t, t)) {
      assert Apart(c[i], x);
    }
  }

  lemma BesideCut(c: seq<Programme>, x: Programme, e: int)
    requires forall i :: 0 <= i < |c| ==> Apart(c[i], x)
    requires x.start < e <= x.end
    ensures forall i :: 0 <= i < |c| && c[i].start < c[i].end ==> !(c[i].start < e <= c[i].end)
  {
    forall i | 0 <= i < |c| && c[i].start < c[i].end ensures !(c[i].start < e <= c[i].end) {
      assert Apart(c[i], x);
    }
  }

  /** Programmes that take some time and do not overlap need different cuts, or rule out
      different programmes that take none: there are no more of them, with those that take no
      time, than cuts and points. */
  lemma {:induction false} NoMoreThanCuts(c: seq<Programme>, cuts: set<int>, points: multiset<int>)
    requires Covered(c, cuts, points)
    ensures |c| <= |cuts| + |points|
  {
    if c != [] {
      var init, x := c[..|c| - 1], c[|c| - 1];
      assert c == init + [x];
      CoveredInit(init, x, cuts, points);
      if x.start == x.end {
        BesidePoint(init, x, x.end);
        DropPoint(init, cuts, points, x.end);
        NoMoreThanCuts(init, cuts, points - multiset{x.end});
      } else if e :| e in cuts && x.start < e <= x.end {
        BesideCut(init, x, e);
        DropCut(init, cuts, points, e);
        NoMoreThanCuts(init, cuts - {e}, points);
      } else {
        var t :| t in points && x.start < t < x.end;
        BesidePoint(init, x, t);
        DropPoint(init, cuts, points, t);
        NoMoreThanCuts(init, cuts, points - multiset{t});
      }
    }
  }

  // ---------- The bubble sort ----------

  ghost predicate SortedByEnd(s: seq<Programme>) {
    forall i, j :: 0 <= i < j < |s| ==> s[i].end <= s[j].end
  }

  /** Programmes out of their old order have ends strictly in order. */
  ghost predicate Stable(s: seq<Programme>, p: seq<nat>) {
    |s| == |p| && forall i, j :: 0 <= i < j < |s| && p[i] > p[j] ==> s[i].end < s[j].end
  }

  ghost predicate Stably(s: seq<Programme>, entered: seq<Programme>, p: seq<nat>) {
    Rearranges(s, entered, p) && Stable(s, p)
  }

  /** From place `m` on, every programme ends no earlier than those before it. */
  ghost predicate Settled(s: seq<Programme>, m: int) {
    forall x, y :: 0 <= x < y < |s| && m <= y ==> s[x].end <= s[y].end
  }

  /** Halfway through a pass over the first `m` places: place `j` has the latest end so far. */
  ghost predicate Passing(s: seq<Programme>, m: int, j: nat) {
    && Settled(s, m) && j < m <= |s|
    && forall x :: 0 <= x < j ==> s[x].end <= s[j].end
  }

  lemma PassSwap(s: seq<Programme>, m: int, j: nat)
    requires Passing(s, m, j) && j + 1 < m && s[j].end > s[j + 1].end
    ensures Passing(s[j := s[j + 1]][j + 1 := s[j]], m, j + 1)
  {
  }

  lemma PassKeep(s: seq<Programme>, m: int, j: nat)
    requires Passing(s, m, j) && j + 1 < m && s[j].end <= s[j + 1].end
    ensures Passing(s, m, j + 1)
  {
  }

  lemma StableSwap(s: seq<Programme>, p: seq<nat>, j: nat)
    requires Stable(s, p) && j + 1 < |s| && s[j].end > s[j + 1].end
    ensures Stable(s[j := s[j + 1]][j + 1 := s[j]], p[j := p[j + 1]][j + 1 := p[j]])
  {
  }

  lemma PassEnd(s: seq<Programme>, m: int)
    requires m > 0 && Passing(s, m, m - 1)
    ensures Settled(s, m - 1)
  {
  }

  /** Lines 25-27. */
  method Swap(jiemu: array<Programme>, j: nat)
    requires j + 1 < jiemu.Length
    modifies jiemu
    ensures var s := old(jiemu[..]); jiemu[..] == s[j := s[j + 1]][j + 1 := s[j]]
  {
    var temp := jiemu[j + 1];
    jiemu[j + 1] := jiemu[j];
    jiemu[j] := temp;
  }

  /** Lines 23-29: one pass brings the latest end among the first `m` places to the last of them. */
  method Bubble(jiemu: array<Programme>, m: nat, ghost entered: seq<Programme>, ghost p0: seq<nat>)
      returns (ghost p: seq<nat>)
    requires 0 < m <= jiemu.Length && Settled(jiemu[..], m) && Stably(jiemu[..], entered, p0)
    modifies jiemu
    ensures Settled(jiemu[..], m - 1) && Stably(jiemu[..], entered, p)
  {
    p := p0;
    var j: nat := 0;
    while j < m - 1
      invariant Passing(jiemu[..], m, j) && Stably(jiemu[..], entered, p)
    {
      ghost var s := jiemu[..];
      if jiemu[j].end > jiemu[j + 1].end {
        PassSwap(s, m, j);
        StableSwap(s, p, j);
        SwapRearranges(s, entered, p, j, j + 1);
        Swap(jiemu, j);
        p := p[j := p[j + 1]][j + 1 := p[j]];
      } else {
        PassKeep(s, m, j);
      }
      j := j + 1;
    }
    PassEnd(jiemu[..], m);
  }

  /** Lines 22-30: a bubble sort on the times the programmes end; programmes that end together
      keep their order. */
  method BubbleSort(jiemu: array<Programme>) returns (ghost p: seq<nat>)
    modifies jiemu
    ensures Rearranges(jiemu[..], old(jiemu[..]), p) && SortedByEnd(jiemu[..])
    ensures forall i, j :: 0 <= i < j < jiemu.Length && jiemu[i].end == jiemu[j].end ==> p[i] < p[j]
  {
    p := Range(jiemu.Length);
    var i := 0;
    while i < jiemu.Length - 1
      invariant 0 <= i && (jiemu.Length > 0 ==> i < jiemu.Length)
      invariant Stably(jiemu[..], old(jiemu[..]), p) && Settled(jiemu[..], jiemu.Length - i)
    {
      p := Bubble(jiemu, jiemu.Length - i, old(jiemu[..]), p);
      i := i + 1;
    }
    TiesKept(jiemu[..], old(jiemu[..]), p);
  }

  lemma TiesKept(s: seq<Programme>, entered: seq<Programme>, p: seq<nat>)
    requires Stably(s, entered, p)
    ensures forall i, j :: 0 <= i < j < |s| && s[i].end == s[j].end ==> p[i] < p[j]
  {
    PermutationIsBijection(p, |entered|);
    forall i, j | 0 <= i < j < |s| && s[i].end == s[j].end ensures p[i] < p[j] {
      assert p[i] != p[j];
    }
  }

  // ---------- The greedy choice ----------

  /** How many of `s`, taken in order, the loop picks after a programme that ended at `end`. */
  function Picked(s: seq<Programme>, end: int): nat {
    if s == [] then 0
    else if s[0].start >= end then 1 + Picked(s[1..], s[0].end)
    else Picked(s[1..], end)
  }

  /** What the loop prints for the sorted programmes `s`. */
  function Printed(s: seq<Programme>): nat
    requires |s| > 0
  {
    1 + Picked(s[1..], s[0].end)
  }

  /** The first of `s` takes no time, while a later one would end with it, take some time, and
      still begin no earlier than the `end` held before. */
  predicate Spoils(s: seq<Programme>, end: Option<int>) {
    && s != [] && s[0].start == s[0].end
    && exists j :: 1 <= j < |s| && Fits(s[j], s[0].end, end)
  }

  predicate Fits(x: Programme, end: int, before: Option<int>) {
    x.start < x.end == end && (before.Some? ==> before.value <= x.start)
  }

  /** How often the loop picks a programme that spoils a later one; `end` is what the loop holds,
      if it has picked one yet. */
  function Misses(s: seq<Programme>, end: Option<int>): nat {
    if s == [] then 0
    else if end.Some? && s[0].start < end.value then Misses(s[1..], end)
    else (if Spoils(s, end) then 1 else 0) + Misses(s[1..], Some(s[0].end))
  }

  lemma PickedStep(s: seq<Programme>, i: nat, end: int)
    requires i < |s|
    ensures Picked(s[i..], end)
         == if s[i].start >= end then 1 + Picked(s[i + 1..], s[i].end) else Picked(s[i + 1..], end)
  {
    assert s[i..][1..] == s[i + 1..];
  }

  /** Lines 32-39: the greedy choice, over programmes in order of their ends. */
  method Select(jiemu: array<Programme>) returns (num: nat)
    requires jiemu.Length > 0
    ensures num == Printed(jiemu[..])
  {
    num := 1;
    var end := jiemu[0].end;
    var i := 1;
    assert jiemu[1..] == jiemu[..][1..];
    while i < jiemu.Length
      invariant 1 <= i <= jiemu.Length
      invariant num + Picked(jiemu[i..], end) == Printed(jiemu[..])
    {
      PickedStep(jiemu[..], i, end);
      assert jiemu[..][i..] == jiemu[i..] && jiemu[..][i + 1..] == jiemu[i + 1..];
      if jiemu[i].start >= end {
        num := num + 1;
        end := jiemu[i].end;
      }
      i := i + 1;
    }
  }

  // ---------- How many the loop misses ----------

  /** Where the loop stands: `end` is what it holds. `open` says that it was reached by programmes
      that take no time, and that none which takes time has been counted as ending with them;
      `low` is what was held before, if anything was. */
  datatype Standing = Standing(end: int, low: Option<int>, open: bool)

  /** The next programme would have been picked, had it come before those that take no time. */
  predicate Late(h: Standing, x: Programme) {
    h.open && Fits(x, h.end, h.low)
  }

  function Next(h: Standing, x: Programme): Standing {
    if x.start >= h.end then
      if x.start < x.end then Standing(x.end, None, false)
      else if x.end == h.end then h
      else Standing(x.end, Some(h.end), true)
    else if Late(h, x) then h.(open := false)
    else h
  }

  /** How many of `s` come too late. */
  function Missed(s: seq<Programme>, h: Standing): nat {
    if s == [] then 0 else (if Late(h, s[0]) then 1 else 0) + Missed(s[1..], Next(h, s[0]))
  }

  /** Every programme too late is announced by the one that spoils it. */
  lemma {:induction false} MissedIsMisses(s: seq<Programme>, h: Standing)
    requires Forward(s) && SortedByEnd(s) && forall k :: 0 <= k < |s| ==> h.end <= s[k].end
    ensures Missed(s, h) == Misses(s, Some(h.end)) + if exists k :: 0 <= k < |s| && Late(h, s[k]) then 1 else 0
  {
    if s != [] {
      var x, rest, n := s[0], s[1..], Next(h, s[0]);
      MissedIsMisses(rest, n);
      assert forall k :: 0 <= k < |rest| ==> rest[k] == s[k + 1];
      if x.start < h.end {
        assert (exists k :: 0 <= k < |s| && Late(h, s[k])) <==>
               (Late(h, x) || exists k :: 0 <= k < |rest| && Late(h, rest[k]));
      } else {
        assert x.end > h.end || x.start == x.end == h.end;
        assert !Late(h, x);
        if x.end > h.end {
          assert !exists k :: 0 <= k < |s| && Late(h, s[k]);
          assert Spoils(s, Some(h.end)) <==> exists k :: 0 <= k < |rest| && Late(n, rest[k]);
        } else {
          assert !Spoils(s, Some(h.end));
          assert (exists k :: 0 <= k < |s| && Late(h, s[k])) <==> exists k :: 0 <= k < |rest| && Late(h, rest[k]);
        }
      }
    }
  }

  /** When those programmes of `s` that take no time end. */
  ghost function Points(s: seq<Programme>): (points: multiset<int>)
    ensures forall t :: points[t] == multiset(s)[Programme(t, t)]
  {
    if s == [] then multiset{}
    else
      var init, x := s[..|s| - 1], s[|s| - 1];
      assert s == init + [x];
      Points(init) + if x.start == x.end then multiset{x.end} else multiset{}
  }

  ghost predicate AllBarred(s: seq<Programme>, cuts: set<int>, points: multiset<int>) {
    forall k :: 0 <= k < |s| && s[k].start < s[k].end ==> Barred(s[k], cuts, points)
  }

  /** Nothing chosen ends after what the loop holds. */
  ghost predicate Ended(c: seq<Programme>, cuts: set<int>, end: int) {
    && (forall k :: 0 <= k < |c| ==> c[k].end <= end)
    && (forall e :: e in cuts ==> e <= end)
  }

  /** A programme that ends at `end` and starts no earlier than `low` is apart from all of `c`. */
  ghost predicate Room(c: seq<Programme>, end: int, low: Option<int>) {
    forall k :: 0 <= k < |c| ==> c[k] == Programme(end, end) || (low.Some? && c[k].end <= low.value)
  }

  /** What the loop holds is a cut, or a point that leaves room for a programme ending with it
      that starts no earlier than what was held before. */
  ghost predicate Placed(c: seq<Programme>, cuts: set<int>, points: multiset<int>, h: Standing) {
    if h.open then
      && h.end in points && h.end !in cuts && Room(c, h.end, h.low)
      && (h.low.Some? ==> h.low.value < h.end && (h.low.value in cuts || h.low.value in points))
    else
      h.end in cuts
  }

  /** The programmes of `s` dealt with so far, where the loop stands, a timetable `c` from them
      that also has those that came too late, and the cuts that show that none is larger. */
  ghost predicate Chosen(s: seq<Programme>, c: seq<Programme>, cuts: set<int>, h: Standing) {
    && Forward(s) && IsTimetable(multiset(s), c) && |c| == |cuts| + |Points(s)|
    && AllBarred(s, cuts, Points(s)) && Ended(c, cuts, h.end) && Placed(c, cuts, Points(s), h)
  }

  /** How the timetable, the cuts and the points go on with the next programme. */
  function MoreChosen(c: seq<Programme>, h: Standing, x: Programme): seq<Programme> {
    if x.start >= h.end || Late(h, x) then c + [x] else c
  }

  function MoreCuts(cuts: set<int>, h: Standing, x: Programme): set<int> {
    if (x.start >= h.end && x.start < x.end) || Late(h, x) then cuts + {x.end} else cuts
  }

  function MorePoints(points: multiset<int>, x: Programme): multiset<int> {
    if x.start == x.end then points + multiset{x.end} else points
  }

  lemma PointsAppend(s: seq<Programme>, x: Programme)
    ensures Points(s + [x]) == MorePoints(Points(s), x)
  {
    assert (s + [x])[..|s|] == s;
  }

  lemma BarredMore(x: Programme, cuts: set<int>, points: multiset<int>, cuts': set<int>, points': multiset<int>)
    requires Barred(x, cuts, points) && cuts <= cuts' && points <= points'
    ensures Barred(x, cuts', points')
  {
    if e :| e in cuts && x.start < e <= x.end {
      assert e in cuts';
    } else {
      var t :| t in points && x.start < t < x.end;
      assert t in points';
    }
  }

  /** A programme that is passed over, or that takes some time and is taken, is barred. */
  lemma NextIsBarred(c: seq<Programme>, cuts: set<int>, points: multiset<int>, h: Standing, x: Programme)
    requires Placed(c, cuts, points, h) && x.start < x.end && h.end <= x.end
    ensures Barred(x, MoreCuts(cuts, h, x), points)
  {
    var cuts' := MoreCuts(cuts, h, x);
    if x.end in cuts' {
    } else if h.end in cuts {
      assert h.end in cuts' && x.start < h.end <= x.end;
    } else if h.end < x.end {
      assert h.end in points && x.start < h.end < x.end;
    } else {
      assert h.low.Some? && x.start < h.low.value < x.end;
    }
  }

  lemma BarredNext(s: seq<Programme>, c: seq<Programme>, cuts: set<int>, points: multiset<int>, h: Standing,
                   x: Programme)
    requires AllBarred(s, cuts, points) && Placed(c, cuts, points, h)
    requires x.start <= x.end && h.end <= x.end
    ensures AllBarred(s + [x], MoreCuts(cuts, h, x), MorePoints(points, x))
  {
    var t, cuts', points' := s + [x], MoreCuts(cuts, h, x), MorePoints(points, x);
    forall k | 0 <= k < |t| && t[k].start < t[k].end ensures Barred(t[k], cuts', points') {
      if k < |s| {
        BarredMore(s[k], cuts, points, cuts', points');
      } else {
        NextIsBarred(c, cuts, points, h, x);
      }
    }
  }

  lemma TimetableAppend(all: multiset<Programme>, c: seq<Programme>, x: Programme)
    requires IsTimetable(all, c) && forall k :: 0 <= k < |c| ==> Apart(c[k], x)
    ensures IsTimetable(all + multiset{x}, c + [x])
  {
  }

  lemma TimetableNext(s: seq<Programme>, c: seq<Programme>, cuts: set<int>, points: multiset<int>, h: Standing,
                      x: Programme)
    requires IsTimetable(multiset(s), c) && Ended(c, cuts, h.end) && Placed(c, cuts, points, h)
    ensures IsTimetable(multiset(s + [x]), MoreChosen(c, h, x))
  {
    assert multiset(s + [x]) == multiset(s) + multiset{x};
    if x.start >= h.end || Late(h, x) {
      TimetableAppend(multiset(s), c, x);
    }
  }

  lemma SizeNext(c: seq<Programme>, cuts: set<int>, points: multiset<int>, h: Standing, x: Programme)
    requires Ended(c, cuts, h.end) && Placed(c, cuts, points, h) && x.start <= x.end && h.end <= x.end
    ensures |MoreChosen(c, h, x)| - |c| == |MoreCuts(cuts, h, x)| - |cuts| + |MorePoints(points, x)| - |points|
  {
    if x.start < x.end && (x.start >= h.end || Late(h, x)) {
      assert x.end !in cuts;
    }
  }

  lemma EndedNext(c: seq<Programme>, cuts: set<int>, h: Standing, x: Programme)
    requires Ended(c, cuts, h.end) && h.end <= x.end
    ensures Ended(MoreChosen(c, h, x), MoreCuts(cuts, h, x), Next(h, x).end)
  {
  }

  lemma PlacedNext(c: seq<Programme>, cuts: set<int>, points: multiset<int>, h: Standing, x: Programme)
    requires Ended(c, cuts, h.end) && Placed(c, cuts, points, h) && x.start <= x.end && h.end <= x.end
    ensures Placed(MoreChosen(c, h, x), MoreCuts(cuts, h, x), MorePoints(points, x), Next(h, x))
  {
    if x.start == x.end {
      assert x in c + [x];
      if x.end > h.end {
        assert Room(c + [x], x.end, Some(h.end));
      } else if h.open {
        assert Room(c + [x], h.end, h.low);
      }
    }
  }

  lemma ChooseNext(s: seq<Programme>, c: seq<Programme>, cuts: set<int>, h: Standing, x: Programme)
    requires Chosen(s, c, cuts, h) && x.start <= x.end && h.end <= x.end
    ensures Chosen(s + [x], MoreChosen(c, h, x), MoreCuts(cuts, h, x), Next(h, x))
  {
    PointsAppend(s, x);
    TimetableNext(s, c, cuts, Points(s), h, x);
    SizeNext(c, cuts, Points(s), h, x);
    BarredNext(s, c, cuts, Points(s), h, x);
    EndedNext(c, cuts, h, x);
    PlacedNext(c, cuts, Points(s), h, x);
  }

  lemma ChosenIsLargest(s: seq<Programme>, c: seq<Programme>, cuts: set<int>, h: Standing)
    requires Chosen(s, c, cuts, h)
    ensures IsLargest(multiset(s), |c|)
  {
    forall d | IsTimetable(multiset(s), d) ensures |d| <= |c| {
      forall i | 0 <= i < |d| ensures d[i] in s {
        assert d[i] in multiset(d);
      }
      NoMoreThanCuts(d, cuts, Points(s));
    }
  }

  /** The programmes still to come end in order, none before `end`. */
  ghost predicate Ahead(rest: seq<Programme>, end: int) {
    SortedByEnd(rest) && Forward(rest) && forall k :: 0 <= k < |rest| ==> end <= rest[k].end
  }

  lemma AheadNext(rest: seq<Programme>, h: Standing)
    requires rest != [] && Ahead(rest, h.end)
    ensures Ahead(rest[1..], Next(h, rest[0]).end)
  {
  }

  /** Part of the way through `all`: the programmes `done` are dealt with, `rest` are to come. */
  ghost predicate Halfway(all: seq<Programme>, done: seq<Programme>, rest: seq<Programme>, c: seq<Programme>,
                          cuts: set<int>, h: Standing) {
    all == done + rest && Ahead(rest, h.end) && Chosen(done, c, cuts, h)
  }

  lemma MoveOver(done: seq<Programme>, rest: seq<Programme>)
    requires rest != []
    ensures done + rest == done + [rest[0]] + rest[1..]
  {
  }

  lemma HalfwayNext(all: seq<Programme>, done: seq<Programme>, rest: seq<Programme>, c: seq<Programme>,
                    cuts: set<int>, h: Standing)
    requires rest != [] && Halfway(all, done, rest, c, cuts, h)
    ensures var x := rest[0];
            Halfway(all, done + [x], rest[1..], MoreChosen(c, h, x), MoreCuts(cuts, h, x), Next(h, x))
  {
    ChooseNext(done, c, cuts, h, rest[0]);
    AheadNext(rest, h);
    MoveOver(done, rest);
  }

  /** One step of the loop: what is chosen so far and what the rest adds make the same sum. */
  lemma CountStep(rest: seq<Programme>, c: seq<Programme>, h: Standing)
    requires rest != []
    ensures |c| + Picked(rest, h.end) + Missed(rest, h) ==
            |MoreChosen(c, h, rest[0])| + Picked(rest[1..], Next(h, rest[0]).end) + Missed(rest[1..], Next(h, rest[0]))
  {
  }

  /** Picking on from a choice made so far, with what comes too late added, ends with a largest
      timetable. */
  lemma {:induction false} PickedOn(all: seq<Programme>, done: seq<Programme>, rest: seq<Programme>,
                                    c: seq<Programme>, cuts: set<int>, h: Standing)
      returns (count: nat)
    requires Halfway(all, done, rest, c, cuts, h)
    ensures IsLargest(multiset(all), count) && count == |c| + Picked(rest, h.end) + Missed(rest, h)
    decreases rest
  {
    if rest == [] {
      assert all == done;
      ChosenIsLargest(done, c, cuts, h);
      count := |c|;
    } else {
      var x := rest[0];
      HalfwayNext(all, done, rest, c, cuts, h);
      CountStep(rest, c, h);
      count := PickedOn(all, done + [x], rest[1..], MoreChosen(c, h, x), MoreCuts(cuts, h, x), Next(h, x));
    }
  }

  ghost function First(x: Programme): Standing {
    Standing(x.end, None, x.start == x.end)
  }

  lemma ChooseFirst(x: Programme)
    requires x.start <= x.end
    ensures Chosen([x], [x], if x.start < x.end then {x.end} else {}, First(x))
  {
    PointsAppend([], x);
    assert [] + [x] == [x];
  }

  lemma MissedAfterFirst(s: seq<Programme>)
    requires |s| > 0 && SortedByEnd(s) && Forward(s)
    ensures Missed(s[1..], First(s[0])) == Misses(s, None)
  {
    var h, rest := First(s[0]), s[1..];
    MissedIsMisses(rest, h);
    assert forall k :: 0 <= k < |rest| ==> rest[k] == s[k + 1];
    assert Spoils(s, None) <==> exists k :: 0 <= k < |rest| && Late(h, rest[k]);
  }

  /** A largest timetable has as many programmes as the loop picks and misses. */
  lemma LargestSize(s: seq<Programme>)
    requires |s| > 0 && SortedByEnd(s) && Forward(s)
    ensures IsLargest(multiset(s), Printed(s) + Misses(s, None))
  {
    var x, rest := s[0], s[1..];
    ChooseFirst(x);
    var count := PickedOn(s, [x], rest, [x], if x.start < x.end then {x.end} else {}, First(x));
    MissedAfterFirst(s);
  }

  lemma OnlyOneLargest(all: multiset<Programme>, count: nat, missed: nat)
    requires IsLargest(all, count + missed)
    ensures IsLargest(all, count) <==> missed == 0
  {
    var c :| IsTimetable(all, c) && |c| == count + missed;
  }

  /** The greedy count is the size of a largest timetable exactly when the loop misses nothing. */
  lemma GreedyIsLargest(s: seq<Programme>)
    requires |s| > 0 && SortedByEnd(s) && Forward(s)
    ensures IsLargest(multiset(s), Printed(s)) <==> Misses(s, None) == 0
  {
    LargestSize(s);
    OnlyOneLargest(multiset(s), Printed(s), Misses(s, None));
  }

  ghost predicate AllTakeTime(s: seq<Programme>) {
    forall k :: 0 <= k < |s| ==> s[k].start < s[k].end
  }

  /** When every programme takes some time, nothing is missed. */
  lemma {:induction false} NothingMissed(s: seq<Programme>, end: Option<int>)
    requires AllTakeTime(s)
    ensures Misses(s, end) == 0
  {
    if s != [] {
      NothingMissed(s[1..], end);
      NothingMissed(s[1..], Some(s[0].end));
    }
  }

  /** A programme that takes no time can make the greedy count too small. */
  lemma NoTimeFails()
    ensures var s := [Programme(5, 5), Programme(3, 5)];
            && SortedByEnd(s) && Printed(s) == 1 && Misses(s, None) == 1
            && IsTimetable(multiset(s), [Programme(3, 5), Programme(5, 5)])
  {
    var s := [Programme(5, 5), Programme(3, 5)];
    assert s[1..] == [Programme(3, 5)];
    assert Fits(s[1], 5, None);
    assert !Spoils(s[1..], Some(5));
    assert multiset([Programme(3, 5), Programme(5, 5)]) == multiset(s);
  }

  /** What the greedy count over the sorted programmes says about the entered ones. */
  lemma SortedVerdict(s: seq<Programme>, entered: seq<Programme>, p: seq<nat>)
    requires Rearranges(s, entered, p) && SortedByEnd(s) && |s| > 0 && Forward(entered)
    ensures && IsLargest(multiset(entered), Printed(s) + Misses(s, None))
            && (IsLargest(multiset(entered), Printed(s)) <==> Misses(s, None) == 0)
            && (AllTakeTime(entered) ==> Misses(s, None) == 0)
  {
    RearrangedMultiset(s, entered, p);
    LargestSize(s);
    GreedyIsLargest(s);
    if AllTakeTime(entered) {
      NothingMissed(s, None);
    }
  }

  /** The program for one list of programmes. The array ends sorted by end, programmes that end
      together in their old order; if none ends before it starts, the printed number is that of a
      largest timetable exactly when the loop misses nothing on that order, and always when every
      programme takes some time. */
  method MostProgrammes(jiemu: array<Programme>) returns (num: nat, ghost p: seq<nat>)
    requires jiemu.Length > 0
    modifies jiemu
    ensures Rearranges(jiemu[..], old(jiemu[..]), p) && SortedByEnd(jiemu[..])
    ensures forall i, j :: 0 <= i < j < jiemu.Length && jiemu[i].end == jiemu[j].end ==> p[i] < p[j]
    ensures num == Printed(jiemu[..])
    ensures Forward(old(jiemu[..])) ==>
              && IsLargest(multiset(old(jiemu[..])), num + Misses(jiemu[..], None))
              && (IsLargest(multiset(old(jiemu[..])), num) <==> Misses(jiemu[..], None) == 0)
    ensures AllTakeTime(old(jiemu[..])) ==> IsLargest(multiset(old(jiemu[..])), num)
  {
    ghost var entered := jiemu[..];
    p := BubbleSort(jiemu);
    ghost var s := jiemu[..];
    num := Select(jiemu);
    if Forward(entered) {
      SortedVerdict(s, entered, p);
    }
  }
}
