/** Taking numbers from either end of a row so that they increase (Solution/wuxinyue/week1J.c). */
module TwoEnds {

  /** `moves` can be played on the window `a[i..k+1]` after a number `m`: each move takes the
      left or the right end, and each number taken exceeds the one before. */
  predicate Legal(a: seq<int>, i: int, k: int, m: int, moves: string)
    requires 0 <= i && k < |a|
    decreases |moves|
  {
    moves == "" ||
    (i <= k &&
     if moves[0] == 'L' then a[i] > m && Legal(a, i + 1, k, a[i], moves[1..])
     else moves[0] == 'R' && a[k] > m && Legal(a, i, k - 1, a[k], moves[1..]))
  }

  ghost predicate Distinct(a: seq<int>) {
    forall x, y :: 0 <= x < y < |a| ==> a[x] != a[y]
  }

  /** A left end that is already too small is never taken, so dropping it costs nothing. */
  lemma {:induction false} DropLeft(a: seq<int>, i: int, k: int, m: int, moves: string)
    requires 0 <= i <= k < |a| && a[i] < m
    requires Legal(a, i, k, m, moves)
    ensures Legal(a, i + 1, k, m, moves)
    decreases |moves|
  {
    if moves != "" {
      DropLeft(a, i, k - 1, a[k], moves[1..]);
    }
  }

  lemma {:induction false} DropRight(a: seq<int>, i: int, k: int, m: int, moves: string)
    requires 0 <= i <= k < |a| && a[k] < m
    requires Legal(a, i, k, m, moves)
    ensures Legal(a, i, k - 1, m, moves)
    decreases |moves|
  {
    if moves != "" {
      DropRight(a, i + 1, k, a[i], moves[1..]);
    }
  }

  /** `moves` is a longest of the games that can be played on the window after `m`. */
  ghost predicate Longest(a: seq<int>, i: int, k: int, m: int, moves: string)
    requires 0 <= i && k < |a|
  {
    Legal(a, i, k, m, moves) && forall other :: Legal(a, i, k, m, other) ==> |other| <= |moves|
  }

  lemma FirstMove(a: seq<int>, i: int, k: int, m: int, rest: string)
    requires 0 <= i <= k < |a|
    ensures Legal(a, i, k, m, "L" + rest) <==> a[i] > m && Legal(a, i + 1, k, a[i], rest)
    ensures Legal(a, i, k, m, "R" + rest) <==> a[k] > m && Legal(a, i, k - 1, a[k], rest)
  {
    assert ("L" + rest)[1..] == rest && ("R" + rest)[1..] == rest;
  }

  /** When the right end is no longer available, or larger, nothing is lost by taking the left
      end: a game that begins with the right one can be played after the left one instead. */
  lemma LeftIsBest(a: seq<int>, i: int, k: int, m: int, rest: string)
    requires 0 <= i <= k < |a| && a[i] > m
    requires i == k || a[k] <= m || a[i] < a[k]
    ensures Longest(a, i, k, m, "L" + rest) <==> Longest(a, i + 1, k, a[i], rest)
  {
    FirstMove(a, i, k, m, rest);
    if Longest(a, i, k, m, "L" + rest) {
      forall other | Legal(a, i + 1, k, a[i], other) ensures |other| <= |rest| {
        FirstMove(a, i, k, m, other);
        assert |"L" + other| <= |"L" + rest|;
      }
    }
    if Longest(a, i + 1, k, a[i], rest) {
      forall other | Legal(a, i, k, m, other) ensures |other| <= |"L" + rest| {
        if other != "" {
          if other[0] == 'L' {
            assert Legal(a, i + 1, k, a[i], other[1..]);
          } else if i == k {
            assert Legal(a, i, k - 1, a[k], other[1..]);
            assert other[1..] == "";
          } else {
            DropLeft(a, i, k - 1, a[k], other[1..]);
            assert Legal(a, i + 1, k, a[i], other);
          }
        }
      }
    }
  }

  lemma RightIsBest(a: seq<int>, i: int, k: int, m: int, rest: string)
    requires 0 <= i <= k < |a| && a[k] > m
    requires i == k || a[i] <= m || a[k] < a[i]
    ensures Longest(a, i, k, m, "R" + rest) <==> Longest(a, i, k - 1, a[k], rest)
  {
    FirstMove(a, i, k, m, rest);
    if Longest(a, i, k, m, "R" + rest) {
      forall other | Legal(a, i, k - 1, a[k], other) ensures |other| <= |rest| {
        FirstMove(a, i, k, m, other);
        assert |"R" + other| <= |"R" + rest|;
      }
    }
    if Longest(a, i, k - 1, a[k], rest) {
      forall other | Legal(a, i, k, m, other) ensures |other| <= |"R" + rest| {
        if other != "" {
          if other[0] == 'R' {
            assert Legal(a, i, k - 1, a[k], other[1..]);
          } else if i == k {
            assert Legal(a, i + 1, k, a[i], other[1..]);
            assert other[1..] == "";
          } else {
            DropRight(a, i + 1, k, a[i], other[1..]);
            assert Legal(a, i, k - 1, a[k], other);
          }
        }
      }
    }
  }

  /** Between two equal ends that can both be taken, either blocks the other: one move is the
      most exactly when neither neighbour is larger. */
  lemma TieIsBest(a: seq<int>, i: int, k: int, m: int)
    requires 0 <= i < k < |a| && a[i] == a[k] > m
    ensures Longest(a, i, k, m, "L") <==> a[i + 1] <= a[i] && a[k - 1] <= a[k]
  {
    assert Legal(a, i, k, m, "L");
    if a[i + 1] > a[i] {
      FirstMove(a, i, k, m, "L");
      FirstMove(a, i + 1, k, a[i], "");
      assert Legal(a, i, k, m, "L" + "L") && |"L" + "L"| == 2;
    } else if a[k - 1] > a[k] {
      FirstMove(a, i, k, m, "R");
      FirstMove(a, i, k - 1, a[k], "");
      assert Legal(a, i, k, m, "R" + "R") && |"R" + "R"| == 2;
    } else {
      forall other | Legal(a, i, k, m, other) ensures |other| <= 1 {
        if other != "" {
          var rest := other[1..];
          assert if other[0] == 'L' then Legal(a, i + 1, k, a[i], rest) else Legal(a, i, k - 1, a[k], rest);
          assert rest == "";
        }
      }
    }
  }

  /** The test of line 22, and that of line 30. */
  predicate TakesLeft(x: int, y: int, m: int) {
    (x <= y && x > m) || (x > y && y < m && x >= m)
  }

  predicate TakesRight(x: int, y: int, m: int) {
    (x > y && y > m) || (x < y && x < m && y > m)
  }

  /** What the loop of lines 17-42 writes from the window `a[i..k+1]` on, on any row at all. */
  function Printed(a: seq<int>, i: int, k: int, m: int): string
    requires 0 <= i && k < |a|
    decreases k + 1 - i
  {
    if i > k then ""
    else if TakesLeft(a[i], a[k], m) then "L" + Printed(a, i + 1, k, a[i])
    else if TakesRight(a[i], a[k], m) then "R" + Printed(a, i, k - 1, a[k])
    else ""
  }

  /** The row never brings the loop into a position it mishandles: two equal ends with a larger
      neighbour, an end equal to the number last taken while the other end could be taken, or a
      left end equal to it above a right end that is too small. */
  predicate Clean(a: seq<int>, i: int, k: int, m: int)
    requires 0 <= i && k < |a|
    decreases k + 1 - i
  {
    if i >= k then true
    else
      var x, y := a[i], a[k];
      if x > m && y > m then
        if x == y then a[i + 1] <= x && a[k - 1] <= y
        else if x < y then Clean(a, i + 1, k, x)
        else Clean(a, i, k - 1, y)
      else if x > m then y != m && Clean(a, i + 1, k, x)
      else if y > m then x != m && Clean(a, i, k - 1, y)
      else !(x == m && y < m)
  }

  /** On every row, what is printed is a longest legal game exactly when the row is clean. */
  lemma {:induction false} LongestIffClean(a: seq<int>, i: int, k: int, m: int)
    requires 0 <= i && k < |a|
    ensures Longest(a, i, k, m, Printed(a, i, k, m)) <==> Clean(a, i, k, m)
    decreases k + 1 - i
  {
    if i <= k {
      var x, y := a[i], a[k];
      if x > m && y > m && x == y && i < k {
        assert Printed(a, i + 1, k, x) == "";
        TieIsBest(a, i, k, m);
      } else if x > m && (x <= y || y < m) {
        LeftIsBest(a, i, k, m, Printed(a, i + 1, k, x));
        LongestIffClean(a, i + 1, k, x);
      } else if y > m && (y < x || x < m) {
        RightIsBest(a, i, k, m, Printed(a, i, k - 1, y));
        LongestIffClean(a, i, k - 1, y);
      } else {
        Stopped(a, i, k, m);
      }
    }
  }

  /** The positions in which the loop neither takes an end it can take nor is done cleanly. */
  lemma Stopped(a: seq<int>, i: int, k: int, m: int)
    requires 0 <= i <= k < |a|
    requires !(a[i] > m && (a[i] <= a[k] || a[k] < m)) && !(a[k] > m && (a[k] < a[i] || a[i] < m))
    ensures Longest(a, i, k, m, Printed(a, i, k, m)) <==> Clean(a, i, k, m)
  {
    var x, y := a[i], a[k];
    if x == m && y < m && i < k {
      FirstMove(a, i, k, m, Printed(a, i + 1, k, x));
    } else {
      assert Printed(a, i, k, m) == "";
      FirstMove(a, i, k, m, "");
      if x > m { assert Legal(a, i, k, m, "L" + "") && |"L" + ""| == 1; }
      if y > m { assert Legal(a, i, k, m, "R" + "") && |"R" + ""| == 1; }
    }
  }

  /** `moves` is a longest legal game on the row `a`. */
  ghost predicate IsLongest(a: seq<int>, moves: string) {
    Longest(a, 0, |a| - 1, 0, moves)
  }

  /** `x` comes before `y` in the dictionary, or is the same. */
  predicate NoLater(x: string, y: string) {
    x == "" || (y != "" && (x[0] < y[0] || (x[0] == y[0] && NoLater(x[1..], y[1..]))))
  }

  /** If the right end is the smaller of two that can be taken, a game that begins with the left
      one is never longest: the right one could have been taken before it. */
  lemma LeftIsNotBest(a: seq<int>, i: int, k: int, m: int, rest: string)
    requires 0 <= i < k < |a| && m < a[k] < a[i] && Legal(a, i, k, m, "L" + rest)
    ensures Legal(a, i, k, m, "R" + ("L" + rest))
  {
    FirstMove(a, i, k, m, rest);
    DropRight(a, i + 1, k, a[i], rest);
    FirstMove(a, i, k - 1, a[k], rest);
    FirstMove(a, i, k, m, "L" + rest);
  }

  /** On a clean row the printed game is the first in the dictionary among the longest ones. */
  lemma {:induction false} PrintedIsFirst(a: seq<int>, i: int, k: int, m: int, other: string)
    requires 0 <= i && k < |a| && Clean(a, i, k, m) && Longest(a, i, k, m, other)
    ensures NoLater(Printed(a, i, k, m), other)
    decreases k + 1 - i
  {
    LongestIffClean(a, i, k, m);
    if other != "" && Printed(a, i, k, m) != "" {
      var x, y, rest := a[i], a[k], other[1..];
      assert other == [other[0]] + rest;
      if other[0] == 'L' {
        assert x > m;
        if TakesLeft(x, y, m) && !(x == y && i < k) {
          LeftIsBest(a, i, k, m, rest);
          PrintedIsFirst(a, i + 1, k, x, rest);
        } else if !TakesLeft(x, y, m) {
          LeftIsNotBest(a, i, k, m, rest);
        }
      } else if TakesRight(x, y, m) {
        RightIsBest(a, i, k, m, rest);
        PrintedIsFirst(a, i, k - 1, y, rest);
      }
    }
  }

  lemma {:induction false} DistinctIsClean(a: seq<int>, i: int, k: int, m: int)
    requires 0 <= i && k < |a| && Distinct(a)
    requires forall x :: i <= x <= k ==> a[x] != m
    ensures Clean(a, i, k, m)
    decreases k + 1 - i
  {
    if i < k {
      assert a[i] != m && a[k] != m && a[i] != a[k];
      if a[i] > m && (a[i] < a[k] || a[k] < m) {
        DistinctIsClean(a, i + 1, k, a[i]);
      } else if a[k] > m {
        DistinctIsClean(a, i, k - 1, a[k]);
      }
    }
  }

  /** On pairwise distinct positive numbers the program prints a longest legal game. */
  lemma PrintedIsLongest(a: seq<int>)
    requires Distinct(a) && forall x :: 0 <= x < |a| ==> a[x] > 0
    ensures IsLongest(a, Printed(a, 0, |a| - 1, 0))
  {
    DistinctIsClean(a, 0, |a| - 1, 0);
    LongestIffClean(a, 0, |a| - 1, 0);
  }

  /** Two rows with a repeated number: on one the program stops after one move where three are
      legal, on the other it prints a game that is not legal. */
  lemma RepeatsFail()
    ensures Printed([3, 5, 4, 3], 0, 3, 0) == "L" && Legal([3, 5, 4, 3], 0, 3, 0, "RRR")
    ensures Printed([3, 3, 1, 2], 0, 3, 0) == "RLL" && !Legal([3, 3, 1, 2], 0, 3, 0, "RLL")
  {
    var a := [3, 5, 4, 3];
    assert Printed(a, 1, 3, 3) == "";
    assert "RRR"[1..] == "RR" && "RR"[1..] == "R" && "R"[1..] == "";
    assert Legal(a, 0, 1, 4, "R");
    assert Legal(a, 0, 2, 3, "RR");
    var b := [3, 3, 1, 2];
    assert Printed(b, 2, 2, 3) == "";
    assert Printed(b, 1, 2, 3) == "L";
    assert Printed(b, 0, 2, 2) == "LL";
    assert "RLL"[1..] == "LL" && "LL"[1..] == "L";
    assert !Legal(b, 1, 2, 3, "L");
    assert !Legal(b, 0, 2, 2, "LL");
  }

  /** What the printed game is worth. */
  lemma PrintedVerdict(a: seq<int>)
    ensures var game := Printed(a, 0, |a| - 1, 0);
            && (IsLongest(a, game) <==> Clean(a, 0, |a| - 1, 0))
            && (Clean(a, 0, |a| - 1, 0) ==> forall other :: IsLongest(a, other) ==> NoLater(game, other))
            && (Distinct(a) && (forall x :: 0 <= x < |a| ==> a[x] > 0) ==> IsLongest(a, game))
  {
    LongestIffClean(a, 0, |a| - 1, 0);
    if Clean(a, 0, |a| - 1, 0) {
      forall other | IsLongest(a, other) ensures NoLater(Printed(a, 0, |a| - 1, 0), other) {
        PrintedIsFirst(a, 0, |a| - 1, 0, other);
      }
    }
    if Distinct(a) && forall x :: 0 <= x < |a| ==> a[x] > 0 {
      PrintedIsLongest(a);
    }
  }

  lemma Onward(played: string, c: char, rest: string)
    ensures played + ([c] + rest) == (played + [c]) + rest
  {
  }

  /** Lines 25 and 33: one more letter in the buffer. */
  method Record(b: array<char>, j: nat, c: char)
    requires j < b.Length
    modifies b
    ensures b[..j + 1] == old(b[..j]) + [c]
    ensures b[j + 1..] == old(b[j + 1..])
  {
    b[j] := c;
  }

  /** The program on one row: how many moves it prints, and the moves. */
  method Play(a: array<int>, b: array<char>) returns (sum: nat)
    requires b.Length >= a.Length
    modifies b
    ensures sum <= b.Length && b[..sum] == Printed(old(a[..]), 0, a.Length - 1, 0)
    ensures IsLongest(old(a[..]), b[..sum]) <==> Clean(old(a[..]), 0, a.Length - 1, 0)
    ensures Clean(old(a[..]), 0, a.Length - 1, 0) ==>
              forall other :: IsLongest(old(a[..]), other) ==> NoLater(b[..sum], other)
    ensures Distinct(old(a[..])) && (forall x :: 0 <= x < a.Length ==> old(a[x]) > 0) ==>
              IsLongest(old(a[..]), b[..sum])
  {
    ghost var s := a[..];
    ghost var played := "";
    sum := 0;
    var k := a.Length - 1;
    var j := 0;
    var m := 0;
    var i := 0;
    while i <= k
      invariant 0 <= i <= k + 1 <= |s| && 0 <= j == sum <= |s| - (k + 1 - i)
      invariant played == b[..j] && Printed(s, 0, |s| - 1, 0) == played + Printed(s, i, k, m)
      decreases k + 1 - i
    {
      if TakesLeft(a[i], a[k], m) {
        sum := sum + 1;
        Record(b, j, 'L');
        Onward(played, 'L', Printed(s, i + 1, k, s[i]));
        played := played + ['L'];
        j := j + 1;
        m := a[i];
      } else if TakesRight(a[i], a[k], m) {
        sum := sum + 1;
        Record(b, j, 'R');
        Onward(played, 'R', Printed(s, i, k - 1, s[k]));
        played := played + ['R'];
        j := j + 1;
        m := a[k];
        k := k - 1;
        i := i - 1;
      } else {
        break;
      }
      i := i + 1;
    }
    PrintedVerdict(s);
  }
}
