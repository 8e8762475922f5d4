/** The arithmetic of `balance_load` (`src/concurrent_execution.rs`): ranking the queues by length
    and what moving tasks between ranked pairs does to the lengths. */
module LoadBalance {
  type Loads = seq<nat>

  function Sum(l: Loads): nat { if l == [] then 0 else l[0] + Sum(l[1..]) }

  /** x * x, written without a product so that sums of squares stay linear for the solver. */
  function Square(x: nat): nat { if x == 0 then 0 else Square(x - 1) + 2 * x - 1 }

  lemma {:induction false} SquareIsProduct(x: nat)
    ensures Square(x) == x * x
  {
    if x > 0 {
      SquareIsProduct(x - 1);
      assert (x - 1) * (x - 1) == x * x - 2 * x + 1;
    }
  }

  /** The potential: the sum of the squared lengths. */
  function SumSq(l: Loads): nat { SumSqTo(l, |l|) }

  function SumSqTo(l: Loads, n: nat): nat
    requires n <= |l|
  {
    if n == 0 then 0 else SumSqTo(l, n - 1) + Square(l[n - 1])
  }

  function MaxOf(l: Loads): (m: nat)
    requires l != []
    ensures m in l && forall i | 0 <= i < |l| :: l[i] <= m
  {
    if |l| == 1 then l[0] else var r := MaxOf(l[1..]); if l[0] >= r then l[0] else r
  }

  function MinOf(l: Loads): (m: nat)
    requires l != []
    ensures m in l && forall i | 0 <= i < |l| :: m <= l[i]
  {
    if |l| == 1 then l[0] else var r := MinOf(l[1..]); if l[0] <= r then l[0] else r
  }

  lemma {:induction false} SumSqUpdate(l: Loads, i: nat, x: nat, n: nat)
    requires i < |l| && n <= |l|
    ensures SumSqTo(l[i := x], n) == SumSqTo(l, n) + if i < n then Square(x) - Square(l[i]) else 0
  {
    if n > 0 {
      SumSqUpdate(l, i, x, n - 1);
    }
  }

  // ------------------------------------------------------------------ ranking

  /** Insertion behind every entry of at least the same load. */
  function InsertBehind(r: seq<(nat, nat)>, e: (nat, nat)): (t: seq<(nat, nat)>)
    ensures |t| == |r| + 1
    ensures forall x :: x in t <==> x in r || x == e
  {
    if r == [] || r[0].1 < e.1 then [e] + r else [r[0]] + InsertBehind(r[1..], e)
  }

  /** The (queue, load) pairs, heaviest first, equal loads in queue order: a stable sort. */
  function Ranking(l: Loads): (r: seq<(nat, nat)>)
    ensures |r| == |l|
  {
    if l == [] then [] else InsertBehind(Ranking(l[..|l| - 1]), (|l| - 1, l[|l| - 1]))
  }

  ghost predicate IsRanking(r: seq<(nat, nat)>, l: Loads) {
    && |r| == |l|
    && (forall k | 0 <= k < |r| :: r[k].0 < |l| && r[k].1 == l[r[k].0])
    && (forall i | 0 <= i < |l| :: (i, l[i]) in r)
    && Descending(r)
  }

  /** Heavier queues first, and equally heavy ones in the order of their numbers. */
  ghost predicate Descending(r: seq<(nat, nat)>) {
    forall j, k | 0 <= j < k < |r| :: InOrder(r[j], r[k])
  }

  predicate InOrder(a: (nat, nat), b: (nat, nat)) {
    a.0 != b.0 && a.1 >= b.1 && (a.1 == b.1 ==> a.0 < b.0)
  }

  lemma {:induction false} InsertBehindSorted(r: seq<(nat, nat)>, e: (nat, nat))
    requires Descending(r) && forall x | x in r :: x.0 < e.0
    ensures Descending(InsertBehind(r, e))
    decreases |r|
  {
    if r == [] || r[0].1 < e.1 {
      var t := [e] + r;
      forall j, k | 0 <= j < k < |t| ensures InOrder(t[j], t[k]) {
        assert t[k] == r[k - 1] && r[k - 1] in r;
        if j > 0 { assert t[j] == r[j - 1]; }
      }
    } else {
      var rest := InsertBehind(r[1..], e);
      InsertBehindSorted(r[1..], e);
      var t := [r[0]] + rest;
      forall j, k | 0 <= j < k < |t| ensures InOrder(t[j], t[k]) {
        assert t[k] == rest[k - 1] && rest[k - 1] in rest;
        if j > 0 {
          assert t[j] == rest[j - 1];
        } else if rest[k - 1] != e {
          var i :| 0 <= i < |r| - 1 && r[1..][i] == rest[k - 1];
          assert r[i + 1] == rest[k - 1];
        } else {
          assert r[0] in r;
        }
      }
    }
  }

  lemma {:induction false} RankingRanks(l: Loads)
    ensures IsRanking(Ranking(l), l)
    decreases |l|
  {
    if l != [] {
      var front, e := l[..|l| - 1], (|l| - 1, l[|l| - 1]);
      var r := Ranking(l);
      RankingRanks(front);
      InsertBehindSorted(Ranking(front), e);
      forall k | 0 <= k < |l| ensures r[k].0 < |l| && r[k].1 == l[r[k].0] {
        assert r[k] in r;
      }
      forall i | 0 <= i < |l| ensures (i, l[i]) in r {
        if i < |front| { assert (i, front[i]) in Ranking(front); }
      }
    }
  }

  /** There is only one ranking. */
  lemma {:induction false} RankingIsUnique(r: seq<(nat, nat)>, t: seq<(nat, nat)>, l: Loads)
    requires IsRanking(r, l) && IsRanking(t, l)
    ensures r == t
  {
    SameOrder(r, t);
  }

  lemma {:induction false} SameOrder(r: seq<(nat, nat)>, t: seq<(nat, nat)>)
    requires Descending(r) && Descending(t) && forall x :: x in r <==> x in t
    ensures r == t
    decreases |r|
  {
    if r == [] {
      assert forall i | 0 <= i < |t| :: t[i] in t;
    } else {
      assert r[0] in t && t != [] && t[0] in r;
      assert r[0] == t[0];
      forall x ensures x in r[1..] <==> x in t[1..] {
        assert r[0] !in r[1..] && t[0] !in t[1..];
        assert x in r <==> x == r[0] || x in r[1..];
        assert x in t <==> x == t[0] || x in t[1..];
      }
      SameOrder(r[1..], t[1..]);
      assert r == [r[0]] + r[1..] && t == [t[0]] + t[1..];
    }
  }

  // ------------------------------------------------------------------ moving

  /** The lengths after moving `m` tasks from queue `h` to queue `g`. */
  function Moved(l: Loads, h: nat, g: nat, m: nat): Loads
    requires h < |l| && g < |l| && h != g && m <= l[h]
  {
    l[h := l[h] - m][g := l[g] + m]
  }

  /** No worse in any respect: as many queues, lengths within the old bounds, no more potential. */
  ghost predicate NoWorse(l: Loads, t: Loads)
    requires l != []
  {
    |t| == |l| && SumSq(t) <= SumSq(l) && MaxOf(t) <= MaxOf(l) && MinOf(l) <= MinOf(t)
  }

  lemma SquaresShrink(a: nat, b: nat, m: nat)
    requires 0 < m && b + 2 * m <= a
    ensures Square(a - m) + Square(b + m) < Square(a) + Square(b)
  {
    SquareIsProduct(a); SquareIsProduct(b); SquareIsProduct(a - m); SquareIsProduct(b + m);
    ProductsShrink(a, b, m);
  }

  lemma ProductsShrink(a: nat, b: nat, m: nat)
    requires 0 < m && b + 2 * m <= a
    ensures (a - m) * (a - m) + (b + m) * (b + m) < a * a + b * b
  {
    var d := a - b - m;
    assert (a - m) * (a - m) == a * a - 2 * a * m + m * m;
    assert (b + m) * (b + m) == b * b + 2 * b * m + m * m;
    assert 2 * a * m - 2 * b * m - 2 * m * m == 2 * m * d;
    assert m * d > 0;
  }

  lemma SumSqUpdateTwo(l: Loads, h: nat, g: nat, x: nat, y: nat)
    requires h < |l| && g < |l| && h != g
    ensures SumSq(l[h := x][g := y]) == SumSq(l) - Square(l[h]) - Square(l[g]) + Square(x) + Square(y)
  {
    SumSqUpdate(l, h, x, |l|);
    SumSqUpdate(l[h := x], g, y, |l|);
  }

  lemma MovePotential(l: Loads, h: nat, g: nat, m: nat)
    requires h < |l| && g < |l| && h != g && 0 < m && l[g] + 2 * m <= l[h]
    ensures SumSq(Moved(l, h, g, m)) < SumSq(l)
  {
    var a, b := l[h], l[g];
    var x, y := a - m, b + m;
    SumSqUpdateTwo(l, h, g, x, y);
    SquaresShrink(a, b, m);
  }

  lemma MoveBounds(l: Loads, h: nat, g: nat, m: nat)
    requires h < |l| && g < |l| && h != g && l[g] + m <= l[h]
    ensures MaxOf(Moved(l, h, g, m)) <= MaxOf(l) && MinOf(l) <= MinOf(Moved(l, h, g, m))
  {
    var t := Moved(l, h, g, m);
    forall z | z in t ensures MinOf(l) <= z <= MaxOf(l) {
      var i :| 0 <= i < |t| && t[i] == z;
      assert t[i] == if i == g then l[g] + m else if i == h then l[h] - m else l[i];
    }
    assert MaxOf(t) in t && MinOf(t) in t;
  }

  /** Moving at most half of the difference narrows it and lowers the potential. */
  lemma MoveImproves(l: Loads, h: nat, g: nat, m: nat)
    requires h < |l| && g < |l| && h != g && 0 < m && l[g] + 2 * m <= l[h]
    ensures NoWorse(l, Moved(l, h, g, m)) && SumSq(Moved(l, h, g, m)) < SumSq(l)
  {
    MovePotential(l, h, g, m);
    MoveBounds(l, h, g, m);
  }

  // ------------------------------------------------------------------ the decision

  function Max(a: nat, b: nat): nat { if a >= b then a else b }

  function RealMax(a: real, b: real): real { if a >= b then a else b }

  /** The sum of the squared distances from `average`. */
  function Deviations(l: Loads, average: nat): nat {
    if l == [] then 0
    else Deviations(l[..|l| - 1], average) + (l[|l| - 1] - average) * (l[|l| - 1] - average)
  }

  lemma {:induction false} SumAppend(l: Loads, x: nat)
    ensures Sum(l + [x]) == Sum(l) + x
    decreases |l|
  {
    if l == [] {
      assert ([x])[1..] == [];
    } else {
      SumAppend(l[1..], x);
      assert (l + [x])[1..] == l[1..] + [x];
    }
  }

  lemma {:induction false} SumSqPrefix(l: Loads, x: nat, n: nat)
    requires n <= |l|
    ensures SumSqTo(l + [x], n) == SumSqTo(l, n)
  {
    if n > 0 {
      SumSqPrefix(l, x, n - 1);
    }
  }

  /** The deviations, from the potential and the number of tasks: so moving tasks lowers the one
      exactly as it lowers the other. */
  lemma {:induction false} DeviationsFromPotential(l: Loads, average: nat)
    ensures Deviations(l, average) == SumSq(l) - 2 * average * Sum(l) + |l| * (average * average)
    decreases |l|
  {
    if l != [] {
      var front, x := l[..|l| - 1], l[|l| - 1];
      assert l == front + [x];
      DeviationsFromPotential(front, average);
      SumAppend(front, x);
      SumSqPrefix(front, x, |front|);
      SquareIsProduct(x);
      OneMoreDeviation(Deviations(front, average), SumSq(front), Sum(front), |front|, x, average);
    }
  }

  lemma OneMoreDeviation(d: int, q: int, s: int, n: int, x: int, a: int)
    requires d == q - 2 * a * s + n * (a * a)
    ensures d + (x - a) * (x - a) == q + x * x - 2 * a * (s + x) + (n + 1) * (a * a)
  {
    assert 2 * a * (s + x) == 2 * a * s + 2 * a * x;
    assert (n + 1) * (a * a) == n * (a * a) + a * a;
    assert (x - a) * (x - a) == x * x - 2 * a * x + a * a;
  }

  /** Whether balancing starts: the longest and the shortest queue are far apart, or the mean of the
      squared distances from the truncated average is large. */
  predicate ShouldBalance(l: Loads)
    requires l != []
  {
    var average := Sum(l) / |l|;
    || MaxOf(l) - MinOf(l) > Max(Max(average / 3, 5), average / 2)
    || Deviations(l, average) as real / |l| as real > RealMax(average as real * 0.5, 10.0)
  }

  /** The heaviest and the lightest queue stand at the two ends of the ranking. */
  lemma EndsOfRanking(r: seq<(nat, nat)>, l: Loads)
    requires IsRanking(r, l) && l != []
    ensures r[0].1 == MaxOf(l) && r[|r| - 1].1 == MinOf(l)
  {
    var i :| 0 <= i < |l| && l[i] == MaxOf(l);
    var j :| 0 <= j < |l| && l[j] == MinOf(l);
    RankingBounds(r, l, i);
    RankingBounds(r, l, j);
    assert l[r[0].0] in l && l[r[|r| - 1].0] in l;
  }

  lemma RankingBounds(r: seq<(nat, nat)>, l: Loads, i: nat)
    requires IsRanking(r, l) && i < |l|
    ensures r[|r| - 1].1 <= l[i] <= r[0].1
  {
    assert (i, l[i]) in r;
  }

  // ------------------------------------------------------------------ repetition

  /** What one call of `balance_load` promises about the lengths. */
  ghost predicate BalanceStep(l: Loads, t: Loads, moved: bool)
    requires l != []
  {
    && NoWorse(l, t)
    && (moved ==> SumSq(t) < SumSq(l))
    && (!moved ==> t == l)
  }

  /** Called again and again with nothing in between, balancing returns true at most SumSq(l)
      times, and the lengths never leave the range they started in. */
  lemma {:induction false} RepetitionEnds(history: seq<Loads>)
    requires |history| > 0 && forall i | 0 <= i < |history| :: history[i] != []
    requires forall i | 0 <= i < |history| - 1 :: BalanceStep(history[i], history[i + 1], true)
    ensures |history| - 1 <= SumSq(history[0])
    ensures var last := history[|history| - 1];
      |last| == |history[0]| && MaxOf(last) <= MaxOf(history[0]) && MinOf(history[0]) <= MinOf(last)
    decreases |history|
  {
    if |history| > 1 {
      var rest := history[1..];
      assert BalanceStep(history[0], history[1], true);
      forall i | 0 <= i < |rest| - 1 ensures BalanceStep(rest[i], rest[i + 1], true) {
        assert BalanceStep(history[i + 1], history[i + 2], true);
      }
      RepetitionEnds(rest);
    }
  }
}
