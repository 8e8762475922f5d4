/** The work-stealing scheduler of `src/concurrent_execution.rs`: one mutable queue per thread. */
module WorkStealingScheduler {
  import opened Prelude
  import opened TaskQueues
  import opened LoadBalance

  function Lens(qs: Queues): Loads { seq(|qs|, i requires 0 <= i < |qs| => |qs[i]|) }

  function Reversed(q: Queue): Queue { seq(|q|, i requires 0 <= i < |q| => q[|q| - 1 - i]) }

  lemma {:induction false} ReversedTasks(q: Queue)
    ensures multiset(Reversed(q)) == multiset(q)
    decreases |q|
  {
    if q != [] {
      var front, last := q[..|q| - 1], q[|q| - 1];
      ReversedTasks(front);
      assert Reversed(q) == [last] + Reversed(front);
      assert q == front + [last];
    }
  }

  /** The last `m` tasks of queue `h`, youngest first, appended to queue `g`. */
  function TailMoved(qs: Queues, h: nat, g: nat, m: nat): Queues
    requires h < |qs| && g < |qs| && h != g && m <= |qs[h]|
  {
    var keep := |qs[h]| - m;
    qs[h := qs[h][..keep]][g := qs[g] + Reversed(qs[h][keep..])]
  }

  lemma TailMovedTasks(qs: Queues, h: nat, g: nat, m: nat)
    requires h < |qs| && g < |qs| && h != g && m <= |qs[h]|
    ensures AllTasks(TailMoved(qs, h, g, m)) == AllTasks(qs)
  {
    var keep := |qs[h]| - m;
    var front, tail := qs[h][..keep], qs[h][keep..];
    var mid := qs[h := front];
    AllTasksUpdate(qs, h, front);
    AllTasksUpdate(mid, g, qs[g] + Reversed(tail));
    ReversedTasks(tail);
    assert qs[h] == front + tail;
    SameSum(AllTasks(TailMoved(qs, h, g, m)), AllTasks(mid), AllTasks(qs),
            multiset(front), multiset(tail), multiset(qs[g]));
  }

  lemma SameSum<T>(t: multiset<T>, mid: multiset<T>, s: multiset<T>,
                   front: multiset<T>, tail: multiset<T>, g: multiset<T>)
    requires mid + (front + tail) == s + front
    requires t + g == mid + (g + tail)
    ensures t == s
  {
    forall x ensures t[x] == s[x] {
      assert (mid + (front + tail))[x] == (s + front)[x];
      assert (t + g)[x] == (mid + (g + tail))[x];
    }
  }

  lemma TailMovedLens(qs: Queues, h: nat, g: nat, m: nat)
    requires h < |qs| && g < |qs| && h != g && m <= |qs[h]|
    ensures Lens(TailMoved(qs, h, g, m)) == Moved(Lens(qs), h, g, m)
  {
  }

  lemma TailMovedNothing(qs: Queues, h: nat, g: nat)
    requires h < |qs| && g < |qs| && h != g
    ensures TailMoved(qs, h, g, 0) == qs
  {
    assert qs[h][..|qs[h]|] == qs[h];
    assert qs[g] + Reversed(qs[h][|qs[h]|..]) == qs[g];
  }

  lemma TailMovedOneMore(qs: Queues, h: nat, g: nat, m: nat)
    requires h < |qs| && g < |qs| && h != g && m < |qs[h]|
    ensures var t := TailMoved(qs, h, g, m); var n := |t[h]|;
      n > 0 && TailMoved(qs, h, g, m + 1) == t[h := t[h][..n - 1]][g := t[g] + [t[h][n - 1]]]
  {
    var keep := |qs[h]| - m;
    var t := TailMoved(qs, h, g, m);
    assert qs[h][keep - 1..] == [qs[h][keep - 1]] + qs[h][keep..];
    assert Reversed(qs[h][keep - 1..]) == Reversed(qs[h][keep..]) + [qs[h][keep - 1]];
    assert t[h][..keep - 1] == qs[h][..keep - 1];
    assert t[g] + [t[h][keep - 1]] == qs[g] + Reversed(qs[h][keep - 1..]);
  }

  /** Popping the last task and pushing it back changes nothing. */
  lemma PopPush(qs: Queues, h: nat)
    requires h < |qs| && qs[h] != []
    ensures var n := |qs[h]|; qs[h := qs[h][..n - 1] + [qs[h][n - 1]]] == qs
  {
    assert qs[h][..|qs[h]| - 1] + [qs[h][|qs[h]| - 1]] == qs[h];
  }

  // ------------------------------------------------------------------ the pairs that balance_load picks

  function MaxPairs(threads: nat): (n: nat)
    ensures 2 * n <= threads && (n == 0 <==> threads < 2)
  {
    Min(threads / 2, 3)
  }

  /** How many tasks one pair moves: half of the difference, at most 20. */
  function MoveCount(diff: nat): (n: nat)
    ensures 2 * n <= diff && (diff > 10 ==> n > 0)
  {
    Min(diff / 2, 20)
  }

  function PairDiff(r: seq<(nat, nat)>, i: nat): (d: int)
    requires i < |r|
  {
    r[i].1 as int - r[|r| - 1 - i].1 as int
  }

  class Scheduler {
    const threadCount: nat
    var queues: Queues

    ghost predicate Valid() reads this { |queues| == threadCount }

    constructor (threadCount: nat)
      ensures Valid() && this.threadCount == threadCount
      ensures queues == seq(threadCount, i => [])
    {
      this.threadCount := threadCount;
      queues := seq(threadCount, i => []);
    }

    /** Answers false for a thread that does not exist. */
    method SubmitLocalTask(threadId: nat, task: Task) returns (accepted: bool)
      requires Valid()
      modifies this`queues
      ensures Valid() && SubmitTo(old(queues), threadId, task, queues)
      ensures accepted == (threadId < threadCount)
    {
      if threadId >= threadCount {
        return false;
      }
      var q := queues[threadId];
      var pos := 0;
      while pos < |q| && q[pos].priority >= task.priority
        invariant pos <= |q| && forall i | 0 <= i < pos :: q[i].priority >= task.priority
      {
        pos := pos + 1;
      }
      InsertPosIs(q, task.priority, pos);
      if pos == |q| {
        assert q[..pos] + [task] + q[pos..] == q + [task];
        queues := queues[threadId := q + [task]];
      } else {
        var rebuilt := InsertAt(q, pos, task);
        queues := queues[threadId := rebuilt];
      }
      return true;
    }

    /** Builds the queue anew with the task in front of position `pos`. */
    static method InsertAt(q: Queue, pos: nat, task: Task) returns (rebuilt: Queue)
      requires pos < |q|
      ensures rebuilt == q[..pos] + [task] + q[pos..]
    {
      rebuilt := [];
      for i := 0 to |q|
        invariant rebuilt == if i <= pos then q[..i] else q[..pos] + [task] + q[pos..i]
      {
        if i == pos {
          rebuilt := rebuilt + [task];
        }
        rebuilt := rebuilt + [q[i]];
      }
      assert q[pos..|q|] == q[pos..];
    }

    method GetLocalTask(threadId: nat) returns (got: Option<Task>)
      requires Valid()
      modifies this`queues
      ensures Valid() && GetLocalTo(old(queues), threadId, got, queues)
    {
      if threadId >= threadCount || queues[threadId] == [] {
        return None;
      }
      got := Some(queues[threadId][0]);
      queues := queues[threadId := queues[threadId][1..]];
    }

    method StealTask(thief: nat) returns (got: Option<Task>)
      requires Valid()
      modifies this`queues
      ensures Valid() && StealTo(old(queues), thief, got, queues)
    {
      if thief >= threadCount {
        return None;
      }
      for attempt := 0 to threadCount
        invariant forall j | 0 <= j < attempt && j != thief :: |queues[j]| <= 1
        invariant queues == old(queues)
      {
        if attempt != thief && |queues[attempt]| > 1 {
          assert IsStealSource(queues, thief, attempt);
          var q := queues[attempt];
          got := Some(q[|q| - 1]);
          assert Without(q, |q| - 1) == q[..|q| - 1];
          queues := queues[attempt := q[..|q| - 1]];
          return;
        }
      }
      return None;
    }

    /** The own queue first, then a steal. */
    method GetTask(threadId: nat) returns (got: Option<Task>)
      requires Valid()
      modifies this`queues
      ensures Valid()
      ensures threadId < threadCount && old(queues)[threadId] != [] ==>
        GetLocalTo(old(queues), threadId, got, queues)
      ensures !(threadId < threadCount && old(queues)[threadId] != []) ==>
        StealTo(old(queues), threadId, got, queues)
    {
      got := GetLocalTask(threadId);
      if got.None? {
        got := StealTask(threadId);
      }
    }

    method HasPendingTasks() returns (pending: bool)
      requires Valid()
      ensures pending <==> exists i :: 0 <= i < |queues| && queues[i] != []
    {
      for i := 0 to threadCount
        invariant forall j | 0 <= j < i :: queues[j] == []
      {
        if queues[i] != [] {
          return true;
        }
      }
      return false;
    }

    /** Position of the best candidate: the scan keeps the first of the most urgent tasks. */
    method FindBest(thief: nat) returns (best: Option<(nat, nat)>)
      requires Valid()
      ensures best.None? ==> forall i: nat, k: nat :: !Candidate(queues, thief, i, k)
      ensures best.Some? ==> IsBest(queues, thief, best.value.0, best.value.1)
    {
      best := None;
      for i := 0 to threadCount
        invariant BestSoFar(queues, thief, i, 0, best)
      {
        if i != thief {
          var q := queues[i];
          for k := 0 to |q|
            invariant BestSoFar(queues, thief, i, k, best)
          {
            if q[k].priority >= HIGH_PRIORITY &&
               (best.None? || q[k].priority > queues[best.value.0][best.value.1].priority) {
              best := Some((i, k));
            }
          }
        }
        assert BestSoFar(queues, thief, i + 1, 0, best);
      }
    }

    method StealHighPriorityTask(thief: nat) returns (got: Option<Task>)
      requires Valid()
      modifies this`queues
      ensures Valid() && StealHighTo(old(queues), thief, got, queues)
    {
      if thief >= threadCount {
        return None;
      }
      var best := FindBest(thief);
      if best.None? {
        return None;
      }
      var (bi, bk) := best.value;
      var task := queues[bi][bk];
      for i := 0 to threadCount
        invariant queues == old(queues) && i <= bi
        invariant forall j, l | 0 <= j < i && j != thief && 0 <= l < |queues[j]| :: queues[j][l].id != task.id
      {
        if i != thief {
          var q := queues[i];
          for k := 0 to |q|
            invariant queues == old(queues) && (i == bi ==> k <= bk)
            invariant forall l | 0 <= l < k :: q[l].id != task.id
          {
            if q[k].id == task.id {
              assert IsFirstWithId(queues, thief, queues[bi][bk].id, i, k);
              assert Candidate(queues, thief, bi, bk);
              queues := queues[i := Without(q, k)];
              return Some(task);
            }
          }
        }
      }
      assert false;
    }

    /** Moves up to `max` tasks from the tail of one queue to the tail of another. */
    method MoveTasksOptimized(source: nat, target: nat, max: nat) returns (moved: nat)
      requires Valid()
      modifies this`queues
      ensures Valid()
      ensures source >= threadCount || target >= threadCount || source == target ==> queues == old(queues)
      ensures source >= threadCount || target >= threadCount ==> moved == 0
      ensures source < threadCount && target < threadCount && source != target ==>
        moved == Min(max, |old(queues)[source]|) && queues == TailMoved(old(queues), source, target, moved)
    {
      moved := 0;
      if source >= threadCount || target >= threadCount {
        return;
      }
      if source != target { TailMovedNothing(queues, source, target); }
      while moved < max
        invariant moved <= max && Valid()
        invariant source == target ==> queues == old(queues)
        invariant source != target ==>
          moved <= |old(queues)[source]| && queues == TailMoved(old(queues), source, target, moved)
      {
        var n := |queues[source]|;
        if n == 0 {
          break;
        }
        var task := queues[source][n - 1];
        if source != target { TailMovedOneMore(old(queues), source, target, moved); } else { PopPush(queues, source); }
        queues := queues[source := queues[source][..n - 1]];
        queues := queues[target := queues[target] + [task]];
        moved := moved + 1;
      }
    }

    /** One balancing call. No task is lost; lengths stay within their old bounds; the potential
        falls when something moved and nothing changes otherwise; something moves exactly when
        balancing is due and the longest queue exceeds the shortest by more than ten. Then up to three
        pairs of queues, taken from the two ends of the ranking, are balanced and no other is touched. */
    method BalanceLoad() returns (balanced: bool)
      requires Valid() && threadCount > 0
      modifies this`queues
      ensures Valid()
      ensures AllTasks(queues) == AllTasks(old(queues))
      ensures BalanceStep(Lens(old(queues)), Lens(queues), balanced)
      ensures !balanced ==> queues == old(queues)
      ensures var l := Lens(old(queues)); var average := Sum(l) / |l|; var gap := MaxOf(l) - MinOf(l);
        balanced <==>
          && gap > 10
          && (gap > average / 2
              || Deviations(l, average) as real / |l| as real > RealMax(average as real * 0.5, 10.0))
      ensures balanced ==> PairsBalanced(old(queues), queues)
    {
      var l := Lens(queues);
      if !ShouldBalance(l) {
        return false;
      }
      balanced := BalancePairs(Ranking(l));
    }

    /** Goes through the ranking from both ends. */
    method BalancePairs(r: seq<(nat, nat)>) returns (balanced: bool)
      requires Valid() && threadCount > 0 && r == Ranking(Lens(queues))
      modifies this`queues
      ensures Valid()
      ensures PairsDone(old(queues), r, MaxPairs(|r|), balanced, queues)
      ensures balanced <==> MaxOf(Lens(old(queues))) > MinOf(Lens(old(queues))) + 10
      ensures PairsBalanced(old(queues), queues)
    {
      PairsStart(queues);
      ghost var start := queues;
      var totalMoved := 0;
      var i := 0;
      while i < MaxPairs(threadCount)
        invariant i <= MaxPairs(threadCount) && Valid() && |r| == threadCount
        invariant PairsDone(start, r, i, totalMoved > 0, queues) && Settled(r, i, start, queues)
      {
        var moved := BalancePair(start, r, i, totalMoved > 0);
        totalMoved := totalMoved + moved;
        i := i + 1;
      }
      PairsEnd(start, r, totalMoved > 0, queues);
      return totalMoved > 0;
    }

    method BalancePair(ghost start: Queues, r: seq<(nat, nat)>, i: nat, ghost before: bool) returns (moved: nat)
      requires Valid() && 2 * (i + 1) <= |r|
      requires PairsDone(start, r, i, before, queues) && Settled(r, i, start, queues)
      modifies this`queues
      ensures Valid() && Settled(r, i + 1, start, queues)
      ensures moved > 0 ==> PairsDone(start, r, i + 1, true, queues)
      ensures moved == 0 ==> PairsDone(start, r, i + 1, before, queues)
    {
      var (heavy, heavyLoad) := r[i];
      var (light, lightLoad) := r[|r| - 1 - i];
      if heavyLoad > lightLoad + 10 {
        moved := MovePair(start, r, i, before, heavy, light, MoveCount(heavyLoad - lightLoad));
      } else {
        PairStays(start, r, i, before, queues);
        StaySettles(r, i, start, queues);
        moved := 0;
      }
    }

    method MovePair(ghost start: Queues, ghost r: seq<(nat, nat)>, ghost i: nat, ghost before: bool,
                    heavy: nat, light: nat, count: nat) returns (moved: nat)
      requires Valid() && 2 * (i + 1) <= |r|
      requires PairsDone(start, r, i, before, queues) && Settled(r, i, start, queues)
      requires heavy == r[i].0 && light == r[|r| - 1 - i].0
      requires PairDiff(r, i) > 10 && count == MoveCount(PairDiff(r, i))
      modifies this`queues
      ensures Valid() && moved > 0
      ensures PairsDone(start, r, i + 1, true, queues) && Settled(r, i + 1, start, queues)
    {
      PairMoves(start, r, i, before, queues, count);
      MoveSettles(r, i, start, queues);
      moved := MoveTasksOptimized(heavy, light, count);
    }
  }

  /** The state of the balancing loop after the pairs before `i`. */
  ghost predicate PairsDone(start: Queues, r: seq<(nat, nat)>, i: nat, moved: bool, now: Queues) {
    && start != [] && IsRanking(r, Lens(start)) && 2 * i <= |r|
    && AllTasks(now) == AllTasks(start)
    && BalanceStep(Lens(start), Lens(now), moved)
    && (!moved ==> now == start)
    && (moved <==> i > 0 && PairDiff(r, 0) > 10)
    && Untouched(r, i, start, now)
  }

  /** The pairs before `i` are balanced. */
  ghost predicate Settled(r: seq<(nat, nat)>, i: nat, start: Queues, now: Queues) {
    && |now| == |start| == |r| && 2 * i <= |r|
    && forall k | 0 <= k < i :: PairBalanced(r, k, start, now)
  }

  ghost predicate PairBalanced(r: seq<(nat, nat)>, k: nat, start: Queues, now: Queues) {
    k < |r| && Balanced(start, now, r[k].0, r[|r| - 1 - k].0)
  }

  /** The two queues of a pair before and after. If the heavier is longer by more than ten, its last tasks,
      half of the difference but at most twenty, have gone to the end of the lighter, last one first. */
  ghost predicate Balanced(start: Queues, now: Queues, heavy: nat, light: nat) {
    && heavy < |start| == |now| && light < |start| && heavy != light
    && var h, g := start[heavy], start[light];
       if |h| > |g| + 10 then
         var count := if (|h| - |g|) / 2 <= 20 then (|h| - |g|) / 2 else 20;
         now[heavy] == h[..|h| - count] && now[light] == g + Reversed(h[|h| - count..])
       else now[heavy] == h && now[light] == g
  }

  /** The pairs of at most three heaviest and lightest queues are balanced, all other queues unchanged. */
  ghost predicate PairsBalanced(start: Queues, now: Queues) {
    exists r :: PairsBalancedBy(r, start, now)
  }

  ghost predicate PairsBalancedBy(r: seq<(nat, nat)>, start: Queues, now: Queues) {
    && IsRanking(r, Lens(start)) && |now| == |start|
    && var pairs := if |r| / 2 <= 3 then |r| / 2 else 3;
       && (forall k | 0 <= k < pairs :: PairBalanced(r, k, start, now))
       && (forall k | pairs <= k < |r| - pairs :: now[r[k].0] == start[r[k].0])
  }

  lemma PairsStart(qs: Queues)
    requires qs != []
    ensures PairsDone(qs, Ranking(Lens(qs)), 0, false, qs)
  {
    RankingRanks(Lens(qs));
  }

  lemma PairsEnd(start: Queues, r: seq<(nat, nat)>, moved: bool, now: Queues)
    requires PairsDone(start, r, MaxPairs(|r|), moved, now) && Settled(r, MaxPairs(|r|), start, now)
    ensures moved <==> MaxOf(Lens(start)) > MinOf(Lens(start)) + 10
    ensures PairsBalanced(start, now)
  {
    EndsOfRanking(r, Lens(start));
    assert PairsBalancedBy(r, start, now);
  }

  lemma PairMoves(start: Queues, r: seq<(nat, nat)>, i: nat, moved: bool, now: Queues, count: nat)
    requires PairsDone(start, r, i, moved, now) && 2 * (i + 1) <= |r|
    requires PairDiff(r, i) > 10 && count == MoveCount(PairDiff(r, i))
    ensures var h, g := r[i].0, r[|r| - 1 - i].0;
      && h < |now| && g < |now| && h != g && count <= |now[h]|
      && PairsDone(start, r, i + 1, true, TailMoved(now, h, g, count))
  {
    var h, g := r[i].0, r[|r| - 1 - i].0;
    assert now[h] == start[h] && now[g] == start[g];
    TailMovedTasks(now, h, g, count);
    MoveBalances(Lens(start), moved, now, h, g, count);
    FirstPairIsWidest(r, Lens(start), i);
    PairTouchesOnlyItself(r, i, start, now, count);
  }

  lemma MoveSettles(r: seq<(nat, nat)>, i: nat, start: Queues, now: Queues)
    requires IsRanking(r, Lens(start)) && 2 * (i + 1) <= |r| && PairDiff(r, i) > 10
    requires Untouched(r, i, start, now) && Settled(r, i, start, now)
    ensures var h, g := r[i].0, r[|r| - 1 - i].0; var count := MoveCount(PairDiff(r, i));
      && h < |now| && g < |now| && h != g && count <= |now[h]|
      && Settled(r, i + 1, start, TailMoved(now, h, g, count))
  {
    var h, g, count := r[i].0, r[|r| - 1 - i].0, MoveCount(PairDiff(r, i));
    assert InOrder(r[i], r[|r| - 1 - i]);
    MoveBalancesPair(start, now, h, g, count);
    var t := TailMoved(now, h, g, count);
    forall k | 0 <= k < i ensures PairBalanced(r, k, start, t) {
      assert PairBalanced(r, k, start, now);
      OtherPair(r, k, i);
    }
    assert PairBalanced(r, i, start, t);
  }

  lemma MoveBalancesPair(start: Queues, now: Queues, h: nat, g: nat, count: nat)
    requires |now| == |start| && h < |now| && g < |now| && h != g && now[h] == start[h] && now[g] == start[g]
    requires |start[h]| > |start[g]| + 10 && count == MoveCount(|start[h]| - |start[g]|)
    ensures count <= |now[h]| && Balanced(start, TailMoved(now, h, g, count), h, g)
  {
  }

  lemma OtherPair(r: seq<(nat, nat)>, k: nat, i: nat)
    requires Descending(r) && k < i && 2 * (i + 1) <= |r|
    ensures r[k].0 != r[i].0 && r[k].0 != r[|r| - 1 - i].0
    ensures r[|r| - 1 - k].0 != r[i].0 && r[|r| - 1 - k].0 != r[|r| - 1 - i].0
  {
    assert InOrder(r[k], r[i]) && InOrder(r[k], r[|r| - 1 - i]);
    assert InOrder(r[i], r[|r| - 1 - k]) && InOrder(r[|r| - 1 - i], r[|r| - 1 - k]);
  }

  lemma MoveBalances(l: Loads, moved: bool, now: Queues, h: nat, g: nat, count: nat)
    requires l != [] && h < |now| && g < |now| && h != g && 0 < count && |now[g]| + 2 * count <= |now[h]|
    requires BalanceStep(l, Lens(now), moved)
    ensures BalanceStep(l, Lens(TailMoved(now, h, g, count)), true)
  {
    TailMovedLens(now, h, g, count);
    MoveImproves(Lens(now), h, g, count);
  }

  lemma PairTouchesOnlyItself(r: seq<(nat, nat)>, i: nat, start: Queues, now: Queues, count: nat)
    requires Untouched(r, i, start, now) && Descending(r) && 2 * (i + 1) <= |r|
    requires r[i].0 < |now| && r[|r| - 1 - i].0 < |now| && r[i].0 != r[|r| - 1 - i].0 && count <= |now[r[i].0]|
    ensures Untouched(r, i + 1, start, TailMoved(now, r[i].0, r[|r| - 1 - i].0, count))
  {
  }

  lemma PairStays(start: Queues, r: seq<(nat, nat)>, i: nat, moved: bool, now: Queues)
    requires PairsDone(start, r, i, moved, now) && 2 * (i + 1) <= |r| && PairDiff(r, i) <= 10
    ensures PairsDone(start, r, i + 1, moved, now)
  {
  }

  lemma StaySettles(r: seq<(nat, nat)>, i: nat, start: Queues, now: Queues)
    requires IsRanking(r, Lens(start)) && 2 * (i + 1) <= |r| && PairDiff(r, i) <= 10
    requires Untouched(r, i, start, now) && Settled(r, i, start, now)
    ensures Settled(r, i + 1, start, now)
  {
    assert InOrder(r[i], r[|r| - 1 - i]);
    assert PairBalanced(r, i, start, now);
  }

  lemma FirstPairIsWidest(r: seq<(nat, nat)>, l: Loads, i: nat)
    requires IsRanking(r, l) && 2 * (i + 1) <= |r|
    ensures PairDiff(r, i) <= PairDiff(r, 0)
  {
  }

  /** The queues of the pairs from `i` on are still as they were. */
  ghost predicate Untouched(r: seq<(nat, nat)>, i: nat, start: Queues, now: Queues) {
    && |now| == |start| == |r|
    && forall k | i <= k < |r| - i :: r[k].0 < |start| && now[r[k].0] == start[r[k].0]
  }

  lemma InsertPosIs(q: Queue, p: byte, pos: nat)
    requires pos <= |q| && (forall i | 0 <= i < pos :: q[i].priority >= p)
    requires pos < |q| ==> q[pos].priority < p
    ensures InsertPos(q, p) == pos
  {
    var k := InsertPos(q, p);
  }

  /** The best candidate among those before queue `i`, position `k`. */
  ghost predicate BestSoFar(qs: Queues, thief: nat, i: nat, k: nat, best: Option<(nat, nat)>) {
    match best
    case None => forall j: nat, l: nat | Seen(qs, i, k, j, l) :: !Candidate(qs, thief, j, l)
    case Some((bi, bk)) =>
      && Seen(qs, i, k, bi, bk) && Candidate(qs, thief, bi, bk)
      && forall j: nat, l: nat | Seen(qs, i, k, j, l) && Candidate(qs, thief, j, l) ::
           && qs[j][l].priority <= qs[bi][bk].priority
           && (qs[j][l].priority == qs[bi][bk].priority ==> bi < j || (bi == j && bk <= l))
  }

  predicate Seen(qs: Queues, i: nat, k: nat, j: nat, l: nat) {
    j < |qs| && l < |qs[j]| && (j < i || (j == i && l < k))
  }
}
