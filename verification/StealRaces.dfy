/** Two runs in which a high-priority steal of `src/concurrent_execution.rs` comes back empty beside a
    task it may take: one against a taker, one against a move. */
module StealRaces {
  import opened Prelude
  import opened TaskQueues
  import opened StealInterleavings
  import opened StealOutcomes

  /** Thief 0 settles on `a`; the owner of queue 1 takes it before the search. */
  function RaceSteps(a: Task, b: Task): seq<Step> {
    [Put(1, a), Put(2, b), Begin(0), See(0), See(0), See(0), TakeFront(1), Search(0), Search(0), Search(0)]
  }

  /** Thief 0 settles on `a` of queue 2; after its search of queue 1 a move brings `a` there. */
  function MoveSteps(a: Task): seq<Step> {
    [Put(2, a), Begin(0), See(0), See(0), See(0), Search(0), Search(0), PopToMove(2), PushMoved(1, a), Search(0)]
  }

  /** The state with this call of thief 0. */
  function With(s: State, call: Call): State { s.(calls := map[0 := call]) }

  lemma AllTen(P: nat -> bool)
    requires P(0) && P(1) && P(2) && P(3) && P(4) && P(5) && P(6) && P(7) && P(8) && P(9)
    ensures forall i: nat | i < 10 :: P(i)
  {
  }

  lemma FirstPut(q: nat, task: Task)
    requires q < 3
    ensures var s := Start(3); Goes(s, Put(q, task), s.(queues := [[], [], []][q := [task]], submitted := [task]))
  {
    var s := Start(3);
    assert s.queues == [[], [], []] && Inserted([], task) == [task] && [] + [task] == [task];
  }

  lemma SecondPut(s: State, q: nat, task: Task)
    requires q < |s.queues| && s.queues[q] == []
    ensures Goes(s, Put(q, task), s.(queues := s.queues[q := [task]], submitted := s.submitted + [task]))
  {
    assert Inserted([], task) == [task];
  }

  lemma BeginStep(s: State)
    requires |s.queues| == 3 && s.calls == map[]
    ensures Goes(s, Begin(0), With(s, Scanning(0, None)))
    ensures Goes(With(s, Scanning(0, None)), See(0), With(s, Scanning(1, None)))
  {
  }

  lemma ScanOne(task: Task, best: Option<Task>)
    ensures Scan([task], best) ==
      if task.priority >= HIGH_PRIORITY && (best.None? || task.priority > best.value.priority) then Some(task) else best
    ensures Scan([], best) == best
  {
    assert [task][..0] == [];
  }

  lemma SeeStep(s: State, q: nat, best: Option<Task>)
    requires |s.queues| == 3 && 0 < q < 3
    ensures Goes(With(s, Scanning(q, best)), See(0), With(s, AfterScan(3, q + 1, Scan(s.queues[q], best))))
  {
  }

  lemma MissStep(s: State, task: Task, q: nat)
    requires |s.queues| == 3 && q < 3 && (q == 0 || forall l | 0 <= l < |s.queues[q]| :: s.queues[q][l].id != task.id)
    ensures Goes(With(s, Searching(task, q)), Search(0), With(s, AfterMiss(3, task, q + 1)))
  {
    var now := With(s, Searching(task, q));
    assert q == 0 || FirstWithId(s.queues[q], task.id).None?;
    assert Found(now, 0).None?;
  }

  /** Before the race: both tasks are queued. */
  function RaceStart(a: Task, b: Task): State { Start(3).(queues := [[], [a], [b]], submitted := [a, b]) }

  /** After the owner of queue 1 took its task. */
  function RaceTaken(a: Task, b: Task): State {
    RaceStart(a, b).(queues := [[], [], [b]], taken := multiset{} + multiset{a})
  }

  function RaceStates(a: Task, b: Task): (states: seq<State>)
    ensures |states| == 11
  {
    var s, u := RaceStart(a, b), RaceTaken(a, b);
    [Start(3), Start(3).(queues := [[], [a], []], submitted := [a]), s,
     With(s, Scanning(0, None)), With(s, Scanning(1, None)), With(s, Scanning(2, Some(a))), With(s, Searching(a, 0)),
     With(u, Searching(a, 0)), With(u, Searching(a, 1)), With(u, Searching(a, 2)), With(u, Done(None))]
  }

  lemma RaceBegins(a: Task, b: Task)
    ensures var x := RaceStates(a, b);
      x[0] == Start(3) && Goes(x[0], Put(1, a), x[1]) && Goes(x[1], Put(2, b), x[2])
  {
    FirstPut(1, a);
    var s1 := Start(3).(queues := [[], [a], []], submitted := [a]);
    assert [[], [], []][1 := [a]] == [[], [a], []];
    assert s1.queues[2 := [b]] == [[], [a], [b]] && [a] + [b] == [a, b];
    SecondPut(s1, 2, b);
  }

  lemma RaceScanGoes(a: Task, b: Task)
    requires a.id != b.id && a.priority > b.priority >= HIGH_PRIORITY
    ensures var x, p := RaceStates(a, b), RaceSteps(a, b); Goes(x[2], p[2], x[3]) && Goes(x[3], p[3], x[4])
  {
    BeginStep(RaceStart(a, b));
  }

  lemma RaceSees(a: Task, b: Task)
    requires a.priority > b.priority >= HIGH_PRIORITY
    ensures var x, p := RaceStates(a, b), RaceSteps(a, b); Goes(x[4], p[4], x[5])
  {
    ScanOne(a, None);
    SeeStep(RaceStart(a, b), 1, None);
  }

  lemma RaceSettles(a: Task, b: Task)
    requires a.priority > b.priority >= HIGH_PRIORITY
    ensures var x, p := RaceStates(a, b), RaceSteps(a, b); Goes(x[5], p[5], x[6])
  {
    ScanOne(b, Some(a));
    SeeStep(RaceStart(a, b), 2, Some(a));
  }

  lemma RaceTakes(a: Task, b: Task)
    requires a.id != b.id
    ensures var x, p := RaceStates(a, b), RaceSteps(a, b); Goes(x[6], p[6], x[7]) && Goes(x[7], p[7], x[8])
  {
    assert Without([a], 0) == [];
    MissStep(RaceTaken(a, b), a, 0);
  }

  lemma RaceMisses(a: Task, b: Task)
    requires a.id != b.id
    ensures var x, p := RaceStates(a, b), RaceSteps(a, b); Goes(x[8], p[8], x[9]) && Goes(x[9], p[9], x[10])
  {
    MissStep(RaceTaken(a, b), a, 1);
    MissStep(RaceTaken(a, b), a, 2);
  }

  lemma RaceIsRun(a: Task, b: Task)
    requires a.id != b.id && a.priority > b.priority >= HIGH_PRIORITY
    ensures Interleaves(RaceStates(a, b), RaceSteps(a, b), 3)
  {
    RaceBegins(a, b);
    RaceScanGoes(a, b);
    RaceSees(a, b);
    RaceSettles(a, b);
    RaceTakes(a, b);
    RaceMisses(a, b);
    var x, p := RaceStates(a, b), RaceSteps(a, b);
    var P := (i: nat) => i < 10 && Goes(x[i], p[i], x[i + 1]);
    AllTen(P);
    assert forall i | 0 <= i < 10 :: P(i);
  }

  /** The steal that begins at step 2 returns nothing, although `b`, which it may take, is in queue 2 all
      the time. */
  lemma TakerWinsTheRace(a: Task, b: Task) returns (r: Run)
    requires a.id != b.id && a.priority > b.priority >= HIGH_PRIORITY
    ensures r.steps == RaceSteps(a, b) && IsCall(r, 0, 2, 10) && r.states[10].calls[0].got == None
    ensures forall k | 2 <= k <= 10 :: |r.states[k].queues| == 3 && r.states[k].queues[2] == [b]
  {
    RaceIsRun(a, b);
    r := Run(RaceStates(a, b), RaceSteps(a, b), 3);
  }

  lemma MoveMisses(s: State, a: Task)
    requires s.queues == [[], [], [a]] && s.calls == map[]
    ensures Goes(With(s, Searching(a, 0)), Search(0), With(s, Searching(a, 1)))
    ensures Goes(With(s, Searching(a, 1)), Search(0), With(s, Searching(a, 2)))
  {
    MissStep(s, a, 0);
    MissStep(s, a, 1);
  }

  lemma MoveEnd(s: State, v: State, u: State, a: Task)
    requires s.queues == [[], [], [a]] && s.carried == multiset{}
    requires v == s.(queues := [[], [], []], carried := multiset{a}) && u == s.(queues := [[], [a], []])
    ensures Goes(With(s, Searching(a, 2)), PopToMove(2), With(v, Searching(a, 2)))
    ensures Goes(With(v, Searching(a, 2)), PushMoved(1, a), With(u, Searching(a, 2)))
    ensures Goes(With(u, Searching(a, 2)), Search(0), With(u, Done(None)))
  {
    assert Without([a], 0) == [] && [] + [a] == [a];
    assert s.queues[2 := []] == v.queues && v.queues[1 := [a]] == u.queues;
    MissStep(u, a, 2);
  }

  function MoveStart(a: Task): State { Start(3).(queues := [[], [], [a]], submitted := [a]) }

  function MoveStates(a: Task): (states: seq<State>)
    ensures |states| == 11
  {
    var s := MoveStart(a);
    var v, u := s.(queues := [[], [], []], carried := multiset{a}), s.(queues := [[], [a], []]);
    [Start(3), s, With(s, Scanning(0, None)), With(s, Scanning(1, None)), With(s, Scanning(2, None)),
     With(s, Searching(a, 0)), With(s, Searching(a, 1)), With(s, Searching(a, 2)), With(v, Searching(a, 2)),
     With(u, Searching(a, 2)), With(u, Done(None))]
  }

  lemma MoveBeginGoes(a: Task)
    ensures var x, p := MoveStates(a), MoveSteps(a); Goes(x[1], p[1], x[2]) && Goes(x[2], p[2], x[3])
  {
    BeginStep(MoveStart(a));
  }

  lemma MoveSees(a: Task)
    ensures var x, p := MoveStates(a), MoveSteps(a); Goes(x[3], p[3], x[4])
  {
    ScanOne(a, None);
    SeeStep(MoveStart(a), 1, None);
  }

  lemma MoveSettles(a: Task)
    requires a.priority >= HIGH_PRIORITY
    ensures var x, p := MoveStates(a), MoveSteps(a); Goes(x[4], p[4], x[5])
  {
    ScanOne(a, None);
    SeeStep(MoveStart(a), 2, None);
  }

  lemma MoveMissGoes(a: Task)
    requires a.priority >= HIGH_PRIORITY
    ensures var x, p := MoveStates(a), MoveSteps(a); Goes(x[5], p[5], x[6]) && Goes(x[6], p[6], x[7])
  {
    MoveMisses(MoveStart(a), a);
  }

  lemma MoveEndGoes(a: Task)
    ensures var x, p := MoveStates(a), MoveSteps(a);
      Goes(x[7], p[7], x[8]) && Goes(x[8], p[8], x[9]) && Goes(x[9], p[9], x[10])
  {
    var s := MoveStart(a);
    MoveEnd(s, s.(queues := [[], [], []], carried := multiset{a}), s.(queues := [[], [a], []]), a);
  }

  lemma MovePuts(a: Task)
    ensures var x, p := MoveStates(a), MoveSteps(a); x[0] == Start(3) && Goes(x[0], p[0], x[1])
  {
    FirstPut(2, a);
    assert [[], [], []][2 := [a]] == [[], [], [a]];
  }

  lemma MoveIsRun(a: Task)
    requires a.priority >= HIGH_PRIORITY
    ensures Interleaves(MoveStates(a), MoveSteps(a), 3)
  {
    MovePuts(a);
    MoveBeginGoes(a);
    MoveSees(a);
    MoveSettles(a);
    MoveMissGoes(a);
    MoveEndGoes(a);
    var x, p := MoveStates(a), MoveSteps(a);
    var P := (i: nat) => i < 10 && Goes(x[i], p[i], x[i + 1]);
    AllTen(P);
    assert forall i | 0 <= i < 10 :: P(i);
  }

  /** The steal that begins at step 1 returns nothing, although its task was never handed out: when it
      is over the task is in queue 1. */
  lemma MoveHidesTheTask(a: Task) returns (r: Run)
    requires a.priority >= HIGH_PRIORITY
    ensures r.steps == MoveSteps(a) && IsCall(r, 0, 1, 10) && r.states[10].calls[0].got == None
    ensures |r.states[10].queues| == 3 && r.states[10].queues[1] == [a] && r.states[10].taken == multiset{}
    ensures SettlesOn(r, 0, a, 5)
  {
    MoveIsRun(a);
    r := Run(MoveStates(a), MoveSteps(a), 3);
  }
}
