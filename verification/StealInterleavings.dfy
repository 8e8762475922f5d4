/** Scheduler calls of several threads, one queue lock at a time (`src/concurrent_execution.rs`): a
    high-priority steal scans the queues and searches them again for the task it settled on, and a
    move has a task in hand between its two locks. */
module StealInterleavings {
  import opened Prelude
  import opened TaskQueues

  /** How far a high-priority steal is: `next` is the queue it locks next, `Done` is what it returned. */
  datatype Call = Scanning(next: nat, best: Option<Task>) | Searching(task: Task, next: nat) | Done(got: Option<Task>)

  /** `calls`: the steal of each thief, running or over. `carried`: tasks popped by a move and not yet
      pushed. `submitted` and `taken` are the whole history. */
  datatype State = State(
    queues: Queues, calls: map<nat, Call>, carried: multiset<Task>, submitted: seq<Task>, taken: multiset<Task>)

  /** What is done while one queue is locked. `See` and `Search` pass over the thief's own queue. */
  datatype Step =
    | Put(q: nat, task: Task)
    | TakeFront(q: nat)
    | TakeBack(q: nat)
    | Begin(thief: nat)
    | See(thief: nat)
    | Search(thief: nat)
    | PopToMove(q: nat)
    | PushMoved(q: nat, task: Task)

  function Start(threads: nat): State { State(seq(threads, i => []), map[], multiset{}, [], multiset{}) }

  /** The scan of one queue: a task replaces the best one only if it is more urgent. */
  function Scan(q: Queue, best: Option<Task>): (r: Option<Task>)
    ensures r == best || (r.Some? && r.value in q && r.value.priority >= HIGH_PRIORITY)
    ensures r.None? <==> best.None? && forall k | 0 <= k < |q| :: q[k].priority < HIGH_PRIORITY
  {
    if q == [] then best
    else
      var r := Scan(q[..|q| - 1], best);
      var task := q[|q| - 1];
      if task.priority >= HIGH_PRIORITY && (r.None? || task.priority > r.value.priority) then Some(task) else r
  }

  /** The first task with this id. */
  function FirstWithId(q: Queue, id: nat): (k: Option<nat>)
    ensures k.Some? ==> k.value < |q| && q[k.value].id == id && forall l | 0 <= l < k.value :: q[l].id != id
    ensures k.None? ==> forall l | 0 <= l < |q| :: q[l].id != id
  {
    if q == [] then None
    else
      var k := FirstWithId(q[..|q| - 1], id);
      if k.Some? then k else if q[|q| - 1].id == id then Some(|q| - 1) else None
  }

  predicate IsScanning(s: State, thief: nat) { thief in s.calls && s.calls[thief].Scanning? }

  predicate IsSearching(s: State, thief: nat) { thief in s.calls && s.calls[thief].Searching? }

  predicate IsDone(s: State, thief: nat) { thief in s.calls && s.calls[thief].Done? }

  predicate Enabled(s: State, step: Step) {
    match step
    case Put(q, _) => q < |s.queues|
    case TakeFront(q) => q < |s.queues| && s.queues[q] != []
    case TakeBack(q) => q < |s.queues| && |s.queues[q]| > 1
    case Begin(thief) => thief < |s.queues| && (thief in s.calls ==> s.calls[thief].Done?)
    case See(thief) => IsScanning(s, thief) && s.calls[thief].next < |s.queues|
    case Search(thief) => IsSearching(s, thief) && s.calls[thief].next < |s.queues|
    case PopToMove(q) => q < |s.queues| && s.queues[q] != []
    case PushMoved(q, task) => q < |s.queues| && task in s.carried
  }

  /** Task `k` of queue `q` leaves it. */
  function Leave(s: State, q: nat, k: nat): State
    requires q < |s.queues| && k < |s.queues[q]|
  {
    s.(queues := s.queues[q := Without(s.queues[q], k)])
  }

  /** After the queues before `next` were scanned. */
  function AfterScan(threads: nat, next: nat, best: Option<Task>): Call {
    if next < threads then Scanning(next, best)
    else if best.None? then Done(None)
    else Searching(best.value, 0)
  }

  /** After the queues before `next` were searched in vain. */
  function AfterMiss(threads: nat, task: Task, next: nat): Call {
    if next < threads then Searching(task, next) else Done(None)
  }

  function SeeNext(s: State, thief: nat): State
    requires Enabled(s, See(thief))
  {
    var Scanning(q, best) := s.calls[thief];
    var better := if q == thief then best else Scan(s.queues[q], best);
    s.(calls := s.calls[thief := AfterScan(|s.queues|, q + 1, better)])
  }

  /** Where the searched queue holds the task. */
  function Found(s: State, thief: nat): Option<nat>
    requires Enabled(s, Search(thief))
  {
    var Searching(task, q) := s.calls[thief];
    if q == thief then None else FirstWithId(s.queues[q], task.id)
  }

  function SearchNext(s: State, thief: nat): State
    requires Enabled(s, Search(thief))
  {
    var Searching(task, q) := s.calls[thief];
    match Found(s, thief)
    case None => s.(calls := s.calls[thief := AfterMiss(|s.queues|, task, q + 1)])
    case Some(k) =>
      Leave(s, q, k).(calls := s.calls[thief := Done(Some(task))], taken := s.taken + multiset{task})
  }

  function Next(s: State, step: Step): State
    requires Enabled(s, step)
  {
    match step
    case Put(q, task) => s.(queues := s.queues[q := Inserted(s.queues[q], task)], submitted := s.submitted + [task])
    case TakeFront(q) => Leave(s, q, 0).(taken := s.taken + multiset{s.queues[q][0]})
    case TakeBack(q) =>
      var k := |s.queues[q]| - 1;
      Leave(s, q, k).(taken := s.taken + multiset{s.queues[q][k]})
    case Begin(thief) => s.(calls := s.calls[thief := Scanning(0, None)])
    case See(thief) => SeeNext(s, thief)
    case Search(thief) => SearchNext(s, thief)
    case PopToMove(q) =>
      var k := |s.queues[q]| - 1;
      Leave(s, q, k).(carried := s.carried + multiset{s.queues[q][k]})
    case PushMoved(q, task) =>
      s.(queues := s.queues[q := s.queues[q] + [task]], carried := s.carried - multiset{task})
  }

  predicate Goes(s: State, step: Step, t: State) { Enabled(s, step) && t == Next(s, step) }

  ghost predicate Interleaves(states: seq<State>, steps: seq<Step>, threads: nat) {
    && |states| == |steps| + 1 && states[0] == Start(threads)
    && forall i | 0 <= i < |steps| :: Goes(states[i], steps[i], states[i + 1])
  }

  // ------------------------------------------------------------------ conservation

  /** The task a call holds on to. */
  function Held(call: Call): Option<Task> {
    match call
    case Scanning(_, best) => best
    case Searching(task, _) => Some(task)
    case Done(_) => None
  }

  /** Every submitted task is in a queue, in the hand of a move, or handed out. */
  ghost predicate InOnePlace(s: State) {
    && AllTasks(s.queues) + s.carried + s.taken == multiset(s.submitted)
    && forall thief | thief in s.calls && Held(s.calls[thief]).Some? :: Held(s.calls[thief]).value in s.submitted
  }

  lemma QueuedIsSubmitted(s: State, q: nat, t: Task)
    requires InOnePlace(s) && q < |s.queues| && t in s.queues[q]
    ensures t in s.submitted
  {
    TasksToIn(s.queues, |s.queues|, t);
    assert t in multiset(s.submitted);
  }

  lemma SameId(submitted: seq<Task>, a: Task, b: Task)
    requires DistinctIds(submitted) && a in submitted && b in submitted && a.id == b.id
    ensures a == b
  {
    var i :| 0 <= i < |submitted| && submitted[i] == a;
    var j :| 0 <= j < |submitted| && submitted[j] == b;
  }

  /** A search finds the very task it looks for, and finds it exactly when it is there. */
  lemma SearchIsExact(s: State, thief: nat)
    requires InOnePlace(s) && DistinctIds(s.submitted) && Enabled(s, Search(thief))
    ensures var task, q, k := s.calls[thief].task, s.calls[thief].next, Found(s, thief);
      && (k.Some? <==> q != thief && task in s.queues[q])
      && (k.Some? ==> k.value < |s.queues[q]| && s.queues[q][k.value] == task)
  {
    var Searching(task, q) := s.calls[thief];
    assert Held(s.calls[thief]) == Some(task);
    var k := Found(s, thief);
    if k.Some? {
      QueuedIsSubmitted(s, q, s.queues[q][k.value]);
      SameId(s.submitted, s.queues[q][k.value], task);
    }
  }

  /** What leaves a queue is the same task that is handed out. */
  lemma TakingKeepsInv(s: State, q: nat, k: nat)
    requires InOnePlace(s) && q < |s.queues| && k < |s.queues[q]|
    ensures InOnePlace(Leave(s, q, k).(taken := s.taken + multiset{s.queues[q][k]}))
  {
    AllTasksWithout(s.queues, q, k);
  }

  lemma CarryingKeepsInv(s: State, q: nat, k: nat)
    requires InOnePlace(s) && q < |s.queues| && k < |s.queues[q]|
    ensures InOnePlace(Leave(s, q, k).(carried := s.carried + multiset{s.queues[q][k]}))
  {
    AllTasksWithout(s.queues, q, k);
  }

  lemma PutKeepsInv(s: State, q: nat, task: Task)
    requires InOnePlace(s) && q < |s.queues|
    ensures InOnePlace(Next(s, Put(q, task)))
  {
    AllTasksInserted(s.queues, q, task);
  }

  lemma SeeKeepsInv(s: State, thief: nat)
    requires InOnePlace(s) && Enabled(s, See(thief))
    ensures InOnePlace(Next(s, See(thief)))
  {
    var Scanning(q, best) := s.calls[thief];
    assert Held(s.calls[thief]) == best;
    forall t | t in s.queues[q] ensures t in s.submitted {
      QueuedIsSubmitted(s, q, t);
    }
  }

  lemma SearchKeepsInv(s: State, thief: nat)
    requires InOnePlace(s) && Enabled(s, Search(thief)) && DistinctIds(s.submitted)
    ensures InOnePlace(Next(s, Search(thief)))
  {
    SearchIsExact(s, thief);
    var Searching(task, q) := s.calls[thief];
    assert Held(s.calls[thief]) == Some(task);
    var k := Found(s, thief);
    if k.Some? {
      TakingKeepsInv(s, q, k.value);
    }
  }

  lemma PushMovedKeepsInv(s: State, q: nat, task: Task)
    requires InOnePlace(s) && Enabled(s, PushMoved(q, task))
    ensures InOnePlace(Next(s, PushMoved(q, task)))
  {
    var longer := s.queues[q] + [task];
    var after, before := AllTasks(s.queues[q := longer]), AllTasks(s.queues);
    AllTasksUpdate(s.queues, q, longer);
    assert multiset(longer) == multiset(s.queues[q]) + multiset{task};
    assert after + multiset(s.queues[q]) == before + multiset{task} + multiset(s.queues[q]);
    Cancel(after, before + multiset{task}, multiset(s.queues[q]));
    assert s.carried == (s.carried - multiset{task}) + multiset{task};
  }

  lemma NextKeepsInv(s: State, step: Step)
    requires InOnePlace(s) && Enabled(s, step) && DistinctIds(s.submitted)
    ensures InOnePlace(Next(s, step))
  {
    match step
    case Put(q, task) => PutKeepsInv(s, q, task);
    case TakeFront(q) => TakingKeepsInv(s, q, 0);
    case TakeBack(q) => TakingKeepsInv(s, q, |s.queues[q]| - 1);
    case Begin(_) =>
    case See(thief) => SeeKeepsInv(s, thief);
    case Search(thief) => SearchKeepsInv(s, thief);
    case PopToMove(q) => CarryingKeepsInv(s, q, |s.queues[q]| - 1);
    case PushMoved(q, task) => PushMovedKeepsInv(s, q, task);
  }

  /** What no step takes back. */
  lemma NextGrows(s: State, step: Step)
    requires Enabled(s, step)
    ensures |Next(s, step).queues| == |s.queues|
    ensures s.submitted <= Next(s, step).submitted && s.taken <= Next(s, step).taken
  {
  }

  lemma {:induction false} RunGrows(states: seq<State>, steps: seq<Step>, threads: nat, i: nat, j: nat)
    requires Interleaves(states, steps, threads) && i <= j < |states|
    ensures |states[j].queues| == threads
    ensures states[i].submitted <= states[j].submitted && states[i].taken <= states[j].taken
    decreases j
  {
    if j > 0 {
      assert Goes(states[j - 1], steps[j - 1], states[j]);
      NextGrows(states[j - 1], steps[j - 1]);
      RunGrows(states, steps, threads, if i < j then i else j - 1, j - 1);
    }
  }

  lemma FrontDistinct(front: seq<Task>, log: seq<Task>)
    requires front <= log && DistinctIds(log)
    ensures DistinctIds(front)
  {
    assert forall i | 0 <= i < |front| :: front[i] == log[i];
  }

  lemma {:induction false} RunKeepsInv(states: seq<State>, steps: seq<Step>, threads: nat, j: nat)
    requires Interleaves(states, steps, threads) && j < |states| && DistinctIds(states[j].submitted)
    ensures InOnePlace(states[j])
    decreases j
  {
    if j == 0 {
      AllTasksNone(states[0].queues);
    } else {
      assert Goes(states[j - 1], steps[j - 1], states[j]);
      RunGrows(states, steps, threads, j - 1, j);
      FrontDistinct(states[j - 1].submitted, states[j].submitted);
      RunKeepsInv(states, steps, threads, j - 1);
      NextKeepsInv(states[j - 1], steps[j - 1]);
    }
  }

  /** The invariant in an earlier state of a run with distinct ids. */
  lemma InvBefore(states: seq<State>, steps: seq<Step>, threads: nat, i: nat, j: nat)
    requires Interleaves(states, steps, threads) && i <= j < |states| && DistinctIds(states[j].submitted)
    ensures InOnePlace(states[i]) && DistinctIds(states[i].submitted)
  {
    RunGrows(states, steps, threads, i, j);
    FrontDistinct(states[i].submitted, states[j].submitted);
    RunKeepsInv(states, steps, threads, i);
  }

  /** A submitted task is in one place. */
  lemma OnePlace(s: State, t: Task)
    requires InOnePlace(s) && DistinctIds(s.submitted)
    ensures AllTasks(s.queues)[t] + s.carried[t] + s.taken[t] == multiset(s.submitted)[t] <= 1
  {
    LogCountsOnce(s.submitted, t);
    assert multiset(s.submitted)[t] == AllTasks(s.queues)[t] + s.carried[t] + s.taken[t];
  }

  /** In every interleaving of calls with distinct ids, a task is handed out at most once, and a task
      that was handed out is in no queue and in no hand any more. */
  lemma NoTaskTwice(states: seq<State>, steps: seq<Step>, threads: nat, j: nat, t: Task)
    requires Interleaves(states, steps, threads) && j < |states| && DistinctIds(states[j].submitted)
    ensures var s := states[j];
      && AllTasks(s.queues) + s.carried + s.taken == multiset(s.submitted)
      && AllTasks(s.queues)[t] + s.carried[t] + s.taken[t] <= 1
  {
    RunKeepsInv(states, steps, threads, j);
    OnePlace(states[j], t);
  }

  // ------------------------------------------------------------------ order

  predicate Moves(step: Step) { step.PopToMove? || step.PushMoved? }

  ghost predicate AllOrdered(s: State) { forall q | 0 <= q < |s.queues| :: Ordered(s.queues[q], s.submitted) }

  lemma NewTask(log: seq<Task>, task: Task)
    requires DistinctIds(log + [task])
    ensures forall i | 0 <= i < |log| :: log[i].id != task.id
  {
    forall i | 0 <= i < |log| ensures log[i].id != task.id {
      var longer := log + [task];
      assert longer[i] == log[i] && longer[|log|] == task;
    }
  }

  lemma PutKeepsOrder(s: State, q: nat, task: Task)
    requires AllOrdered(s) && q < |s.queues| && DistinctIds(s.submitted + [task])
    ensures AllOrdered(Next(s, Put(q, task)))
  {
    var t := Next(s, Put(q, task));
    NewTask(s.submitted, task);
    forall p | 0 <= p < |t.queues| ensures Ordered(t.queues[p], t.submitted) {
      if p == q {
        OrderedInsert(s.queues[q], s.submitted, task);
      } else {
        OrderedGrow(s.queues[p], s.submitted, task);
      }
    }
  }

  lemma LeaveKeepsOrder(s: State, q: nat, k: nat)
    requires AllOrdered(s) && q < |s.queues| && k < |s.queues[q]|
    ensures AllOrdered(Leave(s, q, k))
  {
    OrderedWithout(s.queues[q], s.submitted, k);
  }

  lemma NextKeepsOrder(s: State, step: Step)
    requires AllOrdered(s) && Enabled(s, step) && !Moves(step) && DistinctIds(Next(s, step).submitted)
    ensures AllOrdered(Next(s, step))
  {
    match step
    case Put(q, task) => PutKeepsOrder(s, q, task);
    case TakeFront(q) => LeaveKeepsOrder(s, q, 0);
    case TakeBack(q) => LeaveKeepsOrder(s, q, |s.queues[q]| - 1);
    case Begin(_) =>
    case See(_) =>
    case Search(thief) =>
      if Found(s, thief).Some? { LeaveKeepsOrder(s, s.calls[thief].next, Found(s, thief).value); }
  }

  /** In every interleaving without moves and with distinct ids, every queue is ordered by priority and
      by submission among equals at every moment. */
  lemma {:induction false} QueuesStayOrdered(states: seq<State>, steps: seq<Step>, threads: nat, j: nat)
    requires Interleaves(states, steps, threads) && j < |states| && DistinctIds(states[j].submitted)
    requires forall k | 0 <= k < j :: !Moves(steps[k])
    ensures AllOrdered(states[j])
    decreases j
  {
    if j > 0 {
      assert Goes(states[j - 1], steps[j - 1], states[j]);
      RunGrows(states, steps, threads, j - 1, j);
      FrontDistinct(states[j - 1].submitted, states[j].submitted);
      QueuesStayOrdered(states, steps, threads, j - 1);
      NextKeepsOrder(states[j - 1], steps[j - 1]);
    }
  }
}
