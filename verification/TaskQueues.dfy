/** Priority queues of tasks, one per thread (`src/concurrent_execution.rs`): what each scheduler
    operation does to them, and what every run of operations keeps. */
module TaskQueues {
  import opened Prelude

  datatype Task = Task(id: nat, code: string, priority: byte)

  type Queue = seq<Task>
  type Queues = seq<Queue>

  // ------------------------------------------------------------------ conservation

  /** All queued tasks, with multiplicity. */
  function AllTasks(qs: Queues): multiset<Task> { TasksTo(qs, |qs|) }

  function TasksTo(qs: Queues, n: nat): multiset<Task>
    requires n <= |qs|
  {
    if n == 0 then multiset{} else TasksTo(qs, n - 1) + multiset(qs[n - 1])
  }

  lemma {:induction false} TasksToUpdate(qs: Queues, i: nat, q: Queue, n: nat)
    requires i < |qs| && n <= |qs|
    ensures if i < n then TasksTo(qs[i := q], n) + multiset(qs[i]) == TasksTo(qs, n) + multiset(q)
            else TasksTo(qs[i := q], n) == TasksTo(qs, n)
    decreases n
  {
    if n > 0 {
      TasksToUpdate(qs, i, q, n - 1);
      var before, after := TasksTo(qs, n - 1), TasksTo(qs[i := q], n - 1);
      if i < n - 1 {
        var last := multiset(qs[n - 1]);
        assert after + last + multiset(qs[i]) == (after + multiset(qs[i])) + last;
        assert before + last + multiset(q) == (before + multiset(q)) + last;
      }
    }
  }

  lemma AllTasksUpdate(qs: Queues, i: nat, q: Queue)
    requires i < |qs|
    ensures AllTasks(qs[i := q]) + multiset(qs[i]) == AllTasks(qs) + multiset(q)
  {
    TasksToUpdate(qs, i, q, |qs|);
  }

  lemma {:induction false} TasksToIn(qs: Queues, n: nat, t: Task)
    requires n <= |qs|
    ensures t in TasksTo(qs, n) <==> exists i :: 0 <= i < n && t in qs[i]
    decreases n
  {
    if n > 0 {
      TasksToIn(qs, n - 1, t);
    }
  }

  lemma {:induction false} AllTasksNone(qs: Queues)
    ensures AllTasks(qs) == multiset{} <==> forall i | 0 <= i < |qs| :: qs[i] == []
  {
    if t :| t in AllTasks(qs) {
      TasksToIn(qs, |qs|, t);
    } else {
      forall i | 0 <= i < |qs| ensures qs[i] == [] {
        if qs[i] != [] {
          TasksToIn(qs, |qs|, qs[i][0]);
        }
      }
    }
  }

  lemma Cancel<T>(a: multiset<T>, b: multiset<T>, c: multiset<T>)
    requires a + c == b + c
    ensures a == b
  {
    forall x ensures a[x] == b[x] {
      assert (a + c)[x] == (b + c)[x];
    }
  }

  lemma CancelOne<T>(a: multiset<T>, x: T, y: T)
    requires a + multiset{x} == a + multiset{y}
    ensures x == y
  {
    assert multiset{x} == (a + multiset{x}) - a;
    assert multiset{y} == (a + multiset{y}) - a;
    assert x in multiset{y};
  }

  lemma WithoutTasks(q: Queue, k: nat)
    requires k < |q|
    ensures multiset(Without(q, k)) + multiset{q[k]} == multiset(q)
  {
    assert q == q[..k] + [q[k]] + q[k + 1..];
  }

  /** A queue loses its task `k`. */
  lemma AllTasksWithout(qs: Queues, i: nat, k: nat)
    requires i < |qs| && k < |qs[i]|
    ensures AllTasks(qs[i := Without(qs[i], k)]) + multiset{qs[i][k]} == AllTasks(qs)
  {
    var w := Without(qs[i], k);
    AllTasksUpdate(qs, i, w);
    WithoutTasks(qs[i], k);
    var after := AllTasks(qs[i := w]);
    assert after + multiset{qs[i][k]} + multiset(w) == after + multiset(qs[i]);
    Cancel(after + multiset{qs[i][k]}, AllTasks(qs), multiset(w));
  }

  /** A task that sits in two queues counts twice. */
  lemma InTwoQueues(qs: Queues, i: nat, k: nat, j: nat, t: Task)
    requires i < |qs| && k < |qs[i]| && qs[i][k] == t
    requires j < |qs| && j != i && t in qs[j]
    ensures AllTasks(qs)[t] >= 2
  {
    AllTasksWithout(qs, i, k);
    var rest := qs[i := Without(qs[i], k)];
    assert t in rest[j];
    TasksToIn(rest, |rest|, t);
    assert (AllTasks(rest) + multiset{t})[t] == AllTasks(rest)[t] + 1;
  }

  function Without(q: Queue, k: nat): Queue
    requires k < |q|
  {
    q[..k] + q[k + 1..]
  }

  // ------------------------------------------------------------------ submission

  /** Where a task of priority `p` goes: behind everything of at least that priority. */
  function InsertPos(q: Queue, p: byte): (k: nat)
    ensures k <= |q|
    ensures forall i | 0 <= i < k :: q[i].priority >= p
    ensures k < |q| ==> q[k].priority < p
  {
    if q == [] || q[0].priority < p then 0 else 1 + InsertPos(q[1..], p)
  }

  function Inserted(q: Queue, t: Task): Queue {
    var k := InsertPos(q, t.priority);
    q[..k] + [t] + q[k..]
  }

  lemma InsertedTasks(q: Queue, t: Task)
    ensures multiset(Inserted(q, t)) == multiset(q) + multiset{t}
  {
    var k := InsertPos(q, t.priority);
    assert q == q[..k] + q[k..];
  }

  lemma AllTasksInserted(qs: Queues, i: nat, t: Task)
    requires i < |qs|
    ensures AllTasks(qs[i := Inserted(qs[i], t)]) == AllTasks(qs) + multiset{t}
  {
    var after := AllTasks(qs[i := Inserted(qs[i], t)]);
    AllTasksUpdate(qs, i, Inserted(qs[i], t));
    InsertedTasks(qs[i], t);
    assert after + multiset(qs[i]) == AllTasks(qs) + multiset{t} + multiset(qs[i]);
    Cancel(after, AllTasks(qs) + multiset{t}, multiset(qs[i]));
  }

  // ------------------------------------------------------------------ stealing

  /** The queue a plain steal takes from: the first other one with more than one task. */
  ghost predicate IsStealSource(qs: Queues, thief: nat, i: nat) {
    && i < |qs| && i != thief && |qs[i]| > 1
    && forall j | 0 <= j < i && j != thief :: |qs[j]| <= 1
  }

  ghost predicate NothingToSteal(qs: Queues, thief: nat) {
    forall j | 0 <= j < |qs| && j != thief :: |qs[j]| <= 1
  }

  const HIGH_PRIORITY: byte := 5

  /** Queue `i`, position `k` holds a task that a high-priority steal by `thief` may take. */
  predicate Candidate(qs: Queues, thief: nat, i: nat, k: nat) {
    i < |qs| && i != thief && k < |qs[i]| && qs[i][k].priority >= HIGH_PRIORITY
  }

  /** ... and no such task is more urgent; among the equally urgent ones it is the first. */
  ghost predicate IsBest(qs: Queues, thief: nat, i: nat, k: nat) {
    && Candidate(qs, thief, i, k)
    && forall j: nat, l: nat | Candidate(qs, thief, j, l) ::
         && qs[j][l].priority <= qs[i][k].priority
         && (qs[j][l].priority == qs[i][k].priority ==> i < j || (i == j && k <= l))
  }

  /** The first task with the given id in the queues other than the thief's. */
  ghost predicate IsFirstWithId(qs: Queues, thief: nat, id: nat, i: nat, k: nat) {
    && i < |qs| && i != thief && k < |qs[i]| && qs[i][k].id == id
    && (forall l | 0 <= l < k :: qs[i][l].id != id)
    && (forall j, l | 0 <= j < i && j != thief && 0 <= l < |qs[j]| :: qs[j][l].id != id)
  }

  /** Ids identify positions. */
  ghost predicate UniqueIds(qs: Queues) {
    forall i, k, j, l | 0 <= i < |qs| && 0 <= j < |qs| && 0 <= k < |qs[i]| && 0 <= l < |qs[j]| ::
      qs[i][k].id == qs[j][l].id ==> i == j && k == l
  }

  // ------------------------------------------------------------------ runs

  /** One operation with what it returned. */
  datatype Op =
    | Submit(thread: nat, task: Task)
    | GetLocal(thread: nat, got: Option<Task>)
    | Steal(thief: nat, got: Option<Task>)
    | StealHigh(thief: nat, got: Option<Task>)

  ghost predicate SubmitTo(qs: Queues, t: nat, task: Task, rs: Queues) {
    rs == if t < |qs| then qs[t := Inserted(qs[t], task)] else qs
  }

  ghost predicate GetLocalTo(qs: Queues, t: nat, got: Option<Task>, rs: Queues) {
    if t < |qs| && qs[t] != [] then got == Some(qs[t][0]) && rs == qs[t := qs[t][1..]]
    else got == None && rs == qs
  }

  ghost predicate StealTo(qs: Queues, thief: nat, got: Option<Task>, rs: Queues) {
    if thief < |qs| && !NothingToSteal(qs, thief) then
      exists i: nat :: IsStealSource(qs, thief, i) &&
        got == Some(qs[i][|qs[i]| - 1]) && rs == qs[i := Without(qs[i], |qs[i]| - 1)]
    else got == None && rs == qs
  }

  ghost predicate StealHighTo(qs: Queues, thief: nat, got: Option<Task>, rs: Queues) {
    if thief < |qs| && exists i: nat, k: nat :: Candidate(qs, thief, i, k) then
      exists i: nat, k: nat, j: nat, l: nat :: IsBest(qs, thief, i, k) && got == Some(qs[i][k]) &&
        IsFirstWithId(qs, thief, qs[i][k].id, j, l) && rs == qs[j := Without(qs[j], l)]
    else got == None && rs == qs
  }

  ghost predicate StepTo(qs: Queues, op: Op, rs: Queues) {
    match op
    case Submit(t, task) => SubmitTo(qs, t, task, rs)
    case GetLocal(t, got) => GetLocalTo(qs, t, got, rs)
    case Steal(thief, got) => StealTo(qs, thief, got, rs)
    case StealHigh(thief, got) => StealHighTo(qs, thief, got, rs)
  }

  function Handed(got: Option<Task>): multiset<Task> { if got.Some? then multiset{got.value} else multiset{} }

  function LogNext(log: seq<Task>, op: Op, threads: nat): seq<Task> {
    if op.Submit? && op.thread < threads then log + [op.task] else log
  }

  function TakenNext(taken: multiset<Task>, op: Op): multiset<Task> {
    if !op.Submit? && op.got.Some? then taken + multiset{op.got.value} else taken
  }

  /** The accepted submissions, in order. */
  function Log(ops: seq<Op>, threads: nat): (log: seq<Task>) {
    if ops == [] then [] else LogNext(Log(ops[..|ops| - 1], threads), ops[|ops| - 1], threads)
  }

  /** The tasks handed out. */
  function Taken(ops: seq<Op>): (taken: multiset<Task>) {
    if ops == [] then multiset{} else TakenNext(Taken(ops[..|ops| - 1]), ops[|ops| - 1])
  }

  ghost predicate IsRun(states: seq<Queues>, ops: seq<Op>, threads: nat) {
    && |states| == |ops| + 1
    && states[0] == seq(threads, i => [])
    && forall i | 0 <= i < |ops| :: StepTo(states[i], ops[i], states[i + 1])
  }

  ghost predicate DistinctIds(log: seq<Task>) {
    forall i, j | 0 <= i < j < |log| :: log[i].id != log[j].id
  }

  function PosOf(log: seq<Task>, t: Task): (p: nat)
    requires t in log
    ensures p < |log| && log[p] == t
  {
    if log[0] == t then 0 else 1 + PosOf(log[1..], t)
  }

  /** Most urgent first, and first submitted first among equally urgent tasks. */
  ghost predicate Ordered(q: Queue, log: seq<Task>) {
    && (forall k | 0 <= k < |q| :: q[k] in log)
    && forall k, l | 0 <= k < l < |q| ::
         q[k].priority > q[l].priority ||
         (q[k].priority == q[l].priority && PosOf(log, q[k]) < PosOf(log, q[l]))
  }

  ghost predicate Inv(qs: Queues, log: seq<Task>, taken: multiset<Task>) {
    && (forall i | 0 <= i < |qs| :: Ordered(qs[i], log))
    && AllTasks(qs) + taken == multiset(log)
  }

  lemma {:induction false} PosOfAppend(log: seq<Task>, more: seq<Task>, t: Task)
    requires t in log
    ensures t in log + more && PosOf(log + more, t) == PosOf(log, t)
    decreases |log|
  {
    if log[0] != t {
      PosOfAppend(log[1..], more, t);
      assert (log + more)[1..] == log[1..] + more;
    }
  }

  lemma {:induction false} PosOfLast(log: seq<Task>, t: Task)
    requires t !in log
    ensures PosOf(log + [t], t) == |log|
    decreases |log|
  {
    if log != [] {
      PosOfLast(log[1..], t);
      assert (log + [t])[1..] == log[1..] + [t];
    }
  }

  lemma OrderedGrow(q: Queue, log: seq<Task>, t: Task)
    requires Ordered(q, log)
    ensures Ordered(q, log + [t])
  {
    forall k | 0 <= k < |q| ensures q[k] in log && PosOf(log + [t], q[k]) == PosOf(log, q[k]) {
      PosOfAppend(log, [t], q[k]);
    }
  }

  lemma OrderedInsert(q: Queue, log: seq<Task>, t: Task)
    requires Ordered(q, log) && t !in log
    ensures Ordered(Inserted(q, t), log + [t])
  {
    OrderedGrow(q, log, t);
    PosOfLast(log, t);
    var p := InsertPos(q, t.priority);
    var r := Inserted(q, t);
    forall k | 0 <= k < |q| ensures PosOf(log + [t], q[k]) < |log| {
      PosOfAppend(log, [t], q[k]);
    }
    forall k, l | 0 <= k < l < |r|
      ensures r[k].priority > r[l].priority ||
        (r[k].priority == r[l].priority && PosOf(log + [t], r[k]) < PosOf(log + [t], r[l]))
    {
      InsertedPair(q, log, t, k, l);
    }
    assert forall k | 0 <= k < |r| :: r[k] in log + [t];
  }

  /** Two tasks of a queue after an insertion are in order. */
  lemma InsertedPair(q: Queue, log: seq<Task>, t: Task, k: nat, l: nat)
    requires Ordered(q, log + [t]) && k < l <= |q|
    requires forall i | 0 <= i < |q| :: PosOf(log + [t], q[i]) < |log| == PosOf(log + [t], t)
    ensures var r := Inserted(q, t);
      r[k].priority > r[l].priority ||
      (r[k].priority == r[l].priority && PosOf(log + [t], r[k]) < PosOf(log + [t], r[l]))
  {
    var p := InsertPos(q, t.priority);
    InsertedAt(q, t, k);
    InsertedAt(q, t, l);
    if k == p {
      BehindIsLess(q, log + [t], p, l - 1);
    }
  }

  lemma InsertedAt(q: Queue, t: Task, k: nat)
    requires k <= |q|
    ensures var p := InsertPos(q, t.priority);
      Inserted(q, t)[k] == if k < p then q[k] else if k == p then t else q[k - 1]
  {
  }

  lemma BehindIsLess(q: Queue, log: seq<Task>, p: nat, l: nat)
    requires Ordered(q, log) && p <= l < |q|
    ensures q[l].priority <= q[p].priority
  {
  }

  lemma OrderedWithout(q: Queue, log: seq<Task>, k: nat)
    requires Ordered(q, log) && k < |q|
    ensures Ordered(Without(q, k), log)
  {
    var r := Without(q, k);
    assert forall a | 0 <= a < |r| :: r[a] == if a < k then q[a] else q[a + 1];
  }

  /** Taking task `k` out of queue `i` keeps the invariant. */
  lemma TakeKeepsInv(qs: Queues, log: seq<Task>, taken: multiset<Task>, i: nat, k: nat)
    requires Inv(qs, log, taken) && i < |qs| && k < |qs[i]|
    ensures Inv(qs[i := Without(qs[i], k)], log, taken + multiset{qs[i][k]})
  {
    AllTasksWithout(qs, i, k);
    OrderedWithout(qs[i], log, k);
  }

  lemma InvUniqueIds(qs: Queues, log: seq<Task>, taken: multiset<Task>)
    requires Inv(qs, log, taken) && DistinctIds(log)
    ensures UniqueIds(qs)
  {
    forall i, k, j, l | 0 <= i < |qs| && 0 <= j < |qs| && 0 <= k < |qs[i]| && 0 <= l < |qs[j]| &&
      qs[i][k].id == qs[j][l].id
      ensures i == j && k == l
    {
      var t := qs[i][k];
      assert qs[j][l] == t by {
        assert log[PosOf(log, qs[i][k])].id == log[PosOf(log, qs[j][l])].id;
      }
      LogCountsOnce(log, t);
      assert AllTasks(qs)[t] <= (AllTasks(qs) + taken)[t];
      if i != j { InTwoQueues(qs, i, k, j, t); }
    }
  }

  lemma {:induction false} LogCountsOnce(log: seq<Task>, t: Task)
    requires DistinctIds(log)
    ensures multiset(log)[t] <= 1
    decreases |log|
  {
    if log != [] {
      LogCountsOnce(log[1..], t);
      assert log == [log[0]] + log[1..];
      assert t == log[0] ==> t !in log[1..];
    }
  }

  lemma SubmitKeepsInv(qs: Queues, t: nat, task: Task, log: seq<Task>, taken: multiset<Task>)
    requires Inv(qs, log, taken) && t < |qs| && DistinctIds(log + [task])
    ensures Inv(qs[t := Inserted(qs[t], task)], log + [task], taken)
  {
    var more, rs := log + [task], qs[t := Inserted(qs[t], task)];
    forall i | 0 <= i < |log| ensures log[i] != task {
      assert more[i] == log[i] && more[|log|] == task;
    }
    forall i | 0 <= i < |qs| ensures Ordered(rs[i], more) {
      if i == t { OrderedInsert(qs[t], log, task); } else { OrderedGrow(qs[i], log, task); }
    }
    AllTasksInserted(qs, t, task);
  }

  lemma GetLocalKeepsInv(qs: Queues, t: nat, got: Option<Task>, rs: Queues, log: seq<Task>, taken: multiset<Task>)
    requires Inv(qs, log, taken) && GetLocalTo(qs, t, got, rs)
    ensures |rs| == |qs| && Inv(rs, log, TakenNext(taken, GetLocal(t, got)))
  {
    if t < |qs| && qs[t] != [] {
      assert Without(qs[t], 0) == qs[t][1..];
      TakeKeepsInv(qs, log, taken, t, 0);
    }
  }

  lemma StealKeepsInv(qs: Queues, thief: nat, got: Option<Task>, rs: Queues, log: seq<Task>, taken: multiset<Task>)
    requires Inv(qs, log, taken) && StealTo(qs, thief, got, rs)
    ensures |rs| == |qs| && Inv(rs, log, TakenNext(taken, Steal(thief, got)))
  {
    if thief < |qs| && !NothingToSteal(qs, thief) {
      var i: nat :| IsStealSource(qs, thief, i) &&
        got == Some(qs[i][|qs[i]| - 1]) && rs == qs[i := Without(qs[i], |qs[i]| - 1)];
      TakeKeepsInv(qs, log, taken, i, |qs[i]| - 1);
    }
  }

  lemma StealHighKeepsInv(qs: Queues, thief: nat, got: Option<Task>, rs: Queues, log: seq<Task>, taken: multiset<Task>)
    requires Inv(qs, log, taken) && StealHighTo(qs, thief, got, rs) && DistinctIds(log)
    ensures |rs| == |qs| && Inv(rs, log, TakenNext(taken, StealHigh(thief, got)))
  {
    InvUniqueIds(qs, log, taken);
    HighStealTakesTheBest(qs, thief, got, rs);
    if got.Some? {
      var i, k := StolenFrom(qs, thief, got, rs);
      TakeKeepsInv(qs, log, taken, i, k);
    }
  }

  lemma StepKeepsInv(qs: Queues, op: Op, rs: Queues, log: seq<Task>, taken: multiset<Task>)
    requires Inv(qs, log, taken) && StepTo(qs, op, rs)
    requires DistinctIds(LogNext(log, op, |qs|)) && DistinctIds(log)
    ensures |rs| == |qs| && Inv(rs, LogNext(log, op, |qs|), TakenNext(taken, op))
  {
    match op
    case Submit(t, task) =>
      if t < |qs| { SubmitKeepsInv(qs, t, task, log, taken); }
    case GetLocal(t, got) => GetLocalKeepsInv(qs, t, got, rs, log, taken);
    case Steal(thief, got) => StealKeepsInv(qs, thief, got, rs, log, taken);
    case StealHigh(thief, got) => StealHighKeepsInv(qs, thief, got, rs, log, taken);
  }

  /** Every run of submissions, local gets, steals and high-priority steals with distinct ids: each
      queue is ordered by priority and by submission among equals, and the submitted tasks are
      exactly the queued and the handed-out ones, each once. */
  lemma {:induction false} RunKeepsInv(states: seq<Queues>, ops: seq<Op>, threads: nat)
    requires IsRun(states, ops, threads) && DistinctIds(Log(ops, threads))
    ensures |states[|ops|]| == threads
    ensures Inv(states[|ops|], Log(ops, threads), Taken(ops))
    ensures UniqueIds(states[|ops|])
    decreases |ops|
  {
    if ops == [] {
      AllTasksNone(states[0]);
    } else {
      var n := |ops| - 1;
      var front := Log(ops[..n], threads);
      assert DistinctIds(front) by {
        assert forall i | 0 <= i < |front| :: Log(ops, threads)[i] == front[i];
      }
      RunKeepsInv(states[..n + 1], ops[..n], threads);
      StepKeepsInv(states[n], ops[n], states[n + 1], front, Taken(ops[..n]));
    }
    InvUniqueIds(states[|ops|], Log(ops, threads), Taken(ops));
  }

  /** In an ordered queue the task handed to the owner is a most urgent one, and the oldest of
      those; the one a thief gets is a least urgent one, and the youngest of those. */
  lemma EndsOfAnOrderedQueue(q: Queue, log: seq<Task>, k: nat)
    requires Ordered(q, log) && k < |q|
    ensures q[k].priority <= q[0].priority
    ensures q[k].priority == q[0].priority ==> PosOf(log, q[0]) <= PosOf(log, q[k])
    ensures q[k].priority >= q[|q| - 1].priority
    ensures q[k].priority == q[|q| - 1].priority ==> PosOf(log, q[|q| - 1]) >= PosOf(log, q[k])
  {
  }

  /** Which task is best, and which is the first with an id, is determined by the queues. */
  lemma StealIsDetermined(qs: Queues, thief: nat, i: nat, k: nat, j: nat, l: nat, i': nat, k': nat, j': nat, l': nat)
    requires IsBest(qs, thief, i, k) && IsFirstWithId(qs, thief, qs[i][k].id, j, l)
    requires IsBest(qs, thief, i', k') && IsFirstWithId(qs, thief, qs[i'][k'].id, j', l')
    ensures i == i' && k == k' && j == j' && l == l'
  {
  }

  /** With distinct ids a high-priority steal takes the best task of the other queues, returns it, and
      touches nothing else; it comes back empty exactly when there is none. */
  lemma HighStealTakesTheBest(qs: Queues, thief: nat, got: Option<Task>, rs: Queues)
    requires UniqueIds(qs) && StealHighTo(qs, thief, got, rs)
    ensures got.Some? <==> thief < |qs| && exists i: nat, k: nat :: Candidate(qs, thief, i, k)
    ensures got.None? ==> rs == qs
    ensures got.Some? ==> exists i: nat, k: nat ::
      IsBest(qs, thief, i, k) && got == Some(qs[i][k]) && rs == qs[i := Without(qs[i], k)]
  {
    if got.Some? {
      var i: nat, k: nat, j: nat, l: nat :| IsBest(qs, thief, i, k) && got == Some(qs[i][k]) &&
        IsFirstWithId(qs, thief, qs[i][k].id, j, l) && rs == qs[j := Without(qs[j], l)];
      assert i == j && k == l;
    }
  }

  lemma StolenFrom(qs: Queues, thief: nat, got: Option<Task>, rs: Queues) returns (i: nat, k: nat)
    requires exists i: nat, k: nat ::
      IsBest(qs, thief, i, k) && got == Some(qs[i][k]) && rs == qs[i := Without(qs[i], k)]
    ensures i < |qs| && k < |qs[i]| && got == Some(qs[i][k]) && rs == qs[i := Without(qs[i], k)]
  {
    i, k :| IsBest(qs, thief, i, k) && got == Some(qs[i][k]) && rs == qs[i := Without(qs[i], k)];
  }

  /** The first task with the id of the best task is that task, or one equal to it. */
  ghost predicate IdLeadsToTheBest(qs: Queues, thief: nat) {
    forall i: nat, k: nat, j: nat, l: nat ::
      IsBest(qs, thief, i, k) && IsFirstWithId(qs, thief, qs[i][k].id, j, l) ==> qs[j][l] == qs[i][k]
  }

  /** In general a high-priority steal loses and duplicates nothing exactly when that is so. */
  lemma HighStealConservesIff(qs: Queues, thief: nat, got: Option<Task>, rs: Queues)
    requires thief < |qs| && StealHighTo(qs, thief, got, rs)
    ensures AllTasks(rs) + Handed(got) == AllTasks(qs) <==> IdLeadsToTheBest(qs, thief)
  {
    if exists i: nat, k: nat :: Candidate(qs, thief, i, k) {
      var i: nat, k: nat, j: nat, l: nat :| IsBest(qs, thief, i, k) && got == Some(qs[i][k]) &&
        IsFirstWithId(qs, thief, qs[i][k].id, j, l) && rs == qs[j := Without(qs[j], l)];
      RemovalConservesIff(qs, i, k, j, l);
      if qs[j][l] == qs[i][k] {
        OnlyThisSteal(qs, thief, i, k, j, l);
      }
    }
  }

  lemma OnlyThisSteal(qs: Queues, thief: nat, i: nat, k: nat, j: nat, l: nat)
    requires IsBest(qs, thief, i, k) && IsFirstWithId(qs, thief, qs[i][k].id, j, l) && qs[j][l] == qs[i][k]
    ensures IdLeadsToTheBest(qs, thief)
  {
    forall i': nat, k': nat, j': nat, l': nat |
      IsBest(qs, thief, i', k') && IsFirstWithId(qs, thief, qs[i'][k'].id, j', l')
      ensures qs[j'][l'] == qs[i'][k']
    {
      StealIsDetermined(qs, thief, i, k, j, l, i', k', j', l');
    }
  }

  lemma RemovalConservesIff(qs: Queues, i: nat, k: nat, j: nat, l: nat)
    requires i < |qs| && k < |qs[i]| && j < |qs| && l < |qs[j]|
    ensures AllTasks(qs[j := Without(qs[j], l)]) + multiset{qs[i][k]} == AllTasks(qs) <==> qs[j][l] == qs[i][k]
  {
    AllTasksWithout(qs, j, l);
    var rest := AllTasks(qs[j := Without(qs[j], l)]);
    if rest + multiset{qs[i][k]} == AllTasks(qs) {
      CancelOne(rest, qs[i][k], qs[j][l]);
    }
  }

  /** Two tasks with one id: the steal returns the urgent task and removes the other one. */
  lemma DuplicateIdsLoseATask() returns (qs: Queues, got: Option<Task>, rs: Queues)
    ensures StealHighTo(qs, 0, got, rs) && AllTasks(rs) + Handed(got) != AllTasks(qs)
  {
    qs := [[], [Task(1, "a", 0)], [Task(1, "b", 9)]];
    assert forall j: nat, l: nat | Candidate(qs, 0, j, l) :: j == 2 && l == 0;
    assert IsBest(qs, 0, 2, 0) && IsFirstWithId(qs, 0, qs[2][0].id, 1, 0);
    got, rs := Some(qs[2][0]), qs[1 := Without(qs[1], 0)];
    HighStealConservesIff(qs, 0, got, rs);
  }
}
