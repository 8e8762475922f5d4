/** The batch executor of `src/concurrent_execution.rs`: submits scripts to the scheduler and runs
    them round by round until each has a result. */
module BatchExecutor {
  import opened Prelude
  import opened TaskQueues
  import opened WorkStealingScheduler

  /** How one attempt to run a script ends. */
  datatype Outcome = NoRuntime | Completed(output: string) | Failed(error: string) | TimedOut

  datatype ScriptResult = ScriptResult(index: nat, ok: bool, text: string)

  function ResultFor(index: nat, outcome: Outcome): ScriptResult {
    match outcome
    case NoRuntime => ScriptResult(index, false, "Failed to get Runtime instance")
    case Completed(output) => ScriptResult(index, true, output)
    case Failed(error) => ScriptResult(index, false, error)
    case TimedOut => ScriptResult(index, false, "Execution timeout")
  }

  /** Scripts become tasks numbered by position; the priority is cut to eight bits. */
  function Batch(scripts: seq<(string, nat)>): (tasks: seq<Task>)
    ensures |tasks| == |scripts|
    ensures forall i | 0 <= i < |scripts| :: tasks[i] == Task(i, scripts[i].0, scripts[i].1 % 256)
  {
    seq(|scripts|, i requires 0 <= i < |scripts| => Task(i, scripts[i].0, scripts[i].1 % 256))
  }

  // ------------------------------------------------------------------ conservation lemmas

  /** A local get hands out one task of the own queue and touches no other. */
  lemma LocalGetTakesOne(qs: Queues, t: nat, got: Option<Task>, rs: Queues)
    requires GetLocalTo(qs, t, got, rs)
    ensures |rs| == |qs| && AllTasks(rs) + Handed(got) == AllTasks(qs)
    ensures forall i | 0 <= i < |qs| && i != t :: rs[i] == qs[i]
  {
    if t < |qs| && qs[t] != [] {
      AllTasksWithout(qs, t, 0);
      assert Without(qs[t], 0) == qs[t][1..];
    }
  }

  /** A steal hands out one task and leaves every queue it finds non-empty non-empty. */
  lemma StealTakesOne(qs: Queues, thief: nat, got: Option<Task>, rs: Queues)
    requires StealTo(qs, thief, got, rs)
    ensures |rs| == |qs| && AllTasks(rs) + Handed(got) == AllTasks(qs)
    ensures forall i | 0 <= i < |qs| && qs[i] != [] :: rs[i] != []
  {
    if thief < |qs| && !NothingToSteal(qs, thief) {
      var i: nat :| IsStealSource(qs, thief, i) &&
        got == Some(qs[i][|qs[i]| - 1]) && rs == qs[i := Without(qs[i], |qs[i]| - 1)];
      AllTasksWithout(qs, i, |qs[i]| - 1);
    }
  }

  /** The round-robin distribution of a batch. */
  function Spread(qs: Queues, tasks: seq<Task>): (rs: Queues)
    requires qs != []
    ensures |rs| == |qs|
  {
    if tasks == [] then qs
    else
      var n := |tasks| - 1;
      var before := Spread(qs, tasks[..n]);
      before[n % |qs| := Inserted(before[n % |qs|], tasks[n])]
  }

  lemma SpreadOne(qs: Queues, tasks: seq<Task>)
    requires qs != [] && tasks != []
    ensures var n := |tasks| - 1;
      AllTasks(Spread(qs, tasks)) == AllTasks(Spread(qs, tasks[..n])) + multiset{tasks[n]}
  {
    var n := |tasks| - 1;
    var thread := n % |qs|;
    AllTasksInserted(Spread(qs, tasks[..n]), thread, tasks[n]);
  }

  lemma {:induction false} SpreadTasks(qs: Queues, tasks: seq<Task>)
    requires qs != []
    ensures AllTasks(Spread(qs, tasks)) == AllTasks(qs) + multiset(tasks)
    decreases |tasks|
  {
    if tasks != [] {
      var n := |tasks| - 1;
      SpreadTasks(qs, tasks[..n]);
      SpreadOne(qs, tasks);
      LastTask(tasks);
    }
  }

  /** Task i of a batch goes to thread i modulo the number of threads, and what was queued stays. */
  lemma {:induction false} SpreadIsRoundRobin(qs: Queues, tasks: seq<Task>)
    requires qs != []
    ensures forall i | 0 <= i < |tasks| :: tasks[i] in Spread(qs, tasks)[i % |qs|]
    ensures forall t | 0 <= t < |qs| :: Keeps(qs[t], Spread(qs, tasks)[t])
    decreases |tasks|
  {
    if tasks != [] {
      var n := |tasks| - 1;
      SpreadIsRoundRobin(qs, tasks[..n]);
      SpreadKeeps(qs, tasks);
      OneMoreThread(Spread(qs, tasks[..n]), Spread(qs, tasks), tasks);
    }
  }

  lemma OneMoreThread(before: Queues, after: Queues, tasks: seq<Task>)
    requires tasks != [] && before != [] && |after| == |before|
    requires var n := |tasks| - 1;
      && (forall i | 0 <= i < n :: tasks[..n][i] in before[i % |before|])
      && tasks[n] in after[n % |before|]
    requires forall t | 0 <= t < |before| :: Keeps(before[t], after[t])
    ensures forall i | 0 <= i < |tasks| :: tasks[i] in after[i % |before|]
  {
    var n := |tasks| - 1;
    forall i | 0 <= i < n ensures tasks[i] in after[i % |before|] {
      assert tasks[..n][i] == tasks[i];
      assert Keeps(before[i % |before|], after[i % |before|]);
    }
  }

  ghost predicate Keeps(q: Queue, longer: Queue) { forall task | task in q :: task in longer }

  lemma SpreadKeeps(qs: Queues, tasks: seq<Task>)
    requires qs != [] && tasks != []
    ensures var n := |tasks| - 1;
      && tasks[n] in Spread(qs, tasks)[n % |qs|]
      && forall t | 0 <= t < |qs| :: Keeps(Spread(qs, tasks[..n])[t], Spread(qs, tasks)[t])
  {
    var n := |tasks| - 1;
    var before, thread := Spread(qs, tasks[..n]), n % |qs|;
    InsertedKeeps(before[thread], tasks[n]);
    UpdateKeeps(before, thread, Inserted(before[thread], tasks[n]));
  }

  lemma UpdateKeeps(qs: Queues, thread: nat, q: Queue)
    requires thread < |qs| && Keeps(qs[thread], q)
    ensures forall t | 0 <= t < |qs| :: Keeps(qs[t], qs[thread := q][t])
  {
  }

  lemma InsertedKeeps(q: seq<Task>, task: Task)
    ensures task in Inserted(q, task) && Keeps(q, Inserted(q, task))
  {
    InsertedTasks(q, task);
    assert forall x | x in q :: x in multiset(q);
    assert task in multiset(Inserted(q, task));
    assert forall x | x in multiset(q) :: x in multiset(Inserted(q, task));
  }

  lemma LastTask(tasks: seq<Task>)
    requires tasks != []
    ensures multiset(tasks) == multiset(tasks[..|tasks| - 1]) + multiset{tasks[|tasks| - 1]}
  {
    assert tasks == tasks[..|tasks| - 1] + [tasks[|tasks| - 1]];
  }

  function Ids(tasks: seq<Task>): (ids: seq<nat>)
    ensures |ids| == |tasks|
  {
    seq(|tasks|, i requires 0 <= i < |tasks| => tasks[i].id)
  }

  lemma IdsWithout(b: seq<Task>, k: nat)
    requires k < |b|
    ensures multiset(Ids(b)) == multiset(Ids(Without(b, k))) + multiset{b[k].id}
  {
    assert Ids(b) == Ids(b)[..k] + [b[k].id] + Ids(b)[k + 1..];
    assert Ids(Without(b, k)) == Ids(b)[..k] + Ids(b)[k + 1..];
  }

  /** Permuting tasks permutes their ids. */
  lemma {:induction false} SameTasksSameIds(a: seq<Task>, b: seq<Task>)
    requires multiset(a) == multiset(b)
    ensures multiset(Ids(a)) == multiset(Ids(b))
    decreases |a|
  {
    if a == [] {
      assert |multiset(b)| == 0;
    } else {
      assert a[0] in multiset(b);
      var k :| 0 <= k < |b| && b[k] == a[0];
      WithoutTasks(a, 0);
      WithoutTasks(b, k);
      Cancel(multiset(Without(a, 0)), multiset(Without(b, k)), multiset{a[0]});
      SameTasksSameIds(Without(a, 0), Without(b, k));
      IdsWithout(a, 0);
      IdsWithout(b, k);
    }
  }

  // ------------------------------------------------------------------ the executor

  class Executor {
    const scheduler: Scheduler
    /** The outcome of the i-th attempt, running the given code. */
    const run: (nat, string) -> Outcome

    constructor (scheduler: Scheduler, run: (nat, string) -> Outcome)
      ensures this.scheduler == scheduler && this.run == run
    {
      this.scheduler := scheduler;
      this.run := run;
    }

    method SubmitBatch(tasks: seq<Task>)
      requires scheduler.Valid() && scheduler.threadCount > 0
      modifies scheduler`queues
      ensures scheduler.Valid() && scheduler.queues == Spread(old(scheduler.queues), tasks)
    {
      for i := 0 to |tasks|
        invariant scheduler.Valid() && scheduler.queues == Spread(old(scheduler.queues), tasks[..i])
      {
        var accepted := scheduler.SubmitLocalTask(i % scheduler.threadCount, tasks[i]);
        assert tasks[..i + 1][..i] == tasks[..i];
      }
      assert tasks[..|tasks|] == tasks;
    }

    /** Result k is the outcome of attempt k, on the code of the k-th executed task. */
    ghost predicate Recorded(results: seq<ScriptResult>, ran: seq<Task>) {
      && |results| == |ran|
      && forall k | 0 <= k < |ran| :: results[k] == ResultFor(ran[k].id, run(k, ran[k].code))
    }

    /** The task a thread gets, and what that leaves in the queues. */
    method TakeTask(threadId: nat) returns (got: Option<Task>)
      requires scheduler.Valid() && threadId < scheduler.threadCount
      modifies scheduler`queues
      ensures scheduler.Valid()
      ensures AllTasks(scheduler.queues) + Handed(got) == AllTasks(old(scheduler.queues))
      ensures old(scheduler.queues)[threadId] != [] ==> got.Some?
      ensures forall i | 0 <= i < |old(scheduler.queues)| && i != threadId && old(scheduler.queues)[i] != [] ::
        scheduler.queues[i] != []
    {
      ghost var qs := scheduler.queues;
      got := scheduler.GetTask(threadId);
      if qs[threadId] != [] {
        LocalGetTakesOne(qs, threadId, got, scheduler.queues);
      } else {
        StealTakesOne(qs, threadId, got, scheduler.queues);
      }
    }

    /** Thread `threadId` takes a task, if it can get one, and runs it. */
    method ServeThread(threadId: nat, results0: seq<ScriptResult>, ghost ran0: seq<Task>)
      returns (results: seq<ScriptResult>, ghost ran: seq<Task>, served: bool, hadRuntime: bool)
      requires scheduler.Valid() && threadId < scheduler.threadCount && Recorded(results0, ran0)
      modifies scheduler`queues
      ensures scheduler.Valid() && Recorded(results, ran) && ran0 <= ran
      ensures |ran| == |ran0| + if served then 1 else 0
      ensures Conserved(old(scheduler.queues), ran0, scheduler.queues, ran)
      ensures old(scheduler.queues)[threadId] != [] ==> served
      ensures forall i | 0 <= i < |old(scheduler.queues)| && i != threadId && old(scheduler.queues)[i] != [] ::
        scheduler.queues[i] != []
    {
      results, ran, served, hadRuntime := results0, ran0, false, false;
      ghost var qs := scheduler.queues;
      var got := TakeTask(threadId);
      if got.Some? {
        var task := got.value;
        var outcome := run(|results|, task.code);
        RanOneMore(qs, scheduler.queues, task, ran);
        results, ran := results + [ResultFor(task.id, outcome)], ran + [task];
        served, hadRuntime := true, !outcome.NoRuntime?;
      }
    }

    /** One pass over the threads. Every thread whose queue has a task gets one in this pass, unless
        the pass stops early because all scripts have results. */
    method RunRound(scriptCount: nat, results0: seq<ScriptResult>, ghost ran0: seq<Task>)
      returns (results: seq<ScriptResult>, ghost ran: seq<Task>, ghost served: set<nat>, stopped: bool)
      requires scheduler.Valid() && Recorded(results0, ran0)
      modifies scheduler`queues
      ensures scheduler.Valid() && Recorded(results, ran) && ran0 <= ran
      ensures Conserved(old(scheduler.queues), ran0, scheduler.queues, ran)
      ensures stopped ==> |ran| >= scriptCount && |ran| > |ran0|
      ensures !stopped ==> forall i | 0 <= i < |old(scheduler.queues)| && old(scheduler.queues)[i] != [] :: i in served
      ensures |ran| == |ran0| + |served|
    {
      results, ran, served, stopped := results0, ran0, {}, false;
      for threadId := 0 to scheduler.threadCount
        invariant scheduler.Valid() && Recorded(results, ran) && ran0 <= ran
        invariant Conserved(old(scheduler.queues), ran0, scheduler.queues, ran)
        invariant forall i | threadId <= i < |old(scheduler.queues)| && old(scheduler.queues)[i] != [] ::
                    scheduler.queues[i] != []
        invariant forall i | 0 <= i < threadId && old(scheduler.queues)[i] != [] :: i in served
        invariant (forall i | i in served :: i < threadId) && |ran| == |ran0| + |served|
      {
        var gotOne, hadRuntime;
        results, ran, gotOne, hadRuntime := ServeThread(threadId, results, ran);
        if gotOne {
          served := served + {threadId};
          if hadRuntime && |results| >= scriptCount {
            stopped := true;
            return;
          }
        }
      }
    }

    /** Runs the batch. `ran` lists the executed tasks. Tasks that were already queued may run too,
        but nothing runs twice or disappears, and at least as many results come back as scripts
        went in. On an idle scheduler every script runs exactly once: the indices are a permutation
        of 0..n-1, result k is the outcome of attempt k on the code of its script, whatever that
        outcome is, and the queues are empty again. */
    method ExecuteBatch(scripts: seq<(string, nat)>) returns (results: seq<ScriptResult>, ghost ran: seq<Task>)
      requires scheduler.Valid() && scheduler.threadCount > 0
      modifies scheduler`queues
      ensures scheduler.Valid()
      ensures AllTasks(scheduler.queues) + multiset(ran) == AllTasks(old(scheduler.queues)) + multiset(Batch(scripts))
      ensures |results| == |ran| >= |scripts|
      ensures forall k | 0 <= k < |ran| :: results[k] == ResultFor(ran[k].id, run(k, ran[k].code))
      ensures forall k | 0 <= k < |ran| ::
        (results[k].index == ran[k].id &&
         match run(k, ran[k].code)
         case Completed(output) => results[k].ok && results[k].text == output
         case Failed(error) => !results[k].ok && results[k].text == error
         case TimedOut => !results[k].ok && results[k].text == "Execution timeout"
         case NoRuntime => !results[k].ok && results[k].text == "Failed to get Runtime instance")
      ensures AllTasks(old(scheduler.queues)) == multiset{} ==>
        && (forall i | 0 <= i < |scheduler.queues| :: scheduler.queues[i] == [])
        && multiset(Ids(ran)) == multiset(seq(|scripts|, i => i))
        && (forall k | 0 <= k < |results| :: results[k].index < |scripts| &&
              ran[k].code == scripts[results[k].index].0 &&
              (results[k].ok <==> run(k, scripts[results[k].index].0).Completed?))
    {
      ghost var before := AllTasks(scheduler.queues);
      var batch := Batch(scripts);
      SpreadTasks(scheduler.queues, batch);
      SubmitBatch(batch);
      results, ran := RunRounds(|scripts|);
      BatchIsDone(scheduler.queues, before, scripts, ran);
      if before == multiset{} {
        BatchIndices(scripts, ran);
      }
    }

    /** Rounds until there are as many results as scripts, or no task is left. */
    method RunRounds(scriptCount: nat) returns (results: seq<ScriptResult>, ghost ran: seq<Task>)
      requires scheduler.Valid()
      modifies scheduler`queues
      ensures scheduler.Valid() && Recorded(results, ran)
      ensures AllTasks(scheduler.queues) + multiset(ran) == AllTasks(old(scheduler.queues))
      ensures |ran| >= scriptCount || forall i | 0 <= i < |scheduler.queues| :: scheduler.queues[i] == []
    {
      results, ran := [], [];
      ghost var all := scheduler.queues;
      while |results| < scriptCount
        invariant scheduler.Valid() && Recorded(results, ran)
        invariant Conserved(all, [], scheduler.queues, ran)
        decreases |AllTasks(all)| - |ran|
      {
        var pending := scheduler.HasPendingTasks();
        if !pending {
          break;
        }
        ghost var qs, ran0 := scheduler.queues, ran;
        ghost var served;
        var stopped;
        results, ran, served, stopped := RunRound(scriptCount, results, ran);
        if !stopped {
          ghost var i :| 0 <= i < |qs| && qs[i] != [];
          assert i in served;
        }
        RanAtMost(all, scheduler.queues, ran);
      }
      assert AllTasks(all) + multiset([]) == AllTasks(all);
    }
  }

  lemma RanAtMost(all: Queues, rs: Queues, ran: seq<Task>)
    requires Conserved(all, [], rs, ran)
    ensures |ran| <= |AllTasks(all)|
  {
    assert |AllTasks(rs) + multiset(ran)| == |AllTasks(all) + multiset([])|;
  }

  /** Tasks move from the queues to the executed ones, none is lost or made. */
  ghost predicate Conserved(qs: Queues, ran: seq<Task>, rs: Queues, ran': seq<Task>) {
    AllTasks(rs) + multiset(ran') == AllTasks(qs) + multiset(ran)
  }

  lemma RanOneMore(qs: Queues, rs: Queues, task: Task, ran: seq<Task>)
    requires AllTasks(rs) + multiset{task} == AllTasks(qs)
    ensures Conserved(qs, ran, rs, ran + [task])
  {
    assert AllTasks(rs) + multiset(ran + [task]) == AllTasks(rs) + multiset{task} + multiset(ran);
  }

  /** What conservation means at the end: the queues are empty or enough tasks have run. */
  lemma BatchIsDone(qs: Queues, before: multiset<Task>, scripts: seq<(string, nat)>, ran: seq<Task>)
    requires AllTasks(qs) + multiset(ran) == before + multiset(Batch(scripts))
    requires |ran| >= |scripts| || forall i | 0 <= i < |qs| :: qs[i] == []
    ensures |ran| >= |scripts|
    ensures before == multiset{} ==>
      (forall i | 0 <= i < |qs| :: qs[i] == []) && multiset(ran) == multiset(Batch(scripts))
  {
    var batch := Batch(scripts);
    AllTasksNone(qs);
    assert |AllTasks(qs)| + |ran| == |before| + |batch| by {
      assert |AllTasks(qs) + multiset(ran)| == |before + multiset(batch)|;
    }
    if before == multiset{} {
      assert |AllTasks(qs)| == 0;
      assert AllTasks(qs) == multiset{};
      assert multiset{} + multiset(ran) == multiset(ran);
      assert multiset{} + multiset(batch) == multiset(batch);
    }
  }

  /** Running the tasks of a batch in any order is running each script once. */
  lemma BatchIndices(scripts: seq<(string, nat)>, ran: seq<Task>)
    requires multiset(ran) == multiset(Batch(scripts))
    ensures multiset(Ids(ran)) == multiset(seq(|scripts|, i => i))
    ensures forall k | 0 <= k < |ran| :: ran[k].id < |scripts| && ran[k].code == scripts[ran[k].id].0
  {
    SameTasksSameIds(ran, Batch(scripts));
    assert Ids(Batch(scripts)) == seq(|scripts|, i => i);
    forall k | 0 <= k < |ran| ensures ran[k].id < |scripts| && ran[k].code == scripts[ran[k].id].0 {
      assert ran[k] in multiset(ran);
      assert ran[k] in Batch(scripts);
    }
  }
}
