/** A high-priority steal that runs without foreign steps in between is the atomic operation, whatever
    the ids (`src/concurrent_execution.rs`). */
module StealAlone {
  import opened Prelude
  import opened TaskQueues
  import opened StealInterleavings
  import opened StealOutcomes
  import opened WorkStealingScheduler

  predicate IsPosition(qs: Queues, pos: Option<(nat, nat)>) {
    pos.Some? ==> pos.value.0 < |qs| && pos.value.1 < |qs[pos.value.0]|
  }

  function TaskAt(qs: Queues, pos: Option<(nat, nat)>): Option<Task>
    requires IsPosition(qs, pos)
  {
    if pos.Some? then Some(qs[pos.value.0][pos.value.1]) else None
  }

  /** The better one of the best task so far and a further one. */
  function Better(best: Option<Task>, task: Task): Option<Task> {
    if task.priority >= HIGH_PRIORITY && (best.None? || task.priority > best.value.priority) then Some(task) else best
  }

  lemma ScanOneMore(q: Queue, k: nat, best: Option<Task>)
    requires k < |q|
    ensures Scan(q[..k + 1], best) == Better(Scan(q[..k], best), q[k])
  {
    assert q[..k + 1][..k] == q[..k];
  }

  lemma BestOneMore(qs: Queues, thief: nat, q: nat, k: nat, pos: Option<(nat, nat)>) returns (best: Option<(nat, nat)>)
    requires q < |qs| && q != thief && k < |qs[q]| && IsPosition(qs, pos) && BestSoFar(qs, thief, q, k, pos)
    ensures IsPosition(qs, best) && BestSoFar(qs, thief, q, k + 1, best)
    ensures TaskAt(qs, best) == Better(TaskAt(qs, pos), qs[q][k])
  {
    best := if Better(TaskAt(qs, pos), qs[q][k]) == TaskAt(qs, pos) then pos else Some((q, k));
  }

  /** Scanning the first `k` tasks of queue `q` finds the best task up to there. */
  lemma {:induction false} ScanKeepsBest(qs: Queues, thief: nat, q: nat, k: nat, pos: Option<(nat, nat)>)
    returns (best: Option<(nat, nat)>)
    requires q < |qs| && q != thief && k <= |qs[q]| && IsPosition(qs, pos) && BestSoFar(qs, thief, q, 0, pos)
    ensures IsPosition(qs, best) && BestSoFar(qs, thief, q, k, best)
    ensures TaskAt(qs, best) == Scan(qs[q][..k], TaskAt(qs, pos))
    decreases k
  {
    if k == 0 {
      best := pos;
    } else {
      var before := ScanKeepsBest(qs, thief, q, k - 1, pos);
      ScanOneMore(qs[q], k - 1, TaskAt(qs, pos));
      best := BestOneMore(qs, thief, q, k - 1, before);
    }
  }

  /** The queues before `q` hold no task with the id, the thief's own queue aside. */
  ghost predicate NotBefore(qs: Queues, thief: nat, id: nat, q: nat) {
    forall j, l | 0 <= j < q && j < |qs| && j != thief && 0 <= l < |qs[j]| :: qs[j][l].id != id
  }

  /** The best task of the queues before `q`. */
  ghost predicate IsBestBefore(qs: Queues, thief: nat, q: nat, best: Option<Task>) {
    exists pos :: IsPosition(qs, pos) && BestSoFar(qs, thief, q, 0, pos) && best == TaskAt(qs, pos)
  }

  /** Where a steal stands that began with the queues `qs` and was not disturbed. */
  ghost predicate Alone(qs: Queues, thief: nat, s: State) {
    && thief < |qs| == |s.queues| && thief in s.calls
    && match s.calls[thief]
       case Scanning(q, best) =>
         && s.queues == qs && q < |qs|
         && IsBestBefore(qs, thief, q, best)
       case Searching(t, q) => s.queues == qs && q < |qs| && IsBestTask(qs, thief, t) && NotBefore(qs, thief, t.id, q)
       case Done(got) => StealHighTo(qs, thief, got, s.queues)
  }

  ghost predicate IsBestTask(qs: Queues, thief: nat, t: Task) {
    exists i: nat, k: nat :: IsBest(qs, thief, i, k) && qs[i][k] == t
  }

  /** After the last queue the scan has the best task of all, or there is none. */
  lemma ScanIsOver(qs: Queues, thief: nat, best: Option<Task>)
    requires IsBestBefore(qs, thief, |qs|, best)
    ensures best.None? ==> forall i: nat, k: nat :: !Candidate(qs, thief, i, k)
    ensures best.Some? ==> IsBestTask(qs, thief, best.value)
  {
    var pos :| IsPosition(qs, pos) && BestSoFar(qs, thief, |qs|, 0, pos) && best == TaskAt(qs, pos);
    if pos.Some? {
      assert IsBest(qs, thief, pos.value.0, pos.value.1);
    }
  }

  lemma NextQueue(qs: Queues, thief: nat, q: nat, k: nat, pos: Option<(nat, nat)>)
    requires q < |qs| && BestSoFar(qs, thief, q, k, pos) && (q == thief || k == |qs[q]|)
    ensures BestSoFar(qs, thief, q + 1, 0, pos)
  {
  }

  /** The scan of one more queue. */
  lemma ScanQueue(qs: Queues, thief: nat, q: nat, best: Option<Task>)
    requires q < |qs| && IsBestBefore(qs, thief, q, best)
    ensures IsBestBefore(qs, thief, q + 1, if q == thief then best else Scan(qs[q], best))
  {
    var pos :| IsPosition(qs, pos) && BestSoFar(qs, thief, q, 0, pos) && best == TaskAt(qs, pos);
    if q == thief {
      NextQueue(qs, thief, q, 0, pos);
    } else {
      var next := ScanKeepsBest(qs, thief, q, |qs[q]|, pos);
      assert qs[q][..|qs[q]|] == qs[q];
      NextQueue(qs, thief, q, |qs[q]|, next);
    }
  }

  lemma SeeAlone(qs: Queues, thief: nat, s: State)
    requires Alone(qs, thief, s) && Enabled(s, See(thief))
    ensures Alone(qs, thief, SeeNext(s, thief))
  {
    var Scanning(q, best) := s.calls[thief];
    ScanQueue(qs, thief, q, best);
    if q + 1 == |qs| {
      ScanIsOver(qs, thief, if q == thief then best else Scan(qs[q], best));
    }
  }

  lemma SearchAlone(qs: Queues, thief: nat, s: State)
    requires Alone(qs, thief, s) && Enabled(s, Search(thief))
    ensures Alone(qs, thief, SearchNext(s, thief))
  {
    var Searching(t, q) := s.calls[thief];
    var found := Found(s, thief);
    if found.Some? {
      FoundIsFirst(qs, thief, t, q, found.value);
    } else {
      BestIsAhead(qs, thief, t, q);
    }
  }

  lemma FoundIsFirst(qs: Queues, thief: nat, t: Task, q: nat, l: nat)
    requires IsBestTask(qs, thief, t) && NotBefore(qs, thief, t.id, q) && thief < |qs|
    requires q < |qs| && q != thief && FirstWithId(qs[q], t.id) == Some(l)
    ensures StealHighTo(qs, thief, Some(t), qs[q := Without(qs[q], l)])
  {
    var i: nat, k: nat :| IsBest(qs, thief, i, k) && qs[i][k] == t;
    assert IsFirstWithId(qs, thief, qs[i][k].id, q, l);
  }

  /** A queue without the id is not the last one to be searched. */
  lemma BestIsAhead(qs: Queues, thief: nat, t: Task, q: nat)
    requires IsBestTask(qs, thief, t) && NotBefore(qs, thief, t.id, q) && q < |qs|
    requires q == thief || FirstWithId(qs[q], t.id).None?
    ensures NotBefore(qs, thief, t.id, q + 1) && q + 1 < |qs|
  {
    var i: nat, k: nat :| IsBest(qs, thief, i, k) && qs[i][k] == t;
    assert i > q;
  }

  /** The steps from `b` to before `j` are one call of this thief and nothing else. */
  ghost predicate NothingElse(r: Run, thief: nat, b: nat, j: nat) {
    && IsLockRun(r, j) && b < j && thief < r.threads && r.steps[b] == Begin(thief)
    && forall k | b < k < j :: r.steps[k] == See(thief) || r.steps[k] == Search(thief)
  }

  lemma BeginAlone(s: State, thief: nat)
    requires thief < |s.queues|
    ensures Alone(s.queues, thief, s.(calls := s.calls[thief := Scanning(0, None)]))
  {
    var nothing: Option<(nat, nat)> := None;
    assert IsPosition(s.queues, nothing) && BestSoFar(s.queues, thief, 0, 0, nothing);
    assert IsBestBefore(s.queues, thief, 0, None);
  }

  lemma {:induction false} AloneSoFar(r: Run, thief: nat, b: nat, j: nat)
    requires NothingElse(r, thief, b, j)
    ensures Alone(r.states[b].queues, thief, r.states[j])
    decreases j
  {
    var k: nat := j - 1;
    EarlierState(r, k, j);
    if k == b {
      BeginAlone(r.states[b], thief);
    } else {
      AloneSoFar(r, thief, b, k);
      if r.steps[k] == See(thief) {
        SeeAlone(r.states[b].queues, thief, r.states[k]);
      } else {
        SearchAlone(r.states[b].queues, thief, r.states[k]);
      }
    }
  }

  /** A steal without foreign steps does what the atomic high-priority steal does. */
  lemma StealAloneIsAtomic(r: Run, thief: nat, b: nat, j: nat)
    requires NothingElse(r, thief, b, j) && IsDone(r.states[j], thief)
    ensures StealHighTo(r.states[b].queues, thief, r.states[j].calls[thief].got, r.states[j].queues)
  {
    AloneSoFar(r, thief, b, j);
  }
}
