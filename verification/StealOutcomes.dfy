/** When a high-priority steal of `src/concurrent_execution.rs` comes back empty, in any interleaving
    with other calls. */
module StealOutcomes {
  import opened Prelude
  import opened TaskQueues
  import opened StealInterleavings

  /** No new steal of this thief begins at the steps from `i` to before `j`. */
  ghost predicate SameCall(steps: seq<Step>, thief: nat, i: nat, j: nat) {
    i <= j <= |steps| && forall k | i <= k < j :: steps[k] != Begin(thief)
  }

  ghost predicate Unmoved(steps: seq<Step>, i: nat, j: nat) {
    i <= j <= |steps| && forall k | i <= k < j :: !Moves(steps[k])
  }

  predicate IsOwnStep(step: Step, thief: nat) { step == Begin(thief) || step == See(thief) || step == Search(thief) }

  datatype Run = Run(states: seq<State>, steps: seq<Step>, threads: nat)

  /** A run, with distinct ids up to state `j`. */
  ghost predicate IsLockRun(r: Run, j: nat) {
    Interleaves(r.states, r.steps, r.threads) && j < |r.states| && DistinctIds(r.states[j].submitted)
  }

  lemma EarlierState(r: Run, i: nat, j: nat)
    requires IsLockRun(r, j) && i <= j
    ensures IsLockRun(r, i) && InOnePlace(r.states[i]) && |r.states[i].queues| == r.threads
    ensures i < j ==> Goes(r.states[i], r.steps[i], r.states[i + 1])
  {
    InvBefore(r.states, r.steps, r.threads, i, j);
    RunGrows(r.states, r.steps, r.threads, i, j);
    RunGrows(r.states, r.steps, r.threads, i, i);
  }

  function CallAt(r: Run, thief: nat, k: nat): Option<Call> {
    if k < |r.states| && thief in r.states[k].calls then Some(r.states[k].calls[thief]) else None
  }

  /** Steps of others do not touch the call. */
  lemma ForeignStep(r: Run, thief: nat, k: nat)
    requires IsLockRun(r, k + 1) && !IsOwnStep(r.steps[k], thief)
    ensures CallAt(r, thief, k + 1) == CallAt(r, thief, k)
  {
    EarlierState(r, k, k + 1);
  }

  lemma {:induction false} DoneStays(r: Run, thief: nat, i: nat, j: nat)
    requires IsLockRun(r, j) && SameCall(r.steps, thief, i, j)
    requires IsDone(r.states[i], thief)
    ensures CallAt(r, thief, j) == CallAt(r, thief, i)
    decreases j - i
  {
    if i < j {
      DoneStep(r, thief, i, j);
      DoneStays(r, thief, i + 1, j);
    }
  }

  lemma DoneStep(r: Run, thief: nat, i: nat, j: nat)
    requires IsLockRun(r, j) && i < j && r.steps[i] != Begin(thief) && IsDone(r.states[i], thief)
    ensures CallAt(r, thief, i + 1) == CallAt(r, thief, i)
  {
    EarlierState(r, i, j);
    EarlierState(r, i + 1, j);
    ForeignStep(r, thief, i);
  }

  // ------------------------------------------------------------------ the search

  /** At step `k` the thief searches queue `q` for `t`. */
  predicate SearchesAt(r: Run, thief: nat, t: Task, q: nat, k: nat) {
    && k < |r.steps| && r.steps[k] == Search(thief) && CallAt(r, thief, k) == Some(Searching(t, q))
    && k < |r.states| && q < |r.states[k].queues|
  }

  predicate IsMiss(r: Run, thief: nat, t: Task, q: nat, k: nat)
    requires SearchesAt(r, thief, t, q, k)
  {
    q == thief || t !in r.states[k].queues[q]
  }

  /** Each other queue is without the task at the moment the thief searches it, from `i` to before `j`. */
  ghost predicate Misses(r: Run, thief: nat, t: Task, i: nat, j: nat) {
    forall k: nat, q: nat | i <= k < j && SearchesAt(r, thief, t, q, k) :: IsMiss(r, thief, t, q, k)
  }

  ghost predicate Searched(r: Run, thief: nat, t: Task, q: nat, i: nat, j: nat) {
    exists k: nat :: i <= k < j && SearchesAt(r, thief, t, q, k)
  }

  /** The queues before `n` are all searched from `i` to before `j`. */
  ghost predicate SearchedTo(r: Run, thief: nat, t: Task, n: nat, i: nat, j: nat) {
    forall q: nat | q < n :: Searched(r, thief, t, q, i, j)
  }

  /** At `i` the scan is over and the search for `t` has not yet locked a queue. */
  predicate SettlesOn(r: Run, thief: nat, t: Task, i: nat) { CallAt(r, thief, i) == Some(Searching(t, 0)) }

  /** Where a search that began at `i` stands at `j`. */
  ghost predicate SearchState(r: Run, thief: nat, t: Task, i: nat, j: nat) {
    match CallAt(r, thief, j)
    case None => false
    case Some(Scanning(_, _)) => false
    case Some(Searching(task, q)) =>
      task == t && q < r.threads && Misses(r, thief, t, i, j) && SearchedTo(r, thief, t, q, i, j)
    case Some(Done(None)) => Misses(r, thief, t, i, j) && SearchedTo(r, thief, t, r.threads, i, j)
    case Some(Done(Some(task))) => task == t && !Misses(r, thief, t, i, j)
  }

  lemma SearchedLater(r: Run, thief: nat, t: Task, n: nat, i: nat, j: nat, later: nat)
    requires SearchedTo(r, thief, t, n, i, j) && j <= later
    ensures SearchedTo(r, thief, t, n, i, later)
  {
    forall q: nat | q < n ensures Searched(r, thief, t, q, i, later) {
      assert Searched(r, thief, t, q, i, j);
      var k: nat :| i <= k < j && SearchesAt(r, thief, t, q, k);
    }
  }

  lemma SearchedOneMore(r: Run, thief: nat, t: Task, q: nat, i: nat, j: nat)
    requires i <= j && SearchedTo(r, thief, t, q, i, j) && SearchesAt(r, thief, t, q, j)
    ensures SearchedTo(r, thief, t, q + 1, i, j + 1)
    ensures Misses(r, thief, t, i, j + 1) <==> Misses(r, thief, t, i, j) && IsMiss(r, thief, t, q, j)
  {
    SearchedLater(r, thief, t, q, i, j, j + 1);
    assert Searched(r, thief, t, q, i, j + 1);
  }

  lemma SearchStep(r: Run, thief: nat, t: Task, i: nat, j: nat)
    requires IsLockRun(r, j + 1) && i <= j && r.steps[j] == Search(thief) && SearchState(r, thief, t, i, j)
    ensures SearchState(r, thief, t, i, j + 1)
  {
    EarlierState(r, j, j + 1);
    var q := r.states[j].calls[thief].next;
    SearchIsExact(r.states[j], thief);
    SearchedOneMore(r, thief, t, q, i, j);
  }

  lemma OtherStep(r: Run, thief: nat, t: Task, i: nat, j: nat)
    requires IsLockRun(r, j + 1) && i <= j && r.steps[j] != Search(thief) && r.steps[j] != Begin(thief)
    requires SearchState(r, thief, t, i, j)
    ensures SearchState(r, thief, t, i, j + 1)
  {
    EarlierState(r, j, j + 1);
    ForeignStep(r, thief, j);
    match CallAt(r, thief, j)
    case Some(Searching(_, q)) => SearchedLater(r, thief, t, q, i, j, j + 1);
    case Some(Done(None)) => SearchedLater(r, thief, t, r.threads, i, j, j + 1);
    case _ =>
  }

  lemma {:induction false} SearchSoFar(r: Run, thief: nat, t: Task, i: nat, j: nat)
    requires IsLockRun(r, j) && SameCall(r.steps, thief, i, j) && thief < r.threads && SettlesOn(r, thief, t, i)
    ensures SearchState(r, thief, t, i, j)
    decreases j
  {
    if i < j {
      var k: nat := j - 1;
      assert k + 1 == j && r.steps[k] != Begin(thief);
      EarlierState(r, k, j);
      SearchSoFar(r, thief, t, i, k);
      if r.steps[k] == Search(thief) {
        SearchStep(r, thief, t, i, k);
      } else {
        OtherStep(r, thief, t, i, k);
      }
    }
  }

  /** With any interleaving, moves included: a steal that settled on a task returns it or nothing, and
      nothing exactly when each queue it searches is without the task at that moment. */
  lemma SettledStealFailsIff(r: Run, thief: nat, t: Task, i: nat, j: nat)
    requires IsLockRun(r, j) && SameCall(r.steps, thief, i, j) && thief < r.threads
    requires SettlesOn(r, thief, t, i) && IsDone(r.states[j], thief)
    ensures var got := r.states[j].calls[thief].got;
      && (got == None || got == Some(t))
      && (got == None <==> Misses(r, thief, t, i, j))
      && (got == None ==> SearchedTo(r, thief, t, r.threads, i, j))
  {
    SearchSoFar(r, thief, t, i, j);
  }

  // ------------------------------------------------------------------ without moves

  lemma UnmovedStep(r: Run, t: Task, k: nat)
    requires IsLockRun(r, k + 1) && !Moves(r.steps[k]) && t in r.states[k].submitted
    ensures r.states[k + 1].carried == r.states[k].carried && t in r.states[k + 1].submitted
    ensures forall p: nat | p < r.threads && |r.states[k].queues| == |r.states[k + 1].queues| == r.threads ::
      t in r.states[k + 1].queues[p] ==> t in r.states[k].queues[p]
  {
    EarlierState(r, k, k + 1);
    var s, step := r.states[k], r.steps[k];
    match step
    case Put(q, task) => NewTask(s.submitted, task);
    case _ =>
  }

  /** Where a task is, without moves: in the queue where it was seen until it is handed out. */
  lemma {:induction false} StaysUntilTaken(r: Run, t: Task, q: nat, i: nat, j: nat)
    requires IsLockRun(r, j) && Unmoved(r.steps, i, j) && q < r.threads
    requires |r.states[i].queues| == r.threads && t in r.states[i].queues[q]
    ensures |r.states[j].queues| == r.threads && t in r.states[j].submitted && r.states[j].carried[t] == 0
    ensures forall p: nat | p < r.threads && t in r.states[j].queues[p] :: p == q
    ensures t in r.states[j].queues[q] <==> t !in r.states[j].taken
    decreases j
  {
    EarlierState(r, j, j);
    if i == j {
      SeenInOneQueue(r.states[i], t, q);
    } else {
      EarlierState(r, j - 1, j);
      StaysUntilTaken(r, t, q, i, j - 1);
      UnmovedStep(r, t, j - 1);
    }
    QueuedOrTaken(r.states[j], t, q);
  }

  lemma SeenInOneQueue(s: State, t: Task, q: nat)
    requires InOnePlace(s) && DistinctIds(s.submitted) && q < |s.queues| && t in s.queues[q]
    ensures t in s.submitted && s.carried[t] == 0
    ensures forall p: nat | p < |s.queues| && t in s.queues[p] :: p == q
  {
    QueuedIsSubmitted(s, q, t);
    OnePlace(s, t);
    TasksToIn(s.queues, |s.queues|, t);
    forall p: nat | p < |s.queues| && t in s.queues[p] ensures p == q {
      if p != q {
        var k :| 0 <= k < |s.queues[p]| && s.queues[p][k] == t;
        InTwoQueues(s.queues, p, k, q, t);
      }
    }
  }

  lemma QueuedOrTaken(s: State, t: Task, q: nat)
    requires InOnePlace(s) && DistinctIds(s.submitted) && q < |s.queues|
    requires t in s.submitted && s.carried[t] == 0
    requires forall p: nat | p < |s.queues| && t in s.queues[p] :: p == q
    ensures t in s.queues[q] <==> t !in s.taken
  {
    OnePlace(s, t);
    TasksToIn(s.queues, |s.queues|, t);
    assert t in multiset(s.submitted);
  }

  /** Without moves, the search of the queue where the task was seen decides the steal. */
  lemma SearchDecides(r: Run, thief: nat, t: Task, q: nat, s: nat, i: nat, k: nat, j: nat)
    requires IsLockRun(r, j) && SameCall(r.steps, thief, i, j) && thief < r.threads && q < r.threads && q != thief
    requires SettlesOn(r, thief, t, i) && IsDone(r.states[j], thief) && i <= k < j
    requires SearchesAt(r, thief, t, q, k) && s <= k && Unmoved(r.steps, s, j)
    requires |r.states[s].queues| == r.threads && t in r.states[s].queues[q]
    ensures r.states[j].calls[thief].got == None <==> t in r.states[k].taken
  {
    SettledStealFailsIff(r, thief, t, i, j);
    EarlierState(r, k, j);
    StaysUntilTaken(r, t, q, s, k);
    if t in r.states[k].taken {
      forall m: nat, p: nat | i <= m < j && SearchesAt(r, thief, t, p, m) ensures IsMiss(r, thief, t, p, m) {
        LaterSearchMisses(r, thief, t, q, s, i, k, j, p, m);
      }
    } else {
      assert !IsMiss(r, thief, t, q, k);
    }
  }

  /** If the task was gone when its queue was searched, every search of the call misses it. */
  lemma LaterSearchMisses(r: Run, thief: nat, t: Task, q: nat, s: nat, i: nat, k: nat, j: nat, p: nat, m: nat)
    requires IsLockRun(r, j) && SameCall(r.steps, thief, i, j) && q < r.threads && i <= k < j && i <= m < j
    requires SearchesAt(r, thief, t, q, k) && SearchesAt(r, thief, t, p, m)
    requires s <= k && Unmoved(r.steps, s, j) && |r.states[s].queues| == r.threads && t in r.states[s].queues[q]
    requires t in r.states[k].taken
    ensures IsMiss(r, thief, t, p, m)
  {
    EarlierState(r, m, j);
    EarlierState(r, k, j);
    if m < k {
      if !IsMiss(r, thief, t, p, m) {
        EarlierState(r, m + 1, j);
        SearchIsExact(r.states[m], thief);
        DoneStays(r, thief, m + 1, k);
      }
    } else {
      RunGrows(r.states, r.steps, r.threads, k, m);
      StaysUntilTaken(r, t, q, s, m);
    }
  }

  // ------------------------------------------------------------------ the scan

  /** At step `k` the thief scans queue `q`. */
  predicate SeesAt(r: Run, thief: nat, q: nat, k: nat) {
    && k < |r.steps| && r.steps[k] == See(thief) && q != thief
    && k < |r.states| && q < |r.states[k].queues|
    && IsScanning(r.states[k], thief) && r.states[k].calls[thief].next == q
  }

  predicate HasHighTask(q: Queue) { exists k :: 0 <= k < |q| && q[k].priority >= HIGH_PRIORITY }

  /** No queue has a task that the steal may take at the moment it is scanned. */
  ghost predicate SawNothing(r: Run, thief: nat, b: nat, j: nat) {
    forall k: nat, q: nat | b < k < j && SeesAt(r, thief, q, k) :: !HasHighTask(r.states[k].queues[q])
  }

  /** The task is in queue `q`, and may be taken, at the moment the queue is scanned. */
  ghost predicate SawIn(r: Run, thief: nat, t: Task, q: nat, b: nat, j: nat) {
    t.priority >= HIGH_PRIORITY && exists k: nat :: b < k < j && SeesAt(r, thief, q, k) && t in r.states[k].queues[q]
  }

  ghost predicate Saw(r: Run, thief: nat, t: Task, b: nat, j: nat) { exists q: nat :: SawIn(r, thief, t, q, b, j) }

  /** The call that began at `b` has settled on `t`, which it saw before. */
  ghost predicate Settled(r: Run, thief: nat, t: Task, b: nat, j: nat) {
    exists i: nat :: b < i <= j && SettlesOn(r, thief, t, i) && Saw(r, thief, t, b, i)
  }

  ghost predicate SettledOnSome(r: Run, thief: nat, b: nat, j: nat) { exists t :: Settled(r, thief, t, b, j) }

  /** Where a steal that began at step `b` stands at `j`. */
  ghost predicate ScanState(r: Run, thief: nat, b: nat, j: nat) {
    match CallAt(r, thief, j)
    case None => false
    case Some(Scanning(q, best)) =>
      q < r.threads && if best.None? then SawNothing(r, thief, b, j) else Saw(r, thief, best.value, b, j)
    case Some(Searching(t, q)) => q < r.threads && Settled(r, thief, t, b, j)
    case Some(Done(None)) => SawNothing(r, thief, b, j) || SettledOnSome(r, thief, b, j)
    case Some(Done(Some(t))) => Settled(r, thief, t, b, j)
  }

  lemma SawLater(r: Run, thief: nat, t: Task, b: nat, j: nat, later: nat)
    requires j <= later
    ensures Saw(r, thief, t, b, j) ==> Saw(r, thief, t, b, later)
    ensures Settled(r, thief, t, b, j) ==> Settled(r, thief, t, b, later)
  {
    if Saw(r, thief, t, b, j) {
      var q: nat :| SawIn(r, thief, t, q, b, j);
      assert SawIn(r, thief, t, q, b, later);
    }
  }

  /** Having seen a task and having seen nothing exclude each other. */
  lemma SawNotNothing(r: Run, thief: nat, t: Task, b: nat, i: nat, j: nat)
    requires Saw(r, thief, t, b, i) && i <= j
    ensures !SawNothing(r, thief, b, j)
  {
    var q: nat :| SawIn(r, thief, t, q, b, i);
    var k: nat :| b < k < i && SeesAt(r, thief, q, k) && t in r.states[k].queues[q];
    assert HasHighTask(r.states[k].queues[q]);
  }

  lemma SeeStep(r: Run, thief: nat, b: nat, j: nat)
    requires IsLockRun(r, j + 1) && b < j && r.steps[j] == See(thief) && thief < r.threads && ScanState(r, thief, b, j)
    ensures ScanState(r, thief, b, j + 1)
  {
    EarlierState(r, j, j + 1);
    var Scanning(q, best) := r.states[j].calls[thief];
    if q == thief {
      SeePassesOver(r, thief, b, j);
    } else {
      assert SeesAt(r, thief, q, j);
      SeeQueue(r, thief, q, best, b, j);
    }
  }

  /** The thief's own queue is passed over. */
  lemma SeePassesOver(r: Run, thief: nat, b: nat, j: nat)
    requires IsLockRun(r, j + 1) && b < j && r.steps[j] == See(thief) && thief < r.threads && ScanState(r, thief, b, j)
    requires IsScanning(r.states[j], thief) && r.states[j].calls[thief].next == thief
    ensures ScanState(r, thief, b, j + 1)
  {
    EarlierState(r, j, j + 1);
    var best := r.states[j].calls[thief].best;
    if best.Some? {
      SawLater(r, thief, best.value, b, j, j + 1);
      SettledNow(r, thief, best.value, b, j + 1);
    }
  }

  lemma SettledNow(r: Run, thief: nat, t: Task, b: nat, j: nat)
    requires b < j && Saw(r, thief, t, b, j)
    ensures SettlesOn(r, thief, t, j) ==> Settled(r, thief, t, b, j)
  {
  }

  lemma SeeQueue(r: Run, thief: nat, q: nat, best: Option<Task>, b: nat, j: nat)
    requires IsLockRun(r, j + 1) && b < j && thief < r.threads && ScanState(r, thief, b, j)
    requires SeesAt(r, thief, q, j) && CallAt(r, thief, j) == Some(Scanning(q, best))
    ensures ScanState(r, thief, b, j + 1)
  {
    EarlierState(r, j, j + 1);
    var better := Scan(r.states[j].queues[q], best);
    if better.None? {
      SawNothingMore(r, thief, q, b, j);
    } else {
      SawBetter(r, thief, q, best, better.value, b, j);
      SettledNow(r, thief, better.value, b, j + 1);
    }
  }

  lemma SawNothingMore(r: Run, thief: nat, q: nat, b: nat, j: nat)
    requires SawNothing(r, thief, b, j) && SeesAt(r, thief, q, j) && !HasHighTask(r.states[j].queues[q])
    ensures SawNothing(r, thief, b, j + 1)
  {
  }

  lemma SawBetter(r: Run, thief: nat, q: nat, best: Option<Task>, better: Task, b: nat, j: nat)
    requires b < j && SeesAt(r, thief, q, j)
    requires best == Some(better) || (better in r.states[j].queues[q] && better.priority >= HIGH_PRIORITY)
    requires best.Some? ==> Saw(r, thief, best.value, b, j)
    ensures Saw(r, thief, better, b, j + 1)
  {
    if best == Some(better) {
      SawLater(r, thief, better, b, j, j + 1);
    } else {
      SawHere(r, thief, better, q, b, j);
    }
  }

  lemma SawHere(r: Run, thief: nat, t: Task, q: nat, b: nat, j: nat)
    requires b < j && SeesAt(r, thief, q, j) && t in r.states[j].queues[q] && t.priority >= HIGH_PRIORITY
    ensures Saw(r, thief, t, b, j + 1)
  {
    assert SawIn(r, thief, t, q, b, j + 1);
  }

  lemma SawNothingLater(r: Run, thief: nat, b: nat, j: nat)
    requires SawNothing(r, thief, b, j) && j < |r.steps| && r.steps[j] != See(thief)
    ensures SawNothing(r, thief, b, j + 1)
  {
  }

  /** Steps of others keep what the scan found out. */
  lemma ScanForeignStep(r: Run, thief: nat, b: nat, j: nat)
    requires IsLockRun(r, j + 1) && b < j && !IsOwnStep(r.steps[j], thief) && ScanState(r, thief, b, j)
    ensures ScanState(r, thief, b, j + 1)
  {
    ForeignStep(r, thief, j);
    SameScanState(r, thief, b, j);
  }

  lemma SameScanState(r: Run, thief: nat, b: nat, j: nat)
    requires j < |r.steps| && r.steps[j] != See(thief) && ScanState(r, thief, b, j)
    requires CallAt(r, thief, j + 1) == CallAt(r, thief, j)
    ensures ScanState(r, thief, b, j + 1)
  {
    match CallAt(r, thief, j)
    case Some(Scanning(_, None)) => SawNothingLater(r, thief, b, j);
    case Some(Scanning(_, Some(t))) => SawLater(r, thief, t, b, j, j + 1);
    case Some(Searching(t, _)) => SawLater(r, thief, t, b, j, j + 1);
    case Some(Done(Some(t))) => SawLater(r, thief, t, b, j, j + 1);
    case Some(Done(None)) => EmptyLater(r, thief, b, j);
  }

  lemma EmptyLater(r: Run, thief: nat, b: nat, j: nat)
    requires j < |r.steps| && r.steps[j] != See(thief)
    requires SawNothing(r, thief, b, j) || SettledOnSome(r, thief, b, j)
    ensures SawNothing(r, thief, b, j + 1) || SettledOnSome(r, thief, b, j + 1)
  {
    if SawNothing(r, thief, b, j) {
      SawNothingLater(r, thief, b, j);
    } else {
      var t :| Settled(r, thief, t, b, j);
      SawLater(r, thief, t, b, j, j + 1);
    }
  }

  /** So do the steps of the search. */
  lemma ScanSearchStep(r: Run, thief: nat, b: nat, j: nat)
    requires IsLockRun(r, j + 1) && b < j && r.steps[j] == Search(thief) && ScanState(r, thief, b, j)
    ensures ScanState(r, thief, b, j + 1)
  {
    EarlierState(r, j, j + 1);
    SawLater(r, thief, r.states[j].calls[thief].task, b, j, j + 1);
  }

  lemma {:induction false} ScanSoFar(r: Run, thief: nat, b: nat, j: nat)
    requires IsLockRun(r, j) && b < j && thief < r.threads
    requires r.steps[b] == Begin(thief) && SameCall(r.steps, thief, b + 1, j)
    ensures ScanState(r, thief, b, j)
    decreases j
  {
    var k: nat := j - 1;
    EarlierState(r, k, j);
    if k > b {
      assert r.steps[k] != Begin(thief);
      ScanSoFar(r, thief, b, k);
      if r.steps[k] == See(thief) {
        SeeStep(r, thief, b, k);
      } else if r.steps[k] == Search(thief) {
        ScanSearchStep(r, thief, b, k);
      } else {
        ScanForeignStep(r, thief, b, k);
      }
    }
  }

  /** A call that is not over can always take its next step. */
  lemma CallGoesOn(r: Run, thief: nat, b: nat, j: nat)
    requires IsLockRun(r, j) && b < j && thief < r.threads
    requires r.steps[b] == Begin(thief) && SameCall(r.steps, thief, b + 1, j)
    ensures IsDone(r.states[j], thief) || Enabled(r.states[j], See(thief)) || Enabled(r.states[j], Search(thief))
  {
    ScanSoFar(r, thief, b, j);
    EarlierState(r, j, j);
  }

  // ------------------------------------------------------------------ whole calls

  /** The call that began at step `b` has returned at `j`. */
  ghost predicate IsCall(r: Run, thief: nat, b: nat, j: nat) {
    && IsLockRun(r, j) && b < j && thief < r.threads
    && r.steps[b] == Begin(thief) && SameCall(r.steps, thief, b + 1, j) && IsDone(r.states[j], thief)
  }

  /** A call that searches for a task saw it before. */
  lemma SettledSaw(r: Run, thief: nat, t: Task, q: nat, b: nat, k: nat)
    requires IsLockRun(r, k) && b < k && thief < r.threads
    requires r.steps[b] == Begin(thief) && SameCall(r.steps, thief, b + 1, k)
    requires CallAt(r, thief, k) == Some(Searching(t, q))
    ensures Settled(r, thief, t, b, k)
  {
    ScanSoFar(r, thief, b, k);
  }

  /** The outcome of a call that settles on `t` at `i`. */
  lemma SettledCall(r: Run, thief: nat, t: Task, b: nat, i: nat, j: nat)
    requires IsCall(r, thief, b, j) && b < i < j && SettlesOn(r, thief, t, i)
    ensures var got := r.states[j].calls[thief].got;
      (got == None || got == Some(t)) && (got == None <==> Misses(r, thief, t, i, j))
    ensures Saw(r, thief, t, b, i) && !SawNothing(r, thief, b, j)
  {
    EarlierState(r, i, j);
    SettledStealFailsIff(r, thief, t, i, j);
    SettledSaw(r, thief, t, 0, b, i);
    var m: nat :| b < m <= i && SettlesOn(r, thief, t, m) && Saw(r, thief, t, b, m);
    SawLater(r, thief, t, b, m, i);
    SawNotNothing(r, thief, t, b, i, j);
  }

  /** A call that saw something settles. */
  lemma CallSettles(r: Run, thief: nat, b: nat, j: nat) returns (t: Task, i: nat)
    requires IsCall(r, thief, b, j) && (r.states[j].calls[thief].got.Some? || !SawNothing(r, thief, b, j))
    ensures b < i < j && SettlesOn(r, thief, t, i) && Saw(r, thief, t, b, i)
  {
    ScanSoFar(r, thief, b, j);
    var u :| Settled(r, thief, u, b, j);
    t := u;
    i := SettlingTime(r, thief, u, b, j);
  }

  lemma SettlingTime(r: Run, thief: nat, t: Task, b: nat, j: nat) returns (i: nat)
    requires Settled(r, thief, t, b, j)
    ensures b < i <= j && SettlesOn(r, thief, t, i) && Saw(r, thief, t, b, i)
  {
    i :| b < i <= j && SettlesOn(r, thief, t, i) && Saw(r, thief, t, b, i);
  }

  /** The call settles on a task, and no other queue has it at the moment it is searched for it. */
  ghost predicate LosesItsTask(r: Run, thief: nat, b: nat, j: nat) {
    exists t, i: nat :: b < i < j && SettlesOn(r, thief, t, i) && Misses(r, thief, t, i, j)
  }

  /** In any interleaving, moves included: a steal comes back empty exactly when it saw nothing it may
      take, or settled on a task that was in no other queue at the moment that queue was searched. */
  lemma StealFailsIff(r: Run, thief: nat, b: nat, j: nat)
    requires IsCall(r, thief, b, j)
    ensures r.states[j].calls[thief].got == None <==>
      SawNothing(r, thief, b, j) || LosesItsTask(r, thief, b, j)
  {
    if r.states[j].calls[thief].got.Some? || !SawNothing(r, thief, b, j) {
      var t, i := CallSettles(r, thief, b, j);
      SettledCall(r, thief, t, b, i, j);
      if LosesItsTask(r, thief, b, j) {
        var u, m: nat :| b < m < j && SettlesOn(r, thief, u, m) && Misses(r, thief, u, m, j);
        SettledCall(r, thief, u, b, m, j);
      }
    }
  }

  /** The call searches the queue where it saw its task after the task was handed out. */
  ghost predicate ComesTooLate(r: Run, thief: nat, b: nat, j: nat) {
    exists t, q: nat, k: nat ::
      b < k < j && SearchesAt(r, thief, t, q, k) && SawIn(r, thief, t, q, b, k) && t in r.states[k].taken
  }

  /** The search of the queue where a task was seen decides the call, if no move comes in between. */
  lemma SearchDecidesCall(r: Run, thief: nat, t: Task, q: nat, b: nat, k: nat, j: nat)
    requires IsCall(r, thief, b, j) && Unmoved(r.steps, b, j) && b < k < j
    requires SearchesAt(r, thief, t, q, k) && SawIn(r, thief, t, q, b, k)
    ensures r.states[j].calls[thief].got == None <==> t in r.states[k].taken
  {
    EarlierState(r, k, j);
    SettledSaw(r, thief, t, q, b, k);
    var i: nat :| b < i <= k && SettlesOn(r, thief, t, i) && Saw(r, thief, t, b, i);
    var s: nat :| b < s < k && SeesAt(r, thief, q, s) && t in r.states[s].queues[q];
    EarlierState(r, s, j);
    SearchDecides(r, thief, t, q, s, i, k, j);
  }

  /** A call that settles and returns nothing has searched the queue where it saw its task. */
  lemma SearchesWhereItSaw(r: Run, thief: nat, t: Task, b: nat, i: nat, j: nat) returns (q: nat, k: nat)
    requires IsCall(r, thief, b, j) && b < i < j && SettlesOn(r, thief, t, i)
    requires r.states[j].calls[thief].got == None
    ensures b < k < j && SearchesAt(r, thief, t, q, k) && SawIn(r, thief, t, q, b, k)
  {
    SettledCall(r, thief, t, b, i, j);
    SettledStealFailsIff(r, thief, t, i, j);
    q :| SawIn(r, thief, t, q, b, i);
    var s: nat :| b < s < i && SeesAt(r, thief, q, s) && t in r.states[s].queues[q];
    EarlierState(r, s, j);
    assert Searched(r, thief, t, q, i, j);
    k :| i <= k < j && SearchesAt(r, thief, t, q, k);
  }

  /** In any interleaving without moves during the call: a steal comes back empty exactly when it saw
      nothing it may take, or the task it settled on had been handed out by the time it searched the
      queue where it had seen it. */
  lemma UnmovedStealFailsIff(r: Run, thief: nat, b: nat, j: nat)
    requires IsCall(r, thief, b, j) && Unmoved(r.steps, b, j)
    ensures r.states[j].calls[thief].got == None <==>
      SawNothing(r, thief, b, j) || ComesTooLate(r, thief, b, j)
  {
    StealFailsIff(r, thief, b, j);
    if ComesTooLate(r, thief, b, j) {
      var t, q: nat, k: nat :|
        b < k < j && SearchesAt(r, thief, t, q, k) && SawIn(r, thief, t, q, b, k) && t in r.states[k].taken;
      SearchDecidesCall(r, thief, t, q, b, k, j);
    }
    if r.states[j].calls[thief].got == None && !SawNothing(r, thief, b, j) {
      var t, i := CallSettles(r, thief, b, j);
      var q, k := SearchesWhereItSaw(r, thief, t, b, i, j);
      SearchDecidesCall(r, thief, t, q, b, k, j);
    }
  }
}
