/** What a timer does over a whole run of the worker: commands and firing passes in any order. */
module TimerRuns {
  import opened TimerWorker

  datatype Event = Command(cmd: TimerCommand) | Pass(now: Instant, clock: nat -> Instant, fired: seq<nat>)

  /** One event of the worker, as `HandleTimerCommand` and `FireDueTimers` specify it. The clock
      readings taken during a pass are not earlier than the one the pass began with. */
  ghost predicate StepTo(m: Timers, e: Event, t: Timers) {
    match e
    case Command(cmd) => t == Handled(m, cmd)
    case Pass(now, clock, fired) =>
      IsDueOrder(m, now, fired) && FiredTo(m, fired, clock, t) && forall i: nat :: clock(i) >= now
  }

  ghost predicate IsRun(states: seq<Timers>, events: seq<Event>) {
    && |states| == |events| + 1
    && forall i | 0 <= i < |events| :: StepTo(states[i], events[i], states[i + 1])
  }

  lemma FrontIsRun(states: seq<Timers>, events: seq<Event>)
    requires IsRun(states, events) && events != []
    ensures var k := |events| - 1;
      IsRun(states[..k + 1], events[..k]) && StepTo(states[k], events[k], states[k + 1])
  {
  }

  /** The event neither schedules nor cancels `id`, and does not clear all timers. */
  predicate Untouched(e: Event, id: nat) {
    match e
    case Pass(_, _, _) => true
    case Command(cmd) =>
      match cmd
      case ScheduleTimeout(x, _, _, _) => x != id
      case ScheduleInterval(x, _, _, _, _) => x != id
      case Cancel(x) => x != id
      case CancelWithAck(x) => x != id
      case _ => false
  }

  predicate Fires(e: Event, id: nat) { e.Pass? && id in e.fired }

  /** The clock values of the passes in which `id` fired. */
  function FiringTimes(events: seq<Event>, id: nat): (f: seq<Instant>)
    ensures |f| <= |events|
  {
    if events == [] then []
    else
      var last := events[|events| - 1];
      FiringTimes(events[..|events| - 1], id) + if Fires(last, id) then [last.now] else []
  }

  /** The first firing comes at least one delay after `start`, each further one at least one delay
      after the one before. */
  ghost predicate Paced(f: seq<Instant>, start: Instant, delay: nat) {
    && (|f| > 0 ==> f[0] >= start + delay)
    && forall j | 0 <= j < |f| - 1 :: f[j + 1] >= f[j] + delay
  }

  function LastOr(f: seq<Instant>, start: Instant): Instant { if f == [] then start else f[|f| - 1] }

  /** The timer after firing at the times `f`: still in the map, with the right count left, unless
      its repetitions are used up. */
  ghost predicate Progress(m: Timers, id: nat, start: Instant, delay: nat, n: nat, f: seq<Instant>) {
    && Paced(f, start, delay)
    && (n < U32_MAX ==> |f| <= n && (id in m <==> |f| < n))
    && (n == U32_MAX ==> id in m)
    && (id in m ==>
          && m[id].delay == delay
          && m[id].deadline >= LastOr(f, start) + delay
          && m[id].remaining == if n == U32_MAX then n else n - |f|)
  }

  lemma StepProgress(m: Timers, e: Event, t: Timers, id: nat, start: Instant, delay: nat, n: nat, f: seq<Instant>)
    requires Progress(m, id, start, delay, n, f) && 1 <= n <= U32_MAX
    requires StepTo(m, e, t) && Untouched(e, id)
    ensures Progress(t, id, start, delay, n, f + if Fires(e, id) then [e.now] else [])
  {
    if Fires(e, id) {
      var again := Rearming(m, e.fired);
      assert id in m && m[id].deadline <= e.now;
      if m[id].remaining > 1 {
        assert id in again;
        var i :| 0 <= i < |again| && again[i] == id;
        assert t[again[i]] == AfterFiring(m[id], e.clock(i));
      }
    } else {
      assert f + [] == f;
    }
  }

  lemma {:induction false} RunProgress(states: seq<Timers>, events: seq<Event>,
                                       id: nat, start: Instant, delay: nat, n: nat)
    requires IsRun(states, events) && (forall e | e in events :: Untouched(e, id))
    requires 1 <= n <= U32_MAX && Progress(states[0], id, start, delay, n, [])
    ensures Progress(states[|events|], id, start, delay, n, FiringTimes(events, id))
    decreases |events|
  {
    if events != [] {
      var k := |events| - 1;
      FrontIsRun(states, events);
      RunProgress(states[..k + 1], events[..k], id, start, delay, n);
      StepProgress(states[k], events[k], states[k + 1], id, start, delay, n, FiringTimes(events[..k], id));
    }
  }

  lemma {:induction false} PacedTotal(f: seq<Instant>, start: Instant, delay: nat, j: nat)
    requires Paced(f, start, delay) && j < |f|
    ensures f[j] >= start + (j + 1) * delay
  {
    if j > 0 {
      PacedTotal(f, start, delay, j - 1);
      assert (j + 1) * delay == j * delay + delay;
    }
  }

  lemma PacedTotals(f: seq<Instant>, start: Instant, delay: nat)
    requires Paced(f, start, delay)
    ensures forall j | 0 <= j < |f| :: f[j] >= start + (j + 1) * delay
  {
    forall j | 0 <= j < |f| ensures f[j] >= start + (j + 1) * delay {
      PacedTotal(f, start, delay, j);
    }
  }

  lemma TailIsRun(states: seq<Timers>, events: seq<Event>)
    requires IsRun(states, events) && |events| >= 1
    ensures IsRun(states[1..], events[1..]) && StepTo(states[0], events[0], states[1])
  {
    forall i | 0 <= i < |events| - 1 ensures StepTo(states[1..][i], events[1..][i], states[1..][i + 1]) {
      assert StepTo(states[i + 1], events[i + 1], states[i + 2]);
    }
  }

  lemma Scheduled(m: Timers, e: Event, t: Timers, id: nat, start: Instant, delay: nat, repeatCount: nat, sequence: nat)
    requires StepTo(m, e, t) && e == Command(ScheduleInterval(id, start + delay, delay, repeatCount, sequence))
    requires repeatCount <= U32_MAX
    ensures Progress(t, id, start, delay, Repeats(repeatCount), [])
  {
  }

  /** An interval scheduled at `start` and then left alone: its j-th firing (from 0) happens no
      earlier than start + (j+1) * delay, and at least one delay after the firing before; it fires
      at most `repeatCount` times and leaves the map with the last one; with 0 or `U32_MAX` it
      stays for ever. */
  lemma IntervalOverARun(states: seq<Timers>, events: seq<Event>, id: nat, start: Instant, delay: nat,
                         repeatCount: nat, sequence: nat)
    requires IsRun(states, events) && |events| >= 1 && repeatCount <= U32_MAX
    requires events[0] == Command(ScheduleInterval(id, start + delay, delay, repeatCount, sequence))
    requires forall e | e in events[1..] :: Untouched(e, id)
    ensures var f := FiringTimes(events[1..], id); var last := states[|events|];
      && (forall j | 0 <= j < |f| :: f[j] >= start + (j + 1) * delay)
      && (forall j | 0 <= j < |f| - 1 :: f[j + 1] >= f[j] + delay)
      && (if repeatCount == 0 || repeatCount == U32_MAX then id in last
          else |f| <= repeatCount && (id in last <==> |f| < repeatCount))
  {
    TailIsRun(states, events);
    Scheduled(states[0], events[0], states[1], id, start, delay, repeatCount, sequence);
    RunProgress(states[1..], events[1..], id, start, delay, Repeats(repeatCount));
    PacedTotals(FiringTimes(events[1..], id), start, delay);
  }

  /** The clock value of the first pass that begins at `deadline` or later. */
  function FirstPassAt(events: seq<Event>, deadline: Instant): seq<Instant> {
    if events == [] then []
    else if events[0].Pass? && events[0].now >= deadline then [events[0].now]
    else FirstPassAt(events[1..], deadline)
  }

  lemma FirstPassAppend(events: seq<Event>, e: Event, deadline: Instant)
    ensures var before := FirstPassAt(events, deadline);
      FirstPassAt(events + [e], deadline) ==
        if before != [] then before else if e.Pass? && e.now >= deadline then [e.now] else []
  {
    if events == [] {
      assert ([e])[1..] == [];
    } else {
      FirstPassAppend(events[1..], e, deadline);
      assert (events + [e])[1..] == events[1..] + [e];
    }
  }

  lemma OneShotStep(m: Timers, e: Event, t: Timers, id: nat)
    requires StepTo(m, e, t) && Untouched(e, id)
    ensures id !in m ==> id !in t && !Fires(e, id)
    ensures id in m ==> (Fires(e, id) <==> e.Pass? && e.now >= m[id].deadline)
    ensures id in m && m[id].remaining == 1 ==>
      if Fires(e, id) then id !in t else id in t && t[id] == m[id]
  {
  }

  /** Where a timeout stands after it fired at the times `f`. */
  ghost predicate OneShot(m: Timers, id: nat, entry: TimerEntry, f: seq<Instant>) {
    if f == [] then id in m && m[id] == entry else id !in m
  }

  lemma OneShotNext(m: Timers, e: Event, t: Timers, id: nat, entry: TimerEntry, f: seq<Instant>)
    requires StepTo(m, e, t) && Untouched(e, id) && OneShot(m, id, entry, f) && entry.remaining == 1
    ensures var next := f + (if Fires(e, id) then [e.now] else []);
      && next == (if f != [] then f else if e.Pass? && e.now >= entry.deadline then [e.now] else [])
      && OneShot(t, id, entry, next)
  {
    OneShotStep(m, e, t, id);
    assert f + [] == f;
  }

  /** A timeout that is not cancelled, cleared or scheduled again fires exactly once, in the first
      pass that begins at its deadline or later, and is in the map until then. */
  lemma {:induction false} TimeoutFiresInFirstDuePass(
    states: seq<Timers>, events: seq<Event>, id: nat, entry: TimerEntry)
    requires IsRun(states, events) && (forall e | e in events :: Untouched(e, id))
    requires id in states[0] && states[0][id] == entry && entry.remaining == 1
    ensures FiringTimes(events, id) == FirstPassAt(events, entry.deadline)
    ensures OneShot(states[|events|], id, entry, FiringTimes(events, id))
    decreases |events|
  {
    if events != [] {
      var k := |events| - 1;
      FrontIsRun(states, events);
      TimeoutFiresInFirstDuePass(states[..k + 1], events[..k], id, entry);
      FirstPassAppend(events[..k], events[k], entry.deadline);
      assert events[..k] + [events[k]] == events;
      OneShotNext(states[k], events[k], states[k + 1], id, entry, FiringTimes(events[..k], id));
    }
  }

  /** The two events agree on what the environment decides. */
  ghost predicate SameInput(a: Event, b: Event) {
    if a.Command? then a == b else b.Pass? && a.now == b.now && a.clock == b.clock
  }

  lemma OneMoreStep(states: seq<Timers>, events: seq<Event>, e: Event, t: Timers)
    requires IsRun(states, events) && StepTo(states[|events|], e, t)
    ensures IsRun(states + [t], events + [e])
  {
  }

  method TakeEvent(worker: Worker, e: Event) returns (taken: Event, goOn: bool)
    requires worker.Valid() && (e.Pass? ==> forall i: nat :: e.clock(i) >= e.now)
    modifies worker
    ensures worker.Valid() && StepTo(old(worker.scheduled), taken, worker.scheduled) && SameInput(taken, e)
    ensures goOn <==> taken != Command(Shutdown) && taken != Command(ShutdownWithAck)
  {
    match e {
      case Command(cmd) =>
        var acked;
        goOn, acked := worker.HandleTimerCommand(cmd);
        taken := e;
      case Pass(now, clock, _) =>
        var fired := worker.FireDueTimers(now, clock);
        taken, goOn := Pass(now, clock, fired), true;
    }
  }

  /** The worker takes exactly these steps, and after each of them the index and the counter still
      agree with the map. */
  method RunWorker(worker: Worker, script: seq<Event>) returns (events: seq<Event>, states: seq<Timers>)
    requires worker.Valid()
    requires forall e | e in script :: e.Pass? ==> forall i: nat :: e.clock(i) >= e.now
    modifies worker
    ensures worker.Valid() && IsRun(states, events) && |events| <= |script|
    ensures states[0] == old(worker.scheduled) && states[|events|] == worker.scheduled
    ensures forall i | 0 <= i < |events| :: SameInput(events[i], script[i])
    ensures forall i | 0 <= i < |events| && events[i].Pass? ::
      script[i].Pass? && events[i].now == script[i].now && events[i].clock == script[i].clock
    ensures forall i | 0 <= i < |events| && events[i].Command? :: events[i] == script[i]
    ensures |events| < |script| ==>
      events != [] && events[|events| - 1] in {Command(Shutdown), Command(ShutdownWithAck)}
  {
    events, states := [], [worker.scheduled];
    while |events| < |script|
      invariant worker.Valid() && |events| <= |script| && IsRun(states, events)
      invariant states[0] == old(worker.scheduled) && states[|events|] == worker.scheduled
      invariant forall i | 0 <= i < |events| :: SameInput(events[i], script[i])
      decreases |script| - |events|
    {
      var taken, goOn := TakeEvent(worker, script[|events|]);
      OneMoreStep(states, events, taken, worker.scheduled);
      events, states := events + [taken], states + [worker.scheduled];
      if !goOn { return; }
    }
  }
}
