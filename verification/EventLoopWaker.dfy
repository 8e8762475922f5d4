/** The waker flag with its condition variable, and the queue of fired timer ids it announces
    (`src/event_loop.rs`), as atomic steps of any number of producers and one main thread. */
module EventLoopWaker {
  import opened Prelude

  /** Whether the main thread is blocked in the condition variable, and if so whether a
      `notify_all` has reached it. */
  datatype Sleeper = Awake | Asleep(notified: bool)

  datatype Shared = Shared(flag: bool, fired: seq<nat>, sleeper: Sleeper)

  /** `WaitStart` is `wait_timeout` up to its early return or the moment it blocks (one critical
      section), `WaitReturn` the section after the condition variable gives the lock back, which
      may happen by notification, by timeout, or spuriously. */
  datatype Step =
    | Append(producer: nat, ids: seq<nat>)
    | Wake(producer: nat)
    | BareWake
    | WaitStart(zero: bool)
    | WaitReturn(timedOut: bool)
    | Poll

  function Effect(s: Shared, step: Step): Shared {
    match step
    case Append(_, ids) => s.(fired := s.fired + ids)
    case Wake(_) => Notified(s)
    case BareWake => Notified(s)
    case WaitStart(zero) =>
      if s.flag then s.(flag := false) else if zero then s else s.(sleeper := Asleep(false))
    case WaitReturn(_) => s.(flag := false, sleeper := Awake)
    case Poll => s.(fired := [])
  }

  function Notified(s: Shared): Shared {
    s.(flag := true, sleeper := if s.sleeper.Asleep? then Asleep(true) else Awake)
  }

  /** What `wait_timeout` answers: `None` while it is still blocked. */
  function Answer(s: Shared, step: Step): Option<bool> {
    match step
    case WaitStart(zero) => if s.flag then Some(true) else if zero then Some(false) else None
    case WaitReturn(timedOut) => Some(s.flag || !timedOut)
    case _ => None
  }

  class Waker {
    var flag: bool
    var fired: seq<nat>
    var sleeper: Sleeper

    ghost function View(): Shared reads this { Shared(flag, fired, sleeper) }

    constructor ()
      ensures View() == Shared(false, [], Awake)
    {
      flag, fired, sleeper := false, [], Awake;
    }

    method WakeUp()
      modifies this`flag, this`sleeper
      ensures View() == Effect(old(View()), BareWake)
      ensures flag && sleeper == if old(sleeper) == Awake then Awake else Asleep(true)
    {
      flag := true;
      if sleeper.Asleep? {
        sleeper := Asleep(true);
      }
    }

    method Reset()
      modifies this`flag
      ensures View() == old(View()).(flag := false)
    {
      flag := false;
    }

    method BeginWait(zero: bool) returns (answer: Option<bool>)
      modifies this`flag, this`sleeper
      ensures View() == Effect(old(View()), WaitStart(zero))
      ensures answer == Answer(old(View()), WaitStart(zero))
      ensures !flag && answer == if old(flag) then Some(true) else if zero then Some(false) else None
      ensures sleeper == if answer == None then Asleep(false) else old(sleeper)
    {
      if flag {
        flag := false;
        return Some(true);
      }
      if zero {
        return Some(false);
      }
      sleeper := Asleep(false);
      return None;
    }

    method EndWait(timedOut: bool) returns (answer: bool)
      modifies this`flag, this`sleeper
      ensures View() == Effect(old(View()), WaitReturn(timedOut))
      ensures Some(answer) == Answer(old(View()), WaitReturn(timedOut))
      ensures !flag && sleeper == Awake && (answer <==> old(flag) || !timedOut)
    {
      var wasWoken := flag;
      flag := false;
      sleeper := Awake;
      answer := wasWoken || !timedOut;
    }

    method AppendFired(ids: seq<nat>)
      modifies this`fired
      ensures View() == Effect(old(View()), Append(0, ids)) && fired == old(fired) + ids
    {
      fired := fired + ids;
    }

    method PollFiredTimers() returns (ids: seq<nat>)
      modifies this`fired
      ensures ids == old(fired) && fired == [] && View() == Effect(old(View()), Poll)
    {
      ids := fired;
      fired := [];
    }
  }

  // ------------------------------------------------------------------ runs

  /** `between`: producers that appended and have not yet woken. `owesPoll`: the main thread came
      back from a wait and has not polled. `appended` and `polled` are the whole history. */
  datatype State = State(shared: Shared, between: set<nat>, owesPoll: bool, appended: seq<nat>, polled: seq<nat>)

  const INIT := State(Shared(false, [], Awake), {}, false, [], [])

  /** A producer wakes after each append; the main thread polls after each wait. */
  predicate Enabled(s: State, step: Step) {
    match step
    case Append(p, _) => p !in s.between
    case Wake(p) => p in s.between
    case BareWake => true
    case WaitStart(_) => s.shared.sleeper.Awake? && !s.owesPoll
    case WaitReturn(_) => s.shared.sleeper.Asleep?
    case Poll => s.shared.sleeper.Awake?
  }

  function Next(s: State, step: Step): State {
    var t := s.(shared := Effect(s.shared, step));
    match step
    case Append(p, ids) => t.(between := s.between + {p}, appended := s.appended + ids)
    case Wake(p) => t.(between := s.between - {p})
    case BareWake => t
    case WaitStart(_) => t.(owesPoll := Answer(s.shared, step).Some?)
    case WaitReturn(_) => t.(owesPoll := true)
    case Poll => t.(owesPoll := false, polled := s.polled + s.shared.fired)
  }

  ghost predicate IsRun(states: seq<State>, steps: seq<Step>) {
    && |states| == |steps| + 1 && states[0] == INIT
    && forall i | 0 <= i < |steps| :: Enabled(states[i], steps[i]) && states[i + 1] == Next(states[i], steps[i])
  }

  ghost predicate Inv(s: State) {
    && (s.shared.fired != [] ==> s.shared.flag || s.between != {} || s.owesPoll)
    && (s.shared.sleeper.Asleep? ==> !s.owesPoll && (s.shared.flag ==> s.shared.sleeper.notified))
    && s.polled + s.shared.fired == s.appended
  }

  lemma NextKeepsInv(s: State, step: Step)
    requires Inv(s) && Enabled(s, step)
    ensures Inv(Next(s, step))
    ensures s.appended <= Next(s, step).appended && s.polled <= Next(s, step).polled
  {
    var t := Next(s, step);
    match step
    case Append(p, ids) =>
      assert p in t.between;
      assert s.polled + (s.shared.fired + ids) == s.polled + s.shared.fired + ids;
    case _ =>
  }

  lemma {:induction false} RunKeepsInv(states: seq<State>, steps: seq<Step>, i: nat, j: nat)
    requires IsRun(states, steps) && i <= j < |states|
    ensures Inv(states[j]) && states[i].appended <= states[j].appended && states[i].polled <= states[j].polled
    decreases j
  {
    if j > 0 {
      RunKeepsInv(states, steps, if i < j then i else j - 1, j - 1);
      NextKeepsInv(states[j - 1], steps[j - 1]);
    }
  }

  /** No lost wakeup: in every run, ids waiting in the queue are announced by the flag, or a
      producer is about to raise it, or the main thread is about to poll. In particular the main
      thread never sleeps on them without a notification already sent or still to come. */
  lemma NoLostWakeup(states: seq<State>, steps: seq<Step>, j: nat)
    requires IsRun(states, steps) && j < |states|
    ensures states[j].shared.fired != [] ==>
      states[j].shared.flag || states[j].between != {} || states[j].owesPoll
    ensures states[j].shared.fired != [] && states[j].shared.sleeper.Asleep? ==>
      states[j].shared.sleeper.notified || states[j].between != {}
  {
    RunKeepsInv(states, steps, j, j);
  }

  predicate IsWake(step: Step) { step.Wake? || step.BareWake? }

  predicate IsWait(step: Step) { step.WaitStart? || step.WaitReturn? }

  /** There was a wake before step `j`, and no wait after it. */
  ghost predicate WokenBefore(steps: seq<Step>, j: nat) {
    exists k :: 0 <= k < j <= |steps| && IsWake(steps[k]) && forall l | k < l < j :: !IsWait(steps[l])
  }

  /** The flag remembers exactly the wakes that no wait has taken notice of. */
  lemma {:induction false} FlagRemembersWakes(states: seq<State>, steps: seq<Step>, j: nat)
    requires IsRun(states, steps) && j < |states|
    ensures states[j].shared.flag <==> WokenBefore(steps, j)
    decreases j
  {
    if j > 0 {
      var i := j - 1;
      FlagRemembersWakes(states, steps, i);
      if IsWake(steps[i]) {
        assert WokenBefore(steps, j);
      } else if WokenBefore(steps, i) && !IsWait(steps[i]) {
        var k :| 0 <= k < i <= |steps| && IsWake(steps[k]) && forall l | k < l < i :: !IsWait(steps[l]);
        assert forall l | k < l < j :: !IsWait(steps[l]);
      }
    }
  }

  /** What each wait answers. It answers true at once for an unnoticed wake; without one it answers false
      at once if it may not wait, and blocks otherwise. After blocking it answers true for an unnoticed
      wake or if it did not run into its timeout. */
  lemma WaitAnswers(states: seq<State>, steps: seq<Step>, j: nat)
    requires IsRun(states, steps) && j < |steps| && IsWait(steps[j])
    ensures var answer := Answer(states[j].shared, steps[j]);
      match steps[j]
      case WaitStart(zero) => answer == if WokenBefore(steps, j) then Some(true) else if zero then Some(false) else None
      case WaitReturn(timedOut) => answer == Some(WokenBefore(steps, j) || !timedOut)
      case _ => true
    ensures states[j + 1].shared.sleeper.Asleep? <==> Answer(states[j].shared, steps[j]) == None
  {
    FlagRemembersWakes(states, steps, j);
  }

  /** A wait that answers false tells the truth about the queue: at that moment it is empty, or a
      producer has not raised the flag yet. */
  lemma FalseMeansNothingAnnounced(states: seq<State>, steps: seq<Step>, j: nat)
    requires IsRun(states, steps) && j < |steps|
    requires Answer(states[j].shared, steps[j]) == Some(false)
    ensures states[j].shared.fired == [] || states[j].between != {}
  {
    RunKeepsInv(states, steps, j, j);
  }

  /** No lost ids: the polls and the queue are the appended ids in order, and a poll hands over
      everything appended before it that no earlier poll handed over. */
  lemma PollsAreTheAppendHistory(states: seq<State>, steps: seq<Step>, i: nat, j: nat)
    requires IsRun(states, steps) && i <= j < |steps| && steps[j].Poll?
    ensures states[j].polled + states[j].shared.fired == states[j].appended
    ensures states[j + 1].polled == states[j].appended
    ensures states[i].appended <= states[j + 1].polled
  {
    RunKeepsInv(states, steps, i, j);
    RunKeepsInv(states, steps, i, j + 1);
  }

  /** The state after `reset`. */
  function WasReset(s: State): State { s.(shared := s.shared.(flag := false)) }

  /** `reset` keeps the invariant, and with it every further run free of lost wakeups, exactly when no
      ids are waiting, or a producer is still to wake, or the main thread is about to poll. */
  lemma ResetKeepsInvIff(s: State)
    requires Inv(s)
    ensures Inv(WasReset(s)) <==> s.shared.fired == [] || s.between != {} || s.owesPoll
  {
  }

  /** `reset` between an announcement and the wait would lose the wakeup: this state, which a run
      reaches, has the flag down, no producer on its way, and an id in the queue, so the main thread
      would fall asleep unnotified. */
  lemma ResetLosesWakeups() returns (states: seq<State>, steps: seq<Step>)
    ensures IsRun(states, steps)
    ensures var reset := WasReset(states[|steps|]);
      && Enabled(reset, WaitStart(false))
      && var asleep := Next(reset, WaitStart(false));
         asleep.shared.fired != [] && asleep.between == {} && asleep.shared.sleeper == Asleep(false)
  {
    steps := [Append(0, [7]), Wake(0)];
    var s1 := Next(INIT, steps[0]);
    states := [INIT, s1, Next(s1, steps[1])];
  }
}
