/** The completion queue and the waker together (`src/event_loop.rs`): the third step of `complete`
    wakes the main thread. The main thread drains after each wait, as the queue's comment asks. */
module CompletionWakeup {
  import Io = IoCompletionQueue
  import W = EventLoopWaker

  /** `beforeWake`: completions that are pushed and whose `complete` has not woken yet. `owesDrain`: the
      main thread came back from a wait and has not drained. */
  datatype State = State(io: Io.State, waker: W.Shared, beforeWake: set<nat>, owesDrain: bool)

  const INIT := State(Io.INIT, W.Shared(false, [], W.Awake), {}, false)

  /** `IoStep` covers the first two steps of `complete`, `WakeAfter` is the third. `OtherWake` is a wake
      of a timer or another source. */
  datatype Step =
    | IoStep(step: Io.Step)
    | WakeAfter(id: nat)
    | OtherWake
    | WaitStart(zero: bool)
    | WaitReturn(timedOut: bool)

  predicate Enabled(s: State, step: Step) {
    match step
    case IoStep(io) => Io.Enabled(s.io, io) && (io.Drain? ==> s.waker.sleeper.Awake?)
    case WakeAfter(id) => id in s.beforeWake && id in s.io.done
    case OtherWake => true
    case WaitStart(_) => s.waker.sleeper.Awake? && !s.owesDrain
    case WaitReturn(_) => s.waker.sleeper.Asleep?
  }

  function Next(s: State, step: Step): State {
    match step
    case IoStep(io) =>
      var t := s.(io := Io.Next(s.io, io));
      if io.Push? then t.(beforeWake := s.beforeWake + {io.done.id})
      else if io.Drain? then t.(owesDrain := false)
      else t
    case WakeAfter(id) => s.(waker := W.Effect(s.waker, W.BareWake), beforeWake := s.beforeWake - {id})
    case OtherWake => s.(waker := W.Effect(s.waker, W.BareWake))
    case WaitStart(zero) =>
      s.(waker := W.Effect(s.waker, W.WaitStart(zero)), owesDrain := W.Answer(s.waker, W.WaitStart(zero)).Some?)
    case WaitReturn(timedOut) => s.(waker := W.Effect(s.waker, W.WaitReturn(timedOut)), owesDrain := true)
  }

  ghost predicate IsRun(states: seq<State>, steps: seq<Step>) {
    && |states| == |steps| + 1 && states[0] == INIT
    && forall i | 0 <= i < |steps| :: Enabled(states[i], steps[i]) && states[i + 1] == Next(states[i], steps[i])
  }

  ghost predicate Inv(s: State) {
    && Io.Inv(s.io)
    && (s.io.shared.inner != [] ==> s.waker.flag || s.beforeWake != {} || s.owesDrain)
    && (s.waker.sleeper.Asleep? ==> !s.owesDrain && (s.waker.flag ==> s.waker.sleeper.notified))
    && (forall id | id in s.beforeWake :: id in s.io.pushed || id in s.io.done)
  }

  lemma IoKeepsInv(s: State, io: Io.Step)
    requires Inv(s) && Enabled(s, IoStep(io))
    ensures Inv(Next(s, IoStep(io)))
  {
    Io.NextKeepsInv(s.io, io);
    var t := Next(s, IoStep(io));
    if io.Push? { assert io.done.id in t.beforeWake; }
  }

  lemma NextKeepsInv(s: State, step: Step)
    requires Inv(s) && Enabled(s, step)
    ensures Inv(Next(s, step))
  {
    match step
    case IoStep(io) => IoKeepsInv(s, io);
    case _ =>
  }

  lemma {:induction false} RunKeepsInv(states: seq<State>, steps: seq<Step>, j: nat)
    requires IsRun(states, steps) && j < |states|
    ensures Inv(states[j])
    decreases j
  {
    if j == 0 {
      InitInv();
    } else {
      RunKeepsInv(states, steps, j - 1);
      NextKeepsInv(states[j - 1], steps[j - 1]);
    }
  }

  lemma InitInv()
    ensures Inv(INIT)
  {
  }

  /** In every interleaving a pushed completion that no drain has delivered has the flag up, a completer
      before its wake, or a drain owed; if the main thread sleeps, it was notified or a completer is
      before its wake. A completer that is before its wake can always take its next step. */
  lemma NoLostCompletion(states: seq<State>, steps: seq<Step>, j: nat, id: nat)
    requires IsRun(states, steps) && j < |states|
    requires Io.HasId(states[j].io.pushes, id) && !Io.HasId(states[j].io.delivered, id)
    ensures var s := states[j];
      && (s.waker.flag || s.beforeWake != {} || s.owesDrain)
      && (s.waker.sleeper.Asleep? ==> s.waker.sleeper.notified || s.beforeWake != {})
      && forall c | c in s.beforeWake :: Enabled(s, IoStep(Io.Uncount(c))) || Enabled(s, WakeAfter(c))
  {
    RunKeepsInv(states, steps, j);
    var s := states[j];
    assert s.io.shared.inner == [] ==> s.io.delivered == s.io.pushes;
  }
}
