/** What commands and firing passes do to each timer, field by field, and what that means over a run
    for timeouts, for cancelled timers and for the deadlines of repeating ones. */
module TimerLaws {
  import opened TimerWorker
  import opened TimerRuns

  // ------------------------------------------------------------------ one event

  /** What each command leaves in the map: a timeout fires once, an interval as often as it says, where 0
      stands for the largest count, and nothing but the named timer is touched unless all are cleared. */
  lemma CommandEffect(m: Timers, cmd: TimerCommand, t: Timers)
    requires StepTo(m, Command(cmd), t)
    ensures match cmd
      case ScheduleTimeout(id, deadline, delay, sequence) =>
        && id in t && t[id].deadline == deadline && t[id].delay == delay
        && t[id].remaining == 1 && t[id].sequence == sequence
        && SameExcept(m, t, id)
      case ScheduleInterval(id, deadline, delay, repeatCount, sequence) =>
        && id in t && t[id].deadline == deadline && t[id].delay == delay
        && t[id].remaining == (if repeatCount == 0 then 0xFFFF_FFFF else repeatCount) && t[id].sequence == sequence
        && SameExcept(m, t, id)
      case Cancel(id) => id !in t && SameExcept(m, t, id)
      case CancelWithAck(id) => id !in t && SameExcept(m, t, id)
      case _ => |t| == 0
  {
  }

  ghost predicate SameExcept(m: Timers, t: Timers, id: nat) {
    forall x | x != id :: (x in t <==> x in m) && (x in m ==> t[x] == m[x])
  }

  /** The timer is due, and armed again after this firing. */
  predicate FiresAndStays(m: Timers, now: Instant, id: nat) {
    id in m && m[id].deadline <= now && m[id].remaining > 1
  }

  ghost predicate IsReading(clock: nat -> Instant, reading: Instant) { exists i: nat :: clock(i) == reading }

  /** What a pass does: exactly the due timers fire, by deadline, then sequence, then id; a timer that
      is not due is untouched; of the due ones exactly those with more than one firing left stay, with
      one firing less unless they are endless, the same delay and sequence, and a deadline one delay
      after a reading of the clock taken in this pass. */
  lemma PassEffect(m: Timers, now: Instant, clock: nat -> Instant, fired: seq<nat>, t: Timers)
    requires StepTo(m, Pass(now, clock, fired), t)
    ensures forall id :: id in fired <==> id in m && m[id].deadline <= now
    ensures forall i, j | 0 <= i < j < |fired| :: var a, b := m[fired[i]], m[fired[j]];
      || a.deadline < b.deadline
      || (a.deadline == b.deadline && a.sequence < b.sequence)
      || (a.deadline == b.deadline && a.sequence == b.sequence && fired[i] < fired[j])
    ensures forall id :: id in t <==> (id in m && m[id].deadline > now) || FiresAndStays(m, now, id)
    ensures forall id | id in t && m[id].deadline > now :: t[id] == m[id]
    ensures forall id | FiresAndStays(m, now, id) ::
      && t[id].delay == m[id].delay && t[id].sequence == m[id].sequence
      && t[id].remaining == (if m[id].remaining == 0xFFFF_FFFF then 0xFFFF_FFFF else m[id].remaining - 1)
      && IsReading(clock, t[id].deadline - m[id].delay)
  {
    var again := Rearming(m, fired);
    forall id | FiresAndStays(m, now, id)
      ensures t[id].delay == m[id].delay && t[id].sequence == m[id].sequence
      ensures t[id].remaining == if m[id].remaining == 0xFFFF_FFFF then 0xFFFF_FFFF else m[id].remaining - 1
      ensures IsReading(clock, t[id].deadline - m[id].delay)
    {
      assert id in again;
      var i :| 0 <= i < |again| && again[i] == id;
      assert t[again[i]] == AfterFiring(m[id], clock(i));
      assert IsReading(clock, t[id].deadline - m[id].delay);
    }
  }

  /** The positions before `i` in the firing order whose timers are armed again. */
  ghost function ArmedBefore(m: Timers, fired: seq<nat>, i: nat): set<nat>
    requires i <= |fired| && forall id | id in fired :: id in m
  {
    set j | 0 <= j < i && m[fired[j]].remaining > 1
  }

  lemma ArmedInFront(m: Timers, fired: seq<nat>, n: nat, i: nat)
    requires i <= n <= |fired| && forall id | id in fired :: id in m
    ensures ArmedBefore(m, fired[..n], i) == ArmedBefore(m, fired, i)
  {
    assert forall j | 0 <= j < i :: fired[..n][j] == fired[j];
  }

  lemma ArmedNext(m: Timers, fired: seq<nat>, i: nat)
    requires i < |fired| && forall id | id in fired :: id in m
    ensures |ArmedBefore(m, fired, i + 1)| == |ArmedBefore(m, fired, i)| + if m[fired[i]].remaining > 1 then 1 else 0
  {
    var before := ArmedBefore(m, fired, i);
    if m[fired[i]].remaining > 1 {
      assert ArmedBefore(m, fired, i + 1) == before + {i};
    } else {
      assert ArmedBefore(m, fired, i + 1) == before;
    }
  }

  lemma {:induction false} RearmingSize(m: Timers, fired: seq<nat>)
    requires forall id | id in fired :: id in m
    ensures |Rearming(m, fired)| == |ArmedBefore(m, fired, |fired|)|
    decreases |fired|
  {
    if fired != [] {
      var n := |fired| - 1;
      RearmingSize(m, fired[..n]);
      ArmedInFront(m, fired, n, n);
      ArmedNext(m, fired, n);
    }
  }

  lemma {:induction false} RearmingPrefix(m: Timers, fired: seq<nat>, i: nat, n: nat)
    requires i <= n <= |fired| && forall id | id in fired :: id in m
    ensures Rearming(m, fired[..i]) <= Rearming(m, fired[..n])
    decreases n
  {
    if i < n {
      RearmingPrefix(m, fired, i, n - 1);
      RearmingStep(m, fired, n - 1);
    }
  }

  lemma RearmingStep(m: Timers, fired: seq<nat>, i: nat)
    requires i < |fired| && forall id | id in fired :: id in m
    ensures Rearming(m, fired[..i + 1]) ==
      Rearming(m, fired[..i]) + if m[fired[i]].remaining > 1 then [fired[i]] else []
  {
    assert fired[..i + 1][..i] == fired[..i];
  }

  lemma RearmingPosition(m: Timers, fired: seq<nat>, i: nat)
    requires i < |fired| && (forall id | id in fired :: id in m) && m[fired[i]].remaining > 1
    ensures var p := |Rearming(m, fired[..i])|; p < |Rearming(m, fired)| && Rearming(m, fired)[p] == fired[i]
  {
    RearmingStep(m, fired, i);
    RearmingPrefix(m, fired, i + 1, |fired|);
    assert fired[..|fired|] == fired;
  }

  /** The deadlines that a pass sets, exactly: the timers it arms again read the clock one after the
      other in firing order, so a timer counts its delay from the reading whose number is the number of
      timers armed again before it. */
  lemma RearmedInFiringOrder(m: Timers, now: Instant, clock: nat -> Instant, fired: seq<nat>, t: Timers, i: nat)
    requires StepTo(m, Pass(now, clock, fired), t) && i < |fired| && m[fired[i]].remaining > 1
    ensures fired[i] in t
    ensures t[fired[i]].deadline ==
      clock(|set j | 0 <= j < i && m[fired[j]].remaining > 1|) + m[fired[i]].delay
  {
    RearmingPosition(m, fired, i);
    RearmingSize(m, fired[..i]);
    ArmedInFront(m, fired, i, i);
    var again, p := Rearming(m, fired), |Rearming(m, fired[..i])|;
    assert t[again[p]] == AfterFiring(m[again[p]], clock(p));
  }

  // ------------------------------------------------------------------ timeouts over a run

  /** A timer is left alone by every pass, and by the commands that are about another timer. */
  lemma UntouchedIff(e: Event, id: nat)
    ensures Untouched(e, id) <==>
      || e.Pass?
      || ((e.cmd.ScheduleTimeout? || e.cmd.ScheduleInterval? || e.cmd.Cancel? || e.cmd.CancelWithAck?)
          && e.cmd.id != id)
  {
  }

  /** A timeout scheduled and then left alone fires exactly once, in the first pass that begins at its
      deadline or later, is in the map unchanged until then and gone from then on. */
  lemma TimeoutOverARun(states: seq<Timers>, events: seq<Event>, id: nat, start: Instant, delay: nat, sequence: nat)
    requires IsRun(states, events) && |events| >= 1
    requires events[0] == Command(ScheduleTimeout(id, start + delay, delay, sequence))
    requires forall e | e in events[1..] :: Untouched(e, id)
    ensures var f := FiringTimes(events[1..], id); var last := states[|events|];
      && f == FirstPassAt(events[1..], start + delay)
      && (id in last <==> f == [])
      && (id in last ==> last[id] == TimerEntry(start + delay, delay, 1, sequence))
  {
    TailIsRun(states, events);
    TimeoutFiresInFirstDuePass(states[1..], events[1..], id, TimerEntry(start + delay, delay, 1, sequence));
  }

  /** The times in `FirstPassAt` are the first pass that began late enough, if there was one. */
  lemma {:induction false} FirstPassIsFirst(events: seq<Event>, deadline: Instant)
    ensures var f := FirstPassAt(events, deadline);
      if exists i :: 0 <= i < |events| && events[i].Pass? && events[i].now >= deadline then
        exists i :: 0 <= i < |events| && events[i].Pass? && events[i].now >= deadline && f == [events[i].now]
                    && forall j | 0 <= j < i :: events[j].Command? || events[j].now < deadline
      else f == []
    decreases |events|
  {
    if events != [] && !(events[0].Pass? && events[0].now >= deadline) {
      var rest := events[1..];
      FirstPassIsFirst(rest, deadline);
      if i :| 0 <= i < |events| && events[i].Pass? && events[i].now >= deadline {
        assert rest[i - 1] == events[i];
        var k :| 0 <= k < |rest| && rest[k].Pass? && rest[k].now >= deadline
          && FirstPassAt(rest, deadline) == [rest[k].now]
          && forall j | 0 <= j < k :: rest[j].Command? || rest[j].now < deadline;
        assert forall j | 0 < j < k + 1 :: events[j] == rest[j - 1];
        assert events[k + 1] == rest[k];
      } else {
        assert forall k | 0 <= k < |rest| :: rest[k] == events[k + 1];
      }
    }
  }

  // ------------------------------------------------------------------ cancelled timers

  lemma {:induction false} SilentWhileGone(states: seq<Timers>, events: seq<Event>, id: nat)
    requires IsRun(states, events) && id !in states[0]
    requires forall e | e in events ::
      e.Command? && (e.cmd.ScheduleTimeout? || e.cmd.ScheduleInterval?) ==> e.cmd.id != id
    ensures FiringTimes(events, id) == [] && id !in states[|events|]
    decreases |events|
  {
    if events != [] {
      var k := |events| - 1;
      FrontIsRun(states, events);
      SilentWhileGone(states[..k + 1], events[..k], id);
      assert events[k] in events;
    }
  }

  /** After a cancel of the timer, a clear or a shutdown, with or without acknowledgement, the timer is
      gone and does not fire until a command schedules it again. */
  lemma CancelledIsSilent(states: seq<Timers>, events: seq<Event>, id: nat, cmd: TimerCommand)
    requires IsRun(states, events) && |events| >= 1 && events[0] == Command(cmd)
    requires cmd in {Cancel(id), CancelWithAck(id), Clear, ClearWithAck, Shutdown, ShutdownWithAck}
    requires forall e | e in events[1..] ::
      e.Command? && (e.cmd.ScheduleTimeout? || e.cmd.ScheduleInterval?) ==> e.cmd.id != id
    ensures FiringTimes(events[1..], id) == [] && id !in states[|events|]
  {
    TailIsRun(states, events);
    SilentWhileGone(states[1..], events[1..], id);
  }

  // ------------------------------------------------------------------ repeating timers

  lemma {:induction false} WaitsUnchanged(states: seq<Timers>, events: seq<Event>, id: nat)
    requires IsRun(states, events) && id in states[0] && forall e | e in events :: Untouched(e, id)
    requires forall e | e in events && e.Pass? :: e.now < states[0][id].deadline
    ensures FiringTimes(events, id) == [] && id in states[|events|] && states[|events|][id] == states[0][id]
    decreases |events|
  {
    if events != [] {
      var k := |events| - 1;
      FrontIsRun(states, events);
      WaitsUnchanged(states[..k + 1], events[..k], id);
      OneShotStep(states[k], events[k], states[k + 1], id);
      assert events[k] in events;
    }
  }

  /** Between two firings, for any timer left alone: it waits unchanged for the first pass that begins at
      its deadline or later, and fires in that pass. There it leaves the map with its last firing;
      otherwise it has one firing less, unless it is endless, and is due again exactly one delay after
      a reading of the clock in that pass. */
  lemma FiresWhenDue(states: seq<Timers>, events: seq<Event>, id: nat)
    requires IsRun(states, events) && |events| >= 1 && id in states[0]
    requires forall e | e in events :: Untouched(e, id)
    requires var last := events[|events| - 1]; last.Pass? && last.now >= states[0][id].deadline
    requires forall i | 0 <= i < |events| - 1 && events[i].Pass? :: events[i].now < states[0][id].deadline
    ensures var e, n, t := states[0][id], events[|events| - 1].now, states[|events|];
      && FiringTimes(events, id) == [n]
      && (id in t <==> e.remaining > 1)
      && (id in t ==>
            && t[id].delay == e.delay && t[id].sequence == e.sequence
            && t[id].remaining == (if e.remaining == 0xFFFF_FFFF then 0xFFFF_FFFF else e.remaining - 1)
            && IsReading(events[|events| - 1].clock, t[id].deadline - e.delay))
  {
    WaitsInFront(states, events, id);
    var k := |events| - 1;
    FiringOfOne(states[k], events[k], states[k + 1], id);
  }

  lemma WaitsInFront(states: seq<Timers>, events: seq<Event>, id: nat)
    requires IsRun(states, events) && |events| >= 1 && id in states[0]
    requires forall e | e in events :: Untouched(e, id)
    requires forall i | 0 <= i < |events| - 1 && events[i].Pass? :: events[i].now < states[0][id].deadline
    ensures var k := |events| - 1;
      && StepTo(states[k], events[k], states[k + 1])
      && FiringTimes(events[..k], id) == [] && id in states[k] && states[k][id] == states[0][id]
  {
    var k := |events| - 1;
    FrontIsRun(states, events);
    var front := events[..k];
    assert forall i | 0 <= i < k :: front[i] == events[i] && events[i] in events;
    WaitsUnchanged(states[..k + 1], front, id);
  }

  lemma FiringOfOne(m: Timers, pass: Event, t: Timers, id: nat)
    requires StepTo(m, pass, t) && pass.Pass? && id in m && m[id].deadline <= pass.now
    ensures Fires(pass, id) && (id in t <==> m[id].remaining > 1)
    ensures id in t ==>
      && t[id].delay == m[id].delay && t[id].sequence == m[id].sequence
      && t[id].remaining == (if m[id].remaining == 0xFFFF_FFFF then 0xFFFF_FFFF else m[id].remaining - 1)
      && IsReading(pass.clock, t[id].deadline - m[id].delay)
  {
    PassEffect(m, pass.now, pass.clock, pass.fired, t);
    assert FiresAndStays(m, pass.now, id) <==> m[id].remaining > 1;
  }
}
