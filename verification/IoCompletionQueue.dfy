/** The queue that hands finished I/O operations to the main thread (`src/event_loop.rs`), as
    atomic steps under any interleaving. */
module IoCompletionQueue {
  import opened Prelude

  datatype IoCompletion = IoCompletion(id: nat, ok: bool, payload: string)

  /** The fields all threads share. */
  datatype Shared = Shared(inner: seq<IoCompletion>, nextId: nat, pendingOps: nat)

  /** `begin_op` is CountOp then TakeId, `complete` is Push then Uncount, `drain` is Drain.
      `has_pending` only reads: the counter first, the queue later. */
  datatype Step = CountOp | TakeId | Push(done: IoCompletion) | Uncount(id: nat) | Drain

  function Effect(s: Shared, step: Step): Shared {
    match step
    case CountOp => s.(pendingOps := s.pendingOps + 1)
    case TakeId => s.(nextId := s.nextId + 1)
    case Push(c) => s.(inner := s.inner + [c])
    case Uncount(_) => s.(pendingOps := WrappingSub(s.pendingOps, 1))
    case Drain => s.(inner := [])
  }

  class Queue {
    var inner: seq<IoCompletion>
    var nextId: nat
    var pendingOps: nat

    ghost function View(): Shared reads this { Shared(inner, nextId, pendingOps) }

    constructor ()
      ensures View() == Shared([], 1, 0)
    {
      inner, nextId, pendingOps := [], 1, 0;
    }

    method AddPendingOp()
      modifies this`pendingOps
      ensures View() == Effect(old(View()), CountOp)
    {
      pendingOps := pendingOps + 1;
    }

    method AllocateId() returns (id: nat)
      modifies this`nextId
      ensures id == old(nextId) && View() == Effect(old(View()), TakeId)
    {
      id := nextId;
      nextId := nextId + 1;
    }

    method PushCompletion(id: nat, ok: bool, payload: string)
      modifies this`inner
      ensures View() == Effect(old(View()), Push(IoCompletion(id, ok, payload)))
    {
      inner := inner + [IoCompletion(id, ok, payload)];
    }

    method SubPendingOp(ghost id: nat)
      modifies this`pendingOps
      ensures View() == Effect(old(View()), Uncount(id))
    {
      pendingOps := WrappingSub(pendingOps, 1);
    }

    method DrainAll() returns (all: seq<IoCompletion>)
      modifies this`inner
      ensures all == old(inner) && View() == Effect(old(View()), Drain)
    {
      all := inner;
      inner := [];
    }
  }

  // ------------------------------------------------------------------ runs

  /** The shared fields, and what the threads have done: `counting` calls of `begin_op` are between
      their two increments, `begun` ids were handed out, `pushed` ids are between the two steps of
      `complete`, `done` ids are past them. `pushes` and `delivered` are the whole history. */
  datatype State = State(
    shared: Shared, counting: nat, begun: set<nat>, pushed: set<nat>, done: set<nat>,
    pushes: seq<IoCompletion>, delivered: seq<IoCompletion>)

  const INIT := State(Shared([], 1, 0), 0, {}, {}, {}, [], [])

  /** Each handed-out id is completed at most once, and only after it was handed out. */
  predicate Enabled(s: State, step: Step) {
    match step
    case CountOp => true
    case TakeId => s.counting > 0
    case Push(c) => c.id in s.begun && c.id !in s.pushed && c.id !in s.done
    case Uncount(id) => id in s.pushed
    case Drain => true
  }

  function Next(s: State, step: Step): State {
    var t := s.(shared := Effect(s.shared, step));
    match step
    case CountOp => t.(counting := s.counting + 1)
    case TakeId =>
      t.(counting := if s.counting > 0 then s.counting - 1 else 0, begun := s.begun + {s.shared.nextId})
    case Push(c) => t.(pushed := s.pushed + {c.id}, pushes := s.pushes + [c])
    case Uncount(id) => t.(pushed := s.pushed - {id}, done := s.done + {id})
    case Drain => t.(delivered := s.delivered + s.shared.inner)
  }

  /** A run of the protocol: every step is enabled in the state it is taken in. */
  ghost predicate IsRun(states: seq<State>, steps: seq<Step>) {
    && |states| == |steps| + 1 && states[0] == INIT
    && forall i | 0 <= i < |steps| :: Enabled(states[i], steps[i]) && states[i + 1] == Next(states[i], steps[i])
  }

  ghost predicate HasId(cs: seq<IoCompletion>, id: nat) { exists i :: 0 <= i < |cs| && cs[i].id == id }

  ghost predicate Inv(s: State) {
    && s.shared.nextId >= 1
    && (forall id :: id in s.begun <==> 1 <= id < s.shared.nextId)
    && s.pushed <= s.begun && s.done <= s.begun && s.pushed !! s.done
    && s.shared.pendingOps == s.counting + |s.begun - s.done|
    && s.delivered + s.shared.inner == s.pushes
    && (forall id :: HasId(s.pushes, id) <==> id in s.pushed || id in s.done)
    && (forall i, j | 0 <= i < j < |s.pushes| :: s.pushes[i].id != s.pushes[j].id)
  }

  lemma PushHasId(cs: seq<IoCompletion>, c: IoCompletion, id: nat)
    ensures HasId(cs + [c], id) <==> HasId(cs, id) || id == c.id
  {
    if HasId(cs, id) {
      var i :| 0 <= i < |cs| && cs[i].id == id;
      assert (cs + [c])[i].id == id;
    }
    assert (cs + [c])[|cs|] == c;
  }

  lemma PushKeepsInv(s: State, c: IoCompletion)
    requires Inv(s) && Enabled(s, Push(c))
    ensures Inv(Next(s, Push(c)))
  {
    var t := Next(s, Push(c));
    forall id ensures HasId(t.pushes, id) <==> id in t.pushed || id in t.done {
      PushHasId(s.pushes, c, id);
    }
    forall i | 0 <= i < |s.pushes| ensures s.pushes[i].id != c.id {
      assert HasId(s.pushes, s.pushes[i].id);
    }
    assert t.delivered + t.shared.inner == t.pushes;
  }

  lemma UncountKeepsInv(s: State, id: nat)
    requires Inv(s) && Enabled(s, Uncount(id))
    ensures Inv(Next(s, Uncount(id)))
  {
    var t := Next(s, Uncount(id));
    assert s.begun - s.done == (s.begun - t.done) + {id};
    assert forall x :: x in s.pushed || x in s.done <==> x in t.pushed || x in t.done;
  }

  lemma OneMoreOpen(begun: set<nat>, done: set<nat>, id: nat)
    requires id !in begun && id !in done
    ensures |(begun + {id}) - done| == |begun - done| + 1
  {
    SetAddSize(begun - done, id);
    assert (begun + {id}) - done == (begun - done) + {id};
  }

  lemma TakeIdKeepsInv(s: State)
    requires Inv(s) && Enabled(s, TakeId)
    ensures Inv(Next(s, TakeId))
  {
    OneMoreOpen(s.begun, s.done, s.shared.nextId);
  }

  lemma NextKeepsInv(s: State, step: Step)
    requires Inv(s) && Enabled(s, step)
    ensures Inv(Next(s, step))
    ensures s.done <= Next(s, step).done && s.begun <= Next(s, step).begun
  {
    match step
    case CountOp =>
    case TakeId => TakeIdKeepsInv(s);
    case Push(c) => PushKeepsInv(s, c);
    case Uncount(id) => UncountKeepsInv(s, id);
    case Drain => assert s.delivered + s.shared.inner + [] == s.pushes;
  }

  lemma {:induction false} RunKeepsInv(states: seq<State>, steps: seq<Step>, i: nat, j: nat)
    requires IsRun(states, steps) && i <= j < |states|
    ensures Inv(states[j]) && Inv(states[i])
    ensures states[i].done <= states[j].done && states[i].begun <= states[j].begun
    decreases j
  {
    if j > 0 {
      RunKeepsInv(states, steps, if i < j then i else j - 1, j - 1);
      NextKeepsInv(states[j - 1], steps[j - 1]);
    }
  }

  /** The answer of a `has_pending` call that reads the counter in `first` and, if that was zero,
      the queue in the later state `second`. */
  predicate HasPending(first: State, second: State) {
    first.shared.pendingOps > 0 || second.shared.inner != []
  }

  /** In every run: if `has_pending` answers false, every operation begun before that call has been
      handed out by a drain. The other threads may take any steps between the two reads. */
  lemma FalseMeansDelivered(states: seq<State>, steps: seq<Step>, i: nat, j: nat, id: nat)
    requires IsRun(states, steps) && i <= j < |states|
    requires !HasPending(states[i], states[j]) && id in states[i].begun
    ensures states[i].counting == 0
    ensures HasId(states[j].delivered, id)
  {
    RunKeepsInv(states, steps, i, j);
    assert states[i].begun - states[i].done == {};
    assert id in states[i].done;
    assert HasId(states[j].pushes, id);
    assert states[j].delivered == states[j].pushes;
  }

  /** And true is never answered without work: at the deciding read some operation was between its
      two ends, or a completion was waiting for a drain. */
  lemma TrueMeansWork(states: seq<State>, steps: seq<Step>, i: nat, j: nat)
    requires IsRun(states, steps) && i <= j < |states|
    ensures HasPending(states[i], states[j]) <==>
      || states[i].counting > 0
      || (exists id :: id in states[i].begun && id !in states[i].done)
      || (exists id :: HasId(states[j].pushes, id) && !HasId(states[j].delivered, id))
  {
    RunKeepsInv(states, steps, i, j);
    var a, b := states[i], states[j];
    if a.begun - a.done != {} {
      var id :| id in a.begun - a.done;
    }
    if b.shared.inner != [] {
      var k := |b.delivered|;
      assert b.pushes[k] == b.shared.inner[0];
      assert HasId(b.pushes, b.pushes[k].id);
      assert !HasId(b.delivered, b.pushes[k].id) by {
        assert forall m | 0 <= m < k :: b.delivered[m] == b.pushes[m];
      }
    } else {
      assert b.delivered == b.pushes;
    }
  }

  /** Drains hand out exactly the pushed completions, in push order and each once; what is not yet
      handed out is the queue; handed-out ids are distinct; the counter never wraps. */
  lemma DrainsAreThePushHistory(states: seq<State>, steps: seq<Step>, j: nat)
    requires IsRun(states, steps) && j < |states|
    ensures states[j].delivered + states[j].shared.inner == states[j].pushes
    ensures forall a, b | 0 <= a < b < |states[j].pushes| :: states[j].pushes[a].id != states[j].pushes[b].id
    ensures j < |steps| && steps[j].Uncount? ==> states[j].shared.pendingOps >= 1
    ensures j < |steps| && steps[j].TakeId? ==> states[j].shared.nextId !in states[j].begun
  {
    RunKeepsInv(states, steps, j, j);
    if j < |steps| && steps[j].Uncount? {
      assert steps[j].id in states[j].begun - states[j].done;
    }
  }

  /** The order of the two reads matters: reading the queue in state `i` and the counter in the
      later state `j` can find both empty while a begun operation was never handed out. */
  lemma SwappedReadsMissWork() returns (states: seq<State>, steps: seq<Step>, i: nat, j: nat, id: nat)
    ensures IsRun(states, steps) && i <= j < |states|
    ensures states[i].shared.inner == [] && states[j].shared.pendingOps == 0
    ensures id in states[i].begun && !HasId(states[j].delivered, id)
  {
    var c := IoCompletion(1, true, "");
    steps := [CountOp, TakeId, Push(c), Uncount(1)];
    var s1 := Next(INIT, CountOp);
    var s2 := Next(s1, TakeId);
    var s3 := Next(s2, Push(c));
    var s4 := Next(s3, Uncount(1));
    states := [INIT, s1, s2, s3, s4];
    i, j, id := 2, 4, 1;
  }
}
