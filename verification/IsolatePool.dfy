/** The isolate pool (`src/isolate_pool.rs`). An isolate is a number; `created` counts the isolates
    made so far and is the number of the next one. */
module IsolatePool {
  import opened Prelude

  datatype State = State(
    available: seq<nat>, inUse: nat, initialized: bool, created: nat,
    acquires: nat, releases: nat, hits: nat, misses: nat)

  const NEW := State([], 0, false, 0, 0, 0, 0, 0)

  // ------------------------------------------------------------------ the operations, on values

  function Number(s: State, k: nat): nat { s.created + k }

  /** The next `n` isolates. */
  function Fresh(s: State, n: nat): (r: seq<nat>)
    ensures |r| == n && forall k | 0 <= k < n :: r[k] == s.created + k
  {
    seq(n, k requires 0 <= k < n => Number(s, k))
  }

  /** The state after creating `n` isolates and putting them at the back of the queue. */
  function Grown(s: State, n: nat): State { s.(available := s.available + Fresh(s, n), created := s.created + n) }

  function WarmupCount(max: nat, count: nat): nat {
    if max >= 16 then Min(Min(count, max) * 3 / 2, max) else Min(count, max)
  }

  function PreWarmTo(max: nat, s: State, count: nat): State {
    if s.initialized then s else Grown(s, WarmupCount(max, count)).(initialized := true)
  }

  /** How many isolates a hit adds: enough for a quarter of the capacity, if there is room. */
  function RefillCount(max: nat, s: State): nat {
    if |s.available| < max / 4 && |s.available| + s.inUse < max then
      Min(max / 4, max - |s.available| - s.inUse)
    else 0
  }

  /** The state after taking the front isolate. */
  function Popped(s: State): State
    requires s.available != []
  {
    s.(available := s.available[1..], inUse := s.inUse + 1, acquires := s.acquires + 1, hits := s.hits + 1)
  }

  function AcquireTo(max: nat, s: State): (State, Option<nat>) {
    if s.available != [] then (Grown(Popped(s), RefillCount(max, Popped(s))), Some(s.available[0]))
    else if s.inUse < max then
      (s.(inUse := s.inUse + 1, created := s.created + 1, acquires := s.acquires + 1, misses := s.misses + 1),
       Some(s.created))
    else (s.(acquires := s.acquires + 1), None)
  }

  function ReleaseTo(max: nat, s: State, isolate: nat): State {
    s.(available := if |s.available| < max then s.available + [isolate] else s.available,
       inUse := if s.inUse > 0 then s.inUse - 1 else 0,
       releases := s.releases + 1)
  }

  function ShrinkTo(s: State): State { s.(available := s.available[..Min(|s.available|, 1)]) }

  // ------------------------------------------------------------------ the class

  class Pool {
    const maxSize: nat
    var available: seq<nat>
    var inUse: nat
    var initialized: bool
    var created: nat
    var acquires: nat
    var releases: nat
    var hits: nat
    var misses: nat

    ghost function Now(): State
      reads this
    {
      State(available, inUse, initialized, created, acquires, releases, hits, misses)
    }

    constructor (max: nat)
      ensures maxSize == max && Now() == NEW
      ensures available == [] && !initialized && inUse == created == acquires == releases == hits == misses == 0
    {
      maxSize, available, inUse, initialized := max, [], 0, false;
      created, acquires, releases, hits, misses := 0, 0, 0, 0, 0;
    }

    /** Creating isolates one by one. */
    method Push(n: nat)
      modifies `available, `created
      ensures Now() == Grown(old(Now()), n)
    {
      ghost var before := Now();
      for k := 0 to n
        invariant Now() == Grown(before, k)
      {
        available, created := available + [created], created + 1;
        assert Fresh(before, k + 1) == Fresh(before, k) + [before.created + k];
      }
    }

    method PreWarm(count: nat)
      modifies `available, `created, `initialized
      ensures Now() == PreWarmTo(maxSize, old(Now()), count)
      ensures initialized && old(available) <= available
      ensures |available| - |old(available)| == created - old(created) ==
        if old(initialized) then 0
        else if maxSize < 16 then if count < maxSize then count else maxSize
        else if count + count / 2 < maxSize then count + count / 2 else maxSize
    {
      if initialized { return; }
      var actual := Min(count, maxSize);
      var warmup := if maxSize >= 16 then Min(actual * 3 / 2, maxSize) else actual;
      Push(warmup);
      initialized := true;
    }

    method Acquire() returns (isolate: Option<nat>)
      modifies `available, `inUse, `created, `acquires, `hits, `misses
      ensures (Now(), isolate) == AcquireTo(maxSize, old(Now()))
      ensures releases == old(releases) && initialized == old(initialized) && acquires == old(acquires) + 1
    {
      acquires := acquires + 1;
      if available != [] {
        isolate := Some(available[0]);
        available, inUse, hits := available[1..], inUse + 1, hits + 1;
        assert available + Fresh(Now(), 0) == available;
        if |available| < maxSize / 4 && |available| + inUse < maxSize {
          var needed: nat := Min(maxSize / 4, maxSize - |available| - inUse);
          Refill(needed);
        }
      } else if inUse < maxSize {
        inUse, misses := inUse + 1, misses + 1;
        isolate := Some(created);
        created := created + 1;
      } else {
        isolate := None;
      }
    }

    /** The refill loop of a hit. Its break is never taken: the count already fits the room. */
    method Refill(needed: nat)
      requires |available| + inUse + needed <= maxSize
      modifies `available, `created
      ensures Now() == Grown(old(Now()), needed)
    {
      ghost var before := Now();
      for k := 0 to needed
        invariant Now() == Grown(before, k)
      {
        if |available| + inUse >= maxSize {
          assert false;
          break;
        }
        available, created := available + [created], created + 1;
        assert Fresh(before, k + 1) == Fresh(before, k) + [before.created + k];
      }
    }

    method Release(isolate: nat)
      modifies `available, `inUse, `releases
      ensures Now() == ReleaseTo(maxSize, old(Now()), isolate)
      ensures available == old(available) + if |old(available)| < maxSize then [isolate] else []
      ensures inUse == if old(inUse) == 0 then 0 else old(inUse) - 1
      ensures releases == old(releases) + 1
    {
      releases := releases + 1;
      if |available| < maxSize {
        available := available + [isolate];
      }
      inUse := if inUse > 0 then inUse - 1 else 0;
    }

    method ShrinkToFit() returns (dropped: nat)
      modifies `available
      ensures Now() == ShrinkTo(old(Now())) && dropped == |old(available)| - |available|
      ensures available == if old(available) == [] then [] else [old(available)[0]]
    {
      var before := |available|;
      while |available| > 1
        invariant |available| <= before && available == old(available)[..|available|]
        invariant before > 0 ==> |available| > 0
      {
        available := available[..|available| - 1];
      }
      dropped := before - |available|;
    }
  }

  /** `initialize_pool`: a new pool, warmed to three quarters of its capacity, at least four. A large pool
      comes out full, because its warm-up creates half as many again. */
  method InitializePool(max: nat) returns (pool: Pool)
    ensures fresh(pool) && pool.maxSize == max && pool.Now() == WarmPool(max)
    ensures |pool.available| == pool.created ==
      if max <= 4 || max >= 16 then max else if max <= 6 then 4 else max - (max + 3) / 4
  {
    pool := new Pool(max);
    pool.PreWarm(InitialCount(max));
  }

  /** The warm-up count of `initialize_pool`. */
  function InitialCount(max: nat): nat { if max * 3 / 4 >= 4 then max * 3 / 4 else 4 }

  function WarmPool(max: nat): State { PreWarmTo(max, NEW, InitialCount(max)) }

  // ------------------------------------------------------------------ capacity

  predicate WithinCapacity(max: nat, s: State) { |s.available| + s.inUse <= max }

  /** What any acquire does in a pool within its capacity: it fails exactly when all isolates are in
      use, and a hit leaves a quarter of the capacity available, or as much as there is room for. */
  lemma AcquireFacts(max: nat, s: State)
    requires WithinCapacity(max, s)
    ensures s.available != [] ==>
      var (t, isolate) := AcquireTo(max, s);
      var left, quarter := |s.available| - 1, max / 4;
      var room := max - left - t.inUse;
      var added := if left >= quarter then 0 else if room < quarter then room else quarter;
      && isolate == Some(s.available[0]) && t.created == s.created + added
      && |t.available| == left + added && t.available[..left] == s.available[1..]
      && (forall k | left <= k < left + added :: t.available[k] == s.created + k - left)
      && t.hits == s.hits + 1
    ensures s.available == [] && s.inUse < max ==>
      var (t, isolate) := AcquireTo(max, s);
      isolate == Some(s.created) && t.created == s.created + 1 && t.available == [] && t.misses == s.misses + 1
    ensures var (t, isolate) := AcquireTo(max, s);
      && WithinCapacity(max, t)
      && (isolate.None? <==> s.inUse == max)
      && (s.available != [] ==> |t.available| >= Min(max / 4, max - t.inUse))
      && t.acquires - t.hits - t.misses == s.acquires - s.hits - s.misses + (if isolate.None? then 1 else 0)
      && t.inUse == s.inUse + (if isolate.Some? then 1 else 0)
  {
  }

  datatype Step = PreWarm(count: nat) | Acquire | Release(isolate: nat) | Shrink

  function StepTo(max: nat, s: State, step: Step): State {
    match step
    case PreWarm(count) => PreWarmTo(max, s, count)
    case Acquire => AcquireTo(max, s).0
    case Release(isolate) => ReleaseTo(max, s, isolate)
    case Shrink => ShrinkTo(s)
  }

  /** The state of a new pool after some steps. */
  function RunTo(max: nat, steps: seq<Step>): State {
    if steps == [] then NEW else StepTo(max, RunTo(max, steps[..|steps| - 1]), steps[|steps| - 1])
  }

  /** The acquires of a run that were refused. */
  function Refusals(max: nat, steps: seq<Step>): nat {
    if steps == [] then 0
    else
      var front := steps[..|steps| - 1];
      Refusals(max, front) +
        if steps[|steps| - 1].Acquire? && AcquireTo(max, RunTo(max, front)).1.None? then 1 else 0
  }

  ghost predicate AlwaysWithinCapacity(max: nat, steps: seq<Step>) {
    forall k | 0 <= k <= |steps| :: WithinCapacity(max, RunTo(max, steps[..k]))
  }

  /** The number of steps before the first warm-up. */
  function BeforeWarmup(steps: seq<Step>): (n: nat)
    ensures n <= |steps| && (n < |steps| ==> steps[n].PreWarm?)
    ensures forall i | 0 <= i < n :: !steps[i].PreWarm?
  {
    if steps == [] || steps[0].PreWarm? then 0 else 1 + BeforeWarmup(steps[1..])
  }

  /** The first warm-up, if there is one, finds room beside what earlier steps handed out and put
      back. */
  predicate FirstWarmupFits(max: nat, steps: seq<Step>) {
    var n := BeforeWarmup(steps);
    n < |steps| ==>
      var s := RunTo(max, steps[..n]);
      WarmupCount(max, steps[n].count) <= max - |s.available| - s.inUse
  }

  lemma StepKeepsCapacity(max: nat, s: State, step: Step)
    requires WithinCapacity(max, s) && (step.PreWarm? ==> s.initialized)
    ensures WithinCapacity(max, StepTo(max, s, step))
  {
    if step.Acquire? { AcquireFacts(max, s); }
  }

  lemma {:induction false} InitializedIff(max: nat, steps: seq<Step>)
    ensures RunTo(max, steps).initialized <==> BeforeWarmup(steps) < |steps|
    decreases |steps|
  {
    if steps != [] {
      var front := steps[..|steps| - 1];
      InitializedIff(max, front);
      FirstWarmupStays(steps, |front|);
      if BeforeWarmup(front) < |front| { assert steps[BeforeWarmup(front)].PreWarm?; }
    }
  }

  /** The first warm-up of a part of a run is the first one of the whole. */
  lemma FirstWarmupStays(steps: seq<Step>, k: nat)
    requires k <= |steps|
    ensures var n := BeforeWarmup(steps); BeforeWarmup(steps[..k]) == if n < k then n else k
  {
    var n, m := BeforeWarmup(steps), BeforeWarmup(steps[..k]);
    if m < k { assert steps[..k][m] == steps[m]; }
    if n < k { assert steps[..k][n] == steps[n]; }
  }

  lemma {:induction false} FittingRunKeepsCapacity(max: nat, steps: seq<Step>)
    requires FirstWarmupFits(max, steps)
    ensures WithinCapacity(max, RunTo(max, steps))
    decreases |steps|
  {
    if steps != [] {
      var k := |steps| - 1;
      var n, front := BeforeWarmup(steps), steps[..k];
      FirstWarmupStays(steps, k);
      assert n < k ==> front[..n] == steps[..n] && front[n] == steps[n];
      FittingRunKeepsCapacity(max, front);
      InitializedIff(max, front);
      if n != k {
        StepKeepsCapacity(max, RunTo(max, front), steps[k]);
      }
    }
  }

  /** A run from a new pool, with warm-ups anywhere and releases of whatever isolates, stays within the
      capacity all the time exactly when its first warm-up fits at the moment it is called. */
  lemma CapacityHoldsIff(max: nat, steps: seq<Step>)
    ensures AlwaysWithinCapacity(max, steps) <==> FirstWarmupFits(max, steps)
  {
    var n := BeforeWarmup(steps);
    if FirstWarmupFits(max, steps) {
      forall k | 0 <= k <= |steps| ensures WithinCapacity(max, RunTo(max, steps[..k])) {
        FirstWarmupStays(steps, k);
        assert n < k ==> steps[..k][..n] == steps[..n];
        FittingRunKeepsCapacity(max, steps[..k]);
      }
    } else {
      AfterFirstWarmup(max, steps);
      assert !WithinCapacity(max, RunTo(max, steps[..n + 1]));
    }
  }

  lemma AfterFirstWarmup(max: nat, steps: seq<Step>)
    requires BeforeWarmup(steps) < |steps|
    ensures var n := BeforeWarmup(steps); var s := RunTo(max, steps[..n]);
      RunTo(max, steps[..n + 1]) == Grown(s, WarmupCount(max, steps[n].count)).(initialized := true)
  {
    var n := BeforeWarmup(steps);
    InitializedIff(max, steps[..n]);
    FirstWarmupStays(steps, n);
    var next := steps[..n + 1];
    assert next[..n] == steps[..n] && next[n] == steps[n];
  }

  /** Warming a pool before anything else always fits, and so does never warming it. */
  lemma FreshWarmupFits(max: nat, steps: seq<Step>)
    requires BeforeWarmup(steps) == 0 || BeforeWarmup(steps) == |steps|
    ensures AlwaysWithinCapacity(max, steps)
  {
    assert steps[..0] == [];
    CapacityHoldsIff(max, steps);
  }

  /** One isolate in use is enough for a later warm-up to exceed the capacity. */
  lemma LatePreWarmBreaksCapacity()
    ensures !AlwaysWithinCapacity(1, [Acquire, PreWarm(1)])
  {
    var steps := [Acquire, PreWarm(1)];
    assert steps[1..][0] == PreWarm(1);
    assert BeforeWarmup(steps) == 1;
    assert steps[..1] == [Acquire] && [Acquire][..0] == [];
    CapacityHoldsIff(1, steps);
  }

  /** Every acquire of a run is a hit, a miss or a refusal. */
  lemma {:induction false} AcquiresAddUp(max: nat, steps: seq<Step>)
    ensures var s := RunTo(max, steps); s.acquires == s.hits + s.misses + Refusals(max, steps)
    decreases |steps|
  {
    if steps != [] {
      AcquiresAddUp(max, steps[..|steps| - 1]);
    }
  }

  // ------------------------------------------------------------------ ownership

  /** The isolates handed out and not given back. */
  function Held(max: nat, steps: seq<Step>): set<nat> {
    if steps == [] then {}
    else
      var front, last := steps[..|steps| - 1], steps[|steps| - 1];
      var held := Held(max, front);
      match last
      case PreWarm(_) => held
      case Acquire =>
        var isolate := AcquireTo(max, RunTo(max, front)).1;
        if isolate.Some? then held + {isolate.value} else held
      case Release(isolate) => held - {isolate}
      case Shrink => held
  }

  ghost predicate ReleasesHeld(max: nat, steps: seq<Step>) {
    forall k | 0 <= k < |steps| && steps[k].Release? :: steps[k].isolate in Held(max, steps[..k])
  }

  ghost predicate Owned(s: State, held: set<nat>) {
    && Distinct(s.available)
    && (forall i | i in s.available :: i < s.created && i !in held)
    && (forall i | i in held :: i < s.created)
    && s.inUse == |held|
  }

  /** When only isolates that were handed out are given back, the pool counts exactly the held ones
      and never hands out an isolate that is still held. */
  lemma {:induction false} RunKeepsOwnership(max: nat, steps: seq<Step>)
    requires ReleasesHeld(max, steps)
    ensures var (s, held) := (RunTo(max, steps), Held(max, steps));
      var next := AcquireTo(max, s).1;
      Owned(s, held) && (next.Some? ==> next.value !in held)
    decreases |steps|
  {
    if steps != [] {
      var k := |steps| - 1;
      ReleasesHeldInFront(max, steps);
      RunKeepsOwnership(max, steps[..k]);
      StepKeepsOwnership(max, RunTo(max, steps[..k]), Held(max, steps[..k]), steps[k]);
    }
    AcquireKeepsOwnership(max, RunTo(max, steps), Held(max, steps));
  }

  lemma ReleasesHeldInFront(max: nat, steps: seq<Step>)
    requires ReleasesHeld(max, steps) && steps != []
    ensures var k := |steps| - 1;
      ReleasesHeld(max, steps[..k]) && (steps[k].Release? ==> steps[k].isolate in Held(max, steps[..k]))
  {
    var front := steps[..|steps| - 1];
    forall k | 0 <= k < |front| && front[k].Release? ensures front[k].isolate in Held(max, front[..k]) {
      assert front[..k] == steps[..k] && front[k] == steps[k];
    }
  }

  lemma StepKeepsOwnership(max: nat, s: State, held: set<nat>, step: Step)
    requires Owned(s, held) && (step.Release? ==> step.isolate in held)
    ensures Owned(StepTo(max, s, step),
                  match step
                  case PreWarm(_) => held
                  case Acquire =>
                    if AcquireTo(max, s).1.Some? then held + {AcquireTo(max, s).1.value} else held
                  case Release(isolate) => held - {isolate}
                  case Shrink => held)
  {
    match step
    case PreWarm(count) => GrowthKeepsOwnership(s, held, WarmupCount(max, count));
    case Acquire => AcquireKeepsOwnership(max, s, held);
    case Release(isolate) => ReleaseKeepsOwnership(max, s, held, isolate);
    case Shrink => assert forall i | i in ShrinkTo(s).available :: i in s.available;
  }

  lemma GrowthKeepsOwnership(s: State, held: set<nat>, n: nat)
    requires Owned(s, held)
    ensures Owned(Grown(s, n), held)
  {
    var more := s.available + Fresh(s, n);
    forall i, j | 0 <= i < j < |more| ensures more[i] != more[j] {
      if i < |s.available| <= j {
        assert s.available[i] in s.available;
      }
    }
  }

  lemma PopKeepsOwnership(s: State, held: set<nat>)
    requires Owned(s, held) && s.available != []
    ensures s.available[0] !in held && Owned(Popped(s), held + {s.available[0]})
  {
    var isolate, rest := s.available[0], s.available[1..];
    SetAddSize(held, isolate);
    assert isolate in s.available;
    forall i, j | 0 <= i < j < |rest| ensures rest[i] != rest[j] {
      assert rest[i] == s.available[i + 1] && rest[j] == s.available[j + 1];
    }
    forall i | i in rest ensures i < s.created && i !in held + {isolate} {
      var k :| 0 <= k < |rest| && rest[k] == i;
      assert i == s.available[k + 1] && i in s.available;
    }
  }

  lemma AcquireKeepsOwnership(max: nat, s: State, held: set<nat>)
    requires Owned(s, held)
    ensures var (t, isolate) := AcquireTo(max, s);
      if isolate.Some? then isolate.value !in held && Owned(t, held + {isolate.value}) else Owned(t, held)
  {
    if s.available != [] {
      PopKeepsOwnership(s, held);
      GrowthKeepsOwnership(Popped(s), held + {s.available[0]}, RefillCount(max, Popped(s)));
    } else if s.inUse < max {
      SetAddSize(held, s.created);
    }
  }

  lemma ReleaseKeepsOwnership(max: nat, s: State, held: set<nat>, isolate: nat)
    requires Owned(s, held) && isolate in held
    ensures Owned(ReleaseTo(max, s, isolate), held - {isolate})
    ensures WithinCapacity(max, s) ==> ReleaseTo(max, s, isolate).available == s.available + [isolate]
  {
    assert held == (held - {isolate}) + {isolate};
    SetAddSize(held - {isolate}, isolate);
  }
}
