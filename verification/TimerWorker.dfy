/** The timer worker of `src/event_loop.rs`: a map of timers, an ordered index over it, a shared
    counter, and the firing pass. The index and the counter are proved to be functions of the map,
    so the specification speaks of the map alone. */
module TimerWorker {
  import opened Prelude

  const U32_MAX: nat := 0xFFFF_FFFF

  /** Clock values are integers that the environment supplies; delays are not negative. */
  type Instant = int

  datatype TimerEntry = TimerEntry(deadline: Instant, delay: nat, remaining: nat, sequence: nat)

  type Timers = map<nat, TimerEntry>

  /** An element of the ordered index. */
  datatype IndexKey = IndexKey(deadline: Instant, sequence: nat, id: nat)

  datatype TimerCommand =
    | ScheduleTimeout(id: nat, deadline: Instant, delay: nat, sequence: nat)
    | ScheduleInterval(id: nat, deadline: Instant, delay: nat, repeatCount: nat, sequence: nat)
    | Cancel(id: nat)
    | CancelWithAck(id: nat)
    | Clear
    | ClearWithAck
    | Shutdown
    | ShutdownWithAck

  // ------------------------------------------------------------------ specification on the map

  function Repeats(repeatCount: nat): nat { if repeatCount == 0 then U32_MAX else repeatCount }

  function Handled(m: Timers, cmd: TimerCommand): Timers {
    match cmd
    case ScheduleTimeout(id, deadline, delay, sequence) => m[id := TimerEntry(deadline, delay, 1, sequence)]
    case ScheduleInterval(id, deadline, delay, repeatCount, sequence) =>
      m[id := TimerEntry(deadline, delay, Repeats(repeatCount), sequence)]
    case Cancel(id) => m - {id}
    case CancelWithAck(id) => m - {id}
    case _ => map[]
  }

  predicate Before(a: IndexKey, b: IndexKey) {
    || a.deadline < b.deadline
    || (a.deadline == b.deadline && a.sequence < b.sequence)
    || (a.deadline == b.deadline && a.sequence == b.sequence && a.id < b.id)
  }

  function KeyOf(m: Timers, id: nat): IndexKey
    requires id in m
  {
    IndexKey(m[id].deadline, m[id].sequence, id)
  }

  ghost function IndexOf(m: Timers): set<IndexKey> { set id | id in m :: KeyOf(m, id) }

  /** `fired` lists the timers of `m` due at `now`, all of them, each once, by (deadline, sequence, id). */
  ghost predicate IsDueOrder(m: Timers, now: Instant, fired: seq<nat>) {
    && (forall id :: id in fired <==> id in m && m[id].deadline <= now)
    && (forall i, j | 0 <= i < j < |fired| :: Before(KeyOf(m, fired[i]), KeyOf(m, fired[j])))
  }

  function Left(remaining: nat): nat { if remaining == U32_MAX || remaining == 0 then remaining else remaining - 1 }

  /** The fired timers that are armed again, in firing order. */
  function Rearming(m: Timers, fired: seq<nat>): (r: seq<nat>)
    requires forall id | id in fired :: id in m
    ensures forall id :: id in r <==> id in fired && m[id].remaining > 1
    ensures |r| <= |fired|
  {
    if fired == [] then []
    else
      var last := fired[|fired| - 1];
      Rearming(m, fired[..|fired| - 1]) + if m[last].remaining > 1 then [last] else []
  }

  /** The map after the timers `fired` went off, when the clock read `clock(i)` while the i-th
      re-armed timer was put back. */
  ghost predicate FiredTo(m: Timers, fired: seq<nat>, clock: nat -> Instant, t: Timers)
    requires forall id | id in fired :: id in m
  {
    var again := Rearming(m, fired);
    && (forall id :: id in t <==> id in m && (id !in fired || m[id].remaining > 1))
    && (forall id | id in t && id !in fired :: t[id] == m[id])
    && (forall i | 0 <= i < |again| :: again[i] in t && t[again[i]] == AfterFiring(m[again[i]], clock(i)))
  }

  function AfterFiring(e: TimerEntry, reading: Instant): TimerEntry {
    TimerEntry(reading + e.delay, e.delay, Left(e.remaining), e.sequence)
  }

  // ------------------------------------------------------------------ order and index

  lemma {:induction false} LeastExists(keys: set<IndexKey>) returns (least: IndexKey)
    requires keys != {}
    ensures least in keys && forall k | k in keys :: k == least || Before(least, k)
    decreases |keys|
  {
    var x :| x in keys;
    var rest := keys - {x};
    if rest == {} {
      least := x;
      assert keys == {x};
    } else {
      var y := LeastExists(rest);
      least := if Before(x, y) then x else y;
      assert keys == rest + {x};
    }
  }

  /** The firing order of a pass is determined by the map and the clock value. */
  lemma {:induction false} DueOrderIsUnique(m: Timers, now: Instant, a: seq<nat>, b: seq<nat>)
    requires IsDueOrder(m, now, a) && IsDueOrder(m, now, b)
    ensures a == b
  {
    SortedSameElements(m, a, b);
  }

  lemma {:induction false} SortedSameElements(m: Timers, a: seq<nat>, b: seq<nat>)
    requires forall id :: id in a <==> id in b
    requires forall id | id in a :: id in m
    requires forall i, j | 0 <= i < j < |a| :: Before(KeyOf(m, a[i]), KeyOf(m, a[j]))
    requires forall i, j | 0 <= i < j < |b| :: Before(KeyOf(m, b[i]), KeyOf(m, b[j]))
    ensures a == b
    decreases |a|
  {
    if a == [] {
      assert forall i | 0 <= i < |b| :: b[i] in b;
    } else {
      assert a[0] in a && a[0] in b;
      assert b[0] in b && b[0] in a;
      assert a[0] == b[0];
      forall id ensures id in a[1..] <==> id in b[1..] {
        assert id in a <==> id == a[0] || id in a[1..];
        assert id in b <==> id == b[0] || id in b[1..];
        assert a[0] !in a[1..] && b[0] !in b[1..];
      }
      SortedSameElements(m, a[1..], b[1..]);
      assert a == [a[0]] + a[1..] && b == [b[0]] + b[1..];
    }
  }

  lemma RearmingAppend(m: Timers, fired: seq<nat>, id: nat)
    requires id in m && forall x | x in fired :: x in m
    ensures Rearming(m, fired + [id]) == Rearming(m, fired) + if m[id].remaining > 1 then [id] else []
  {
    assert (fired + [id])[..|fired|] == fired;
  }

  lemma {:induction false} RearmingDistinct(m: Timers, fired: seq<nat>)
    requires Distinct(fired) && forall x | x in fired :: x in m
    ensures Distinct(Rearming(m, fired))
  {
    if fired != [] {
      var front := fired[..|fired| - 1];
      RearmingDistinct(m, front);
      assert fired[|fired| - 1] !in front;
    }
  }

  lemma IndexWithout(m: Timers, id: nat)
    requires id in m
    ensures IndexOf(m - {id}) == IndexOf(m) - {KeyOf(m, id)}
    ensures |m - {id}| == |m| - 1
  {
    assert (m - {id}).Keys + {id} == m.Keys;
    SetAddSize((m - {id}).Keys, id);
    forall k ensures k in IndexOf(m - {id}) <==> k in IndexOf(m) - {KeyOf(m, id)} {
      if k in IndexOf(m) && k != KeyOf(m, id) {
        var x :| x in m && KeyOf(m, x) == k;
        assert x in m - {id} && KeyOf(m - {id}, x) == k;
      }
      if k in IndexOf(m - {id}) {
        var x :| x in m - {id} && KeyOf(m - {id}, x) == k;
        assert x in m && KeyOf(m, x) == k;
      }
    }
  }

  lemma IndexWith(m: Timers, id: nat, e: TimerEntry)
    requires id !in m
    ensures IndexOf(m[id := e]) == IndexOf(m) + {IndexKey(e.deadline, e.sequence, id)}
    ensures |m[id := e]| == |m| + 1
  {
    var t := m[id := e];
    assert t - {id} == m;
    IndexWithout(t, id);
    assert KeyOf(t, id) in IndexOf(t);
  }

  // ------------------------------------------------------------------ the popping loop

  /** `fired` has been popped from `m`, least key first, and `s` is what remains. */
  ghost predicate Popping(m: Timers, now: Instant, s: Timers, fired: seq<nat>) {
    && (forall id :: id in s <==> id in m && id !in fired)
    && (forall id | id in s :: s[id] == m[id])
    && (forall id | id in fired :: id in m && m[id].deadline <= now)
    && (forall i, j | 0 <= i < j < |fired| :: Before(KeyOf(m, fired[i]), KeyOf(m, fired[j])))
    && (forall x, id | x in fired && id in s :: Before(KeyOf(m, x), KeyOf(m, id)))
  }

  ghost predicate IsLeast(s: Timers, id: nat) {
    id in s && forall x | x in s :: x == id || Before(KeyOf(s, id), KeyOf(s, x))
  }

  lemma PopOne(m: Timers, now: Instant, s: Timers, fired: seq<nat>, id: nat)
    requires Popping(m, now, s, fired) && IsLeast(s, id) && s[id].deadline <= now
    ensures Popping(m, now, s - {id}, fired + [id]) && m[id] == s[id]
  {
    var all := fired + [id];
    assert m[id] == s[id];
    forall i, j | 0 <= i < j < |all| ensures Before(KeyOf(m, all[i]), KeyOf(m, all[j])) {
      if j == |fired| { assert fired[i] in fired; }
    }
    forall x, y | x in all && y in s - {id} ensures Before(KeyOf(m, x), KeyOf(m, y)) {
      assert KeyOf(s, y) == KeyOf(m, y);
      if x == id { assert KeyOf(s, id) == KeyOf(m, id); }
    }
  }

  lemma NoteOne(m: Timers, fired: seq<nat>, again: seq<(nat, TimerEntry)>, id: nat)
    requires id in m && (forall x | x in fired :: x in m) && Noted(m, fired, again)
    ensures Noted(m, fired + [id], again + if m[id].remaining > 1 then [Note(m, id)] else [])
  {
    RearmingAppend(m, fired, id);
  }

  lemma NotesAreDistinct(m: Timers, fired: seq<nat>, again: seq<(nat, TimerEntry)>)
    requires Distinct(fired) && (forall id | id in fired :: id in m) && Noted(m, fired, again)
    ensures forall i, j | 0 <= i < j < |again| :: again[i].0 != again[j].0
    ensures forall i | 0 <= i < |again| :: again[i].0 in fired
  {
    RearmingDistinct(m, fired);
    assert forall i | 0 <= i < |again| :: again[i].0 == Rearming(m, fired)[i];
  }

  lemma PoppedAll(m: Timers, now: Instant, s: Timers, fired: seq<nat>)
    requires Popping(m, now, s, fired) && forall id | id in s :: s[id].deadline > now
    ensures IsDueOrder(m, now, fired) && Distinct(fired)
  {
    forall id | id in m && m[id].deadline <= now ensures id in fired {
      assert id !in s;
    }
  }

  /** What the pass notes about the timers it will put back. */
  ghost predicate Noted(m: Timers, fired: seq<nat>, again: seq<(nat, TimerEntry)>)
    requires forall id | id in fired :: id in m
  {
    && |again| == |Rearming(m, fired)|
    && forall i | 0 <= i < |again| :: again[i] == Note(m, Rearming(m, fired)[i])
  }

  function Note(m: Timers, id: nat): (nat, TimerEntry)
    requires id in m
  {
    (id, m[id].(remaining := Left(m[id].remaining)))
  }

  // ------------------------------------------------------------------ the re-arming loop

  /** The first `i` noted timers have been put back on top of `popped`. */
  ghost predicate Rearmed(popped: Timers, again: seq<(nat, TimerEntry)>, clock: nat -> Instant, i: nat, s: Timers) {
    && i <= |again|
    && (forall id :: id in s <==> id in popped || exists j :: 0 <= j < i && again[j].0 == id)
    && (forall id | id in popped :: id in s && s[id] == popped[id])
    && (forall j | 0 <= j < i :: again[j].0 in s && s[again[j].0] == PutBack(again[j].1, clock(j)))
  }

  function PutBack(e: TimerEntry, reading: Instant): TimerEntry { e.(deadline := reading + e.delay) }

  lemma RearmOne(popped: Timers, again: seq<(nat, TimerEntry)>, clock: nat -> Instant, i: nat, s: Timers)
    requires Rearmed(popped, again, clock, i, s) && i < |again|
    requires forall j | 0 <= j < i :: again[j].0 != again[i].0
    requires again[i].0 !in popped
    ensures again[i].0 !in s
    ensures Rearmed(popped, again, clock, i + 1, s[again[i].0 := PutBack(again[i].1, clock(i))])
  {
    var t := s[again[i].0 := PutBack(again[i].1, clock(i))];
    forall id ensures id in t <==> id in popped || exists j :: 0 <= j < i + 1 && again[j].0 == id {
      if exists j :: 0 <= j < i && again[j].0 == id {
        var j :| 0 <= j < i && again[j].0 == id;
        assert 0 <= j < i + 1 && again[j].0 == id;
      }
    }
  }

  lemma RearmedAll(m: Timers, fired: seq<nat>, popped: Timers, again: seq<(nat, TimerEntry)>,
                   clock: nat -> Instant, t: Timers)
    requires forall id | id in fired :: id in m
    requires forall id :: id in popped <==> id in m && id !in fired
    requires forall id | id in popped :: popped[id] == m[id]
    requires Noted(m, fired, again) && Rearmed(popped, again, clock, |again|, t)
    ensures FiredTo(m, fired, clock, t)
  {
    var r := Rearming(m, fired);
    forall id ensures id in t <==> id in m && (id !in fired || m[id].remaining > 1) {
      if id in r {
        var j :| 0 <= j < |r| && r[j] == id;
        assert again[j].0 == id;
      }
    }
    forall i | 0 <= i < |r| ensures r[i] in t && t[r[i]] == AfterFiring(m[r[i]], clock(i)) {
      assert again[i] == Note(m, r[i]);
    }
  }

  // ------------------------------------------------------------------ the worker

  class Worker {
    var scheduled: Timers
    var index: set<IndexKey>
    var count: nat
    var firedQueue: seq<nat>
    var wakes: nat

    /** The index is the image of the map and the counter its size. */
    ghost predicate Valid() reads this {
      index == IndexOf(scheduled) && count == |scheduled|
    }

    constructor ()
      ensures Valid() && scheduled == map[] && firedQueue == []
    {
      scheduled, index, count, firedQueue, wakes := map[], {}, 0, [], 0;
    }

    method Insert(id: nat, entry: TimerEntry)
      requires Valid()
      modifies this`scheduled, this`index, this`count
      ensures Valid() && scheduled == old(scheduled)[id := entry]
    {
      var isNew := id !in scheduled;
      if !isNew {
        IndexWithout(scheduled, id);
        index := index - {KeyOf(scheduled, id)};
      }
      assert isNew ==> scheduled - {id} == scheduled;
      assert scheduled[id := entry] == (scheduled - {id})[id := entry];
      IndexWith(scheduled - {id}, id, entry);
      scheduled := scheduled[id := entry];
      index := index + {IndexKey(entry.deadline, entry.sequence, id)};
      if isNew {
        count := count + 1;
      }
    }

    method Remove(id: nat) returns (removed: bool)
      requires Valid()
      modifies this`scheduled, this`index, this`count
      ensures Valid() && scheduled == old(scheduled) - {id} && removed == (id in old(scheduled))
    {
      removed := id in scheduled;
      if removed {
        IndexWithout(scheduled, id);
        index := index - {KeyOf(scheduled, id)};
        scheduled := scheduled - {id};
        count := WrappingSub(count, 1);
      } else {
        assert scheduled - {id} == scheduled;
      }
    }

    method RemoveAll()
      requires Valid()
      modifies this`scheduled, this`index, this`count, this`wakes
      ensures Valid() && scheduled == map[] && wakes == old(wakes) + 1
    {
      var n := |scheduled|;
      scheduled, index := map[], {};
      count := WrappingSub(count, n);
      wakes := wakes + 1;
    }

    /** Returns false when the worker must stop; `ack` is what an acknowledged cancel reports. */
    method HandleTimerCommand(cmd: TimerCommand) returns (goOn: bool, ack: Option<bool>)
      requires Valid()
      modifies this`scheduled, this`index, this`count, this`wakes
      ensures Valid() && scheduled == Handled(old(scheduled), cmd)
      ensures goOn <==> !cmd.Shutdown? && !cmd.ShutdownWithAck?
      ensures ack == if cmd.CancelWithAck? then Some(cmd.id in old(scheduled)) else None
      ensures wakes > old(wakes) <==> cmd in {Clear, ClearWithAck, Shutdown, ShutdownWithAck}
    {
      goOn, ack := true, None;
      match cmd
      case ScheduleTimeout(id, deadline, delay, sequence) =>
        Insert(id, TimerEntry(deadline, delay, 1, sequence));
      case ScheduleInterval(id, deadline, delay, repeatCount, sequence) =>
        var repeats := if repeatCount == 0 then U32_MAX else repeatCount;
        Insert(id, TimerEntry(deadline, delay, repeats, sequence));
      case Cancel(id) =>
        var _ := Remove(id);
      case CancelWithAck(id) =>
        var removed := Remove(id);
        ack := Some(removed);
      case Clear => RemoveAll();
      case ClearWithAck => RemoveAll();
      case Shutdown => RemoveAll(); goOn := false;
      case ShutdownWithAck => RemoveAll(); goOn := false;
    }

    /** One firing pass at clock value `now`; `clock(i)` is what the clock shows when the i-th
        re-armed timer is put back. */
    method FireDueTimers(now: Instant, clock: nat -> Instant) returns (fired: seq<nat>)
      requires Valid()
      modifies this
      ensures Valid()
      ensures IsDueOrder(old(scheduled), now, fired)
      ensures FiredTo(old(scheduled), fired, clock, scheduled)
      ensures firedQueue == old(firedQueue) + fired
      ensures wakes > old(wakes) <==> fired != []
    {
      fired := PopAndPutBack(now, clock);
      if fired != [] {
        firedQueue := firedQueue + fired;
        wakes := wakes + 1;
      }
    }

    /** The two loops of the pass: all due timers are popped first, then the repeating ones put back. */
    method PopAndPutBack(now: Instant, clock: nat -> Instant) returns (fired: seq<nat>)
      requires Valid()
      modifies this`scheduled, this`index, this`count
      ensures Valid()
      ensures IsDueOrder(old(scheduled), now, fired)
      ensures FiredTo(old(scheduled), fired, clock, scheduled)
    {
      ghost var m := scheduled;
      var again: seq<(nat, TimerEntry)>;
      fired, again := PopDue(now);
      ghost var popped := scheduled;
      NotesAreDistinct(m, fired, again);
      PutBackAll(again, clock);
      RearmedAll(m, fired, popped, again, clock, scheduled);
    }

    /** Takes the due timers out of the map and the index, least index key first, and notes which
        of them will be put back. */
    method PopDue(now: Instant) returns (fired: seq<nat>, again: seq<(nat, TimerEntry)>)
      requires Valid()
      modifies this`scheduled, this`index, this`count
      ensures IsDueOrder(old(scheduled), now, fired) && Distinct(fired)
      ensures Popping(old(scheduled), now, scheduled, fired) && Noted(old(scheduled), fired, again)
      ensures index == IndexOf(scheduled) && count == |scheduled| + |again|
    {
      ghost var m := scheduled;
      fired, again := [], [];
      while true
        invariant Popping(m, now, scheduled, fired) && Noted(m, fired, again)
        invariant index == IndexOf(scheduled) && count == |scheduled| + |again|
        decreases |scheduled|
      {
        ghost var s := scheduled;
        var taken := TakeLeast(now);
        if taken.None? {
          PoppedAll(m, now, scheduled, fired);
          return;
        }
        var (id, entry) := taken.value;
        PopOne(m, now, s, fired, id);
        NoteOne(m, fired, again, id);
        fired := fired + [id];
        again := Settle(again, id, entry);
      }
    }

    /** A timer that fires is noted for later or leaves the count. */
    method Settle(again: seq<(nat, TimerEntry)>, id: nat, entry: TimerEntry) returns (longer: seq<(nat, TimerEntry)>)
      modifies this`count
      ensures longer == again + if entry.remaining > 1 then [(id, entry.(remaining := Left(entry.remaining)))] else []
      ensures count == if entry.remaining > 1 then old(count) else WrappingSub(old(count), 1)
    {
      if entry.remaining > 1 {
        var remaining := if entry.remaining == U32_MAX then U32_MAX else entry.remaining - 1;
        longer := again + [(id, entry.(remaining := remaining))];
      } else {
        longer := again;
        count := WrappingSub(count, 1);
      }
    }

    /** Takes out the timer with the least index key, if it is due. */
    method TakeLeast(now: Instant) returns (taken: Option<(nat, TimerEntry)>)
      requires index == IndexOf(scheduled)
      modifies this`scheduled, this`index
      ensures index == IndexOf(scheduled)
      ensures taken.None? ==> scheduled == old(scheduled) && forall id | id in scheduled :: scheduled[id].deadline > now
      ensures taken.Some? ==>
        && IsLeast(old(scheduled), taken.value.0) && taken.value.1 == old(scheduled)[taken.value.0]
        && taken.value.1.deadline <= now
        && scheduled == old(scheduled) - {taken.value.0} && |scheduled| == |old(scheduled)| - 1
    {
      assert forall x | x in scheduled :: KeyOf(scheduled, x) in index;
      if index == {} {
        return None;
      }
      ghost var known := LeastExists(index);
      var least :| least in index && forall k | k in index :: k == least || Before(least, k);
      if least.deadline > now {
        forall x | x in scheduled ensures scheduled[x].deadline > now {
          var k := KeyOf(scheduled, x);
          assert k in index;
          assert k == least || Before(least, k);
        }
        return None;
      }
      var id := least.id;
      var entry := scheduled[id];
      IndexWithout(scheduled, id);
      index := index - {least};
      scheduled := scheduled - {id};
      return Some((id, entry));
    }

    /** Puts the noted timers back, each with a deadline counted from the clock reading it gets. */
    method PutBackAll(again: seq<(nat, TimerEntry)>, clock: nat -> Instant)
      requires index == IndexOf(scheduled) && count == |scheduled| + |again|
      requires forall i, j | 0 <= i < j < |again| :: again[i].0 != again[j].0
      requires forall i | 0 <= i < |again| :: again[i].0 !in scheduled
      modifies this`scheduled, this`index
      ensures index == IndexOf(scheduled) && count == |scheduled|
      ensures Rearmed(old(scheduled), again, clock, |again|, scheduled)
    {
      var i := 0;
      while i < |again|
        invariant 0 <= i <= |again|
        invariant index == IndexOf(scheduled) && count == |scheduled| + |again| - i
        invariant Rearmed(old(scheduled), again, clock, i, scheduled)
      {
        var (id, entry) := again[i];
        RearmOne(old(scheduled), again, clock, i, scheduled);
        var next := entry.(deadline := clock(i) + entry.delay);
        IndexWith(scheduled, id, next);
        scheduled := scheduled[id := next];
        index := index + {IndexKey(next.deadline, next.sequence, id)};
        i := i + 1;
      }
    }
  }
}
