/** CommonJS `require` as `src/nodejs.rs` runs it: a cache of finished modules, a set of
    modules whose body is on the stack, and a re-entrant run of each module body. */
module ModuleLoader {

  type Key = string
  type ObjectId = nat

  /** A JavaScript value, as far as `require` tells values apart. */
  datatype Value = BuiltIn(name: string) | Object(id: ObjectId) | Primitive

  predicate IsObject(v: Value) { !v.Primitive? }

  /** What happens before the body starts: no such file, no text, no script, or a body that runs. */
  datatype FileState = Missing | Unreadable | Uncompilable | Runnable

  /** The next thing a running body does. */
  datatype Action = Require(name: string) | Return(value: Value) | Throw

  /** The environment of one execution. `resolve` is the path resolution, `file` the file system,
      and `next(k, own, replies)` the behaviour of the body of module `k`: what it does after its
      earlier `require` calls returned `replies`, where `own` is its own exports object.
      A body may make any number of `require` calls that its replies lead it to, up to `maxCalls`. */
  datatype World = World(
    keys: set<Key>,
    resolve: string -> Key,
    file: Key -> FileState,
    next: (Key, ObjectId, seq<Value>) -> Action,
    maxCalls: Key -> nat)

  predicate IsBuiltIn(name: string) { name == "path" || name == "fs" || name == "process" }

  predicate InWorld(w: World, name: string) { IsBuiltIn(name) || w.resolve(name) in w.keys }

  /** Every body that starts also ends, and asks only for modules of the finite universe. */
  ghost predicate Finite(w: World) {
    forall k, own, replies | k in w.keys && w.next(k, own, replies).Require? ::
      |replies| < w.maxCalls(k) && InWorld(w, w.next(k, own, replies).name)
  }

  datatype State = State(cache: map<Key, Value>, loading: set<Key>, nextId: ObjectId, runs: seq<Key>)

  function Fresh(s: State): State { s.(nextId := s.nextId + 1) }

  // ------------------------------------------------------------------ specification

  /** The state and the value after `require(name)`. */
  ghost function Load(w: World, s: State, name: string): (r: (State, Value))
    requires Finite(w) && InWorld(w, name)
    ensures r.0.loading == s.loading
    decreases w.keys - s.loading, 0
  {
    if IsBuiltIn(name) then (s, BuiltIn(name))
    else
      var k := w.resolve(name);
      if k in s.loading then (Fresh(s), Object(s.nextId))
      else if k in s.cache then (s, s.cache[k])
      else if !w.file(k).Runnable? then (Fresh(s), Object(s.nextId))
      else
        var started := Started(s, k);
        assert w.keys - started.loading < w.keys - s.loading by { assert k in w.keys - s.loading; }
        var (s2, outcome) := RunBody(w, started, k, s.nextId, []);
        Finished(s2, k, outcome)
  }

  /** Marked as loading, exports object created, body about to run. */
  function Started(s: State, k: Key): State {
    Fresh(s).(loading := s.loading + {k}, runs := s.runs + [k])
  }

  /** After the body of `k`: an object is cached and returned, any other value is only returned,
      and a thrown body leaves an empty object as the reply. */
  function Finished(s: State, k: Key, outcome: Action): (State, Value) {
    var unmarked := s.(loading := s.loading - {k});
    match outcome
    case Return(v) =>
      (if IsObject(v) then unmarked.(cache := s.cache[k := v]) else unmarked, v)
    case _ => (Fresh(unmarked), Object(s.nextId))
  }

  /** The rest of the body of `k`, and the action that ended it. */
  ghost function RunBody(w: World, s: State, k: Key, own: ObjectId, replies: seq<Value>): (r: (State, Action))
    requires Finite(w) && k in w.keys
    ensures r.0.loading == s.loading
    ensures !r.1.Require?
    decreases w.keys - s.loading, 1 + if |replies| < w.maxCalls(k) then w.maxCalls(k) - |replies| else 0
  {
    match w.next(k, own, replies)
    case Require(name) =>
      var (s1, reply) := Load(w, s, name);
      RunBody(w, s1, k, own, replies + [reply])
    case end => (s, end)
  }

  // ------------------------------------------------------------------ the loader

  class Loader {
    const world: World
    var cache: map<Key, Value>
    var loading: set<Key>
    var nextId: ObjectId
    var runs: seq<Key>

    ghost predicate Valid() { Finite(world) }

    ghost function Now(): State reads this { State(cache, loading, nextId, runs) }

    constructor (world: World)
      requires Finite(world)
      ensures Valid() && this.world == world
      ensures Now() == State(map[], {}, 0, [])
    {
      this.world := world;
      cache, loading, nextId, runs := map[], {}, 0, [];
    }

    method NewObject() returns (v: Value)
      modifies this`nextId
      ensures v == Object(old(nextId)) && Now() == Fresh(old(Now()))
    {
      v := Object(nextId);
      nextId := nextId + 1;
    }

    method RequireCallback(name: string) returns (v: Value)
      requires Valid() && InWorld(world, name)
      modifies this
      ensures (Now(), v) == Load(world, old(Now()), name)
      decreases world.keys - loading, 0
    {
      if IsBuiltIn(name) {
        return BuiltIn(name);
      }
      var k := world.resolve(name);
      if k in loading {
        v := NewObject();
        return;
      }
      if k in cache {
        return cache[k];
      }
      loading := loading + {k};
      if world.file(k).Runnable? {
        ghost var before := old(Now());
        var own := NewObject();
        runs := runs + [k];
        assert Now() == Started(before, k);
        assert world.keys - loading < world.keys - old(loading) by { assert k in world.keys - old(loading); }
        var outcome := RunScript(k, own.id);
        if outcome.Return? {
          if IsObject(outcome.value) {
            cache := cache[k := outcome.value];
          }
          loading := loading - {k};
          return outcome.value;
        }
      }
      loading := loading - {k};
      assert !world.file(k).Runnable? ==> loading == old(loading);
      v := NewObject();
    }

    method RunScript(k: Key, own: ObjectId) returns (outcome: Action)
      requires Valid() && k in world.keys
      modifies this
      ensures (Now(), outcome) == RunBody(world, old(Now()), k, own, [])
      ensures !outcome.Require?
      decreases world.keys - loading, 1 + world.maxCalls(k)
    {
      var replies: seq<Value> := [];
      outcome := world.next(k, own, replies);
      while outcome.Require?
        invariant loading == old(loading)
        invariant outcome == world.next(k, own, replies)
        invariant RunBody(world, Now(), k, own, replies) == RunBody(world, old(Now()), k, own, [])
        decreases world.maxCalls(k) - |replies|
      {
        var reply := RequireCallback(outcome.name);
        replies := replies + [reply];
        outcome := world.next(k, own, replies);
      }
    }
  }
}
