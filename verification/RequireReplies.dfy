/** What one `require` call answers, case by case, and how it relates to what the module's body did.
    Nothing is assumed about the scripts. */
module RequireReplies {
  import opened ModuleLoader
  import opened WhitePath

  // ------------------------------------------------------------------ the calls of one body

  /** The action is a call, and `require` takes it from `s` to `t` with this reply. */
  ghost predicate IsCall(w: World, a: Action, s: State, reply: Value, t: State)
    requires Finite(w)
  {
    a.Require? && InWorld(w, a.name) && (t, reply) == Load(w, s, a.name)
  }

  /** After the replies that were `made` before, the body of `k` made the calls that `next` chose, one
      after the other from `states[0]` on, was answered with the remaining `replies`, and then ended. */
  ghost predicate IsTranscript(w: World, k: Key, own: ObjectId, states: seq<State>, replies: seq<Value>, made: nat)
    requires Finite(w) && k in w.keys
  {
    && made <= |replies| && |states| == |replies| - made + 1
    && (forall i | made <= i < |replies| ::
          IsCall(w, w.next(k, own, replies[..i]), states[i - made], replies[i], states[i - made + 1]))
    && !w.next(k, own, replies).Require?
  }

  lemma {:induction false} RestOfBody(w: World, s: State, k: Key, own: ObjectId, made: seq<Value>)
    returns (states: seq<State>, replies: seq<Value>)
    requires Finite(w) && k in w.keys
    ensures made <= replies && IsTranscript(w, k, own, states, replies, |made|) && states[0] == s
    ensures RunBody(w, s, k, own, made) == (states[|states| - 1], w.next(k, own, replies))
    decreases w.keys - s.loading, 1 + if |made| < w.maxCalls(k) then w.maxCalls(k) - |made| else 0
  {
    match w.next(k, own, made)
    case Require(name) =>
      var (t, reply) := Load(w, s, name);
      var later;
      later, replies := RestOfBody(w, t, k, own, made + [reply]);
      states := [s] + later;
      assert replies[..|made|] == made && replies[|made|] == reply;
      forall i | |made| <= i < |replies|
        ensures IsCall(w, w.next(k, own, replies[..i]), states[i - |made|], replies[i], states[i - |made| + 1]) {
        if i > |made| {
          assert states[i - |made|] == later[i - |made| - 1] && states[i - |made| + 1] == later[i - |made|];
        }
      }
    case _ =>
      states, replies := [s], made;
  }

  /** A script run is its calls, one after the other, and the action that is no call. */
  lemma BodyIsItsCalls(w: World, s: State, k: Key, own: ObjectId) returns (states: seq<State>, replies: seq<Value>)
    requires Finite(w) && k in w.keys
    ensures IsTranscript(w, k, own, states, replies, 0) && states[0] == s
    ensures RunBody(w, s, k, own, []) == (states[|replies|], w.next(k, own, replies))
  {
    states, replies := RestOfBody(w, s, k, own, []);
  }

  // ------------------------------------------------------------------ the reply

  /** The cases in which no body runs: a built-in module, a module on the stack, a cached one, and one
      whose file is missing, unreadable or no script. */
  lemma RepliesWithoutRun(w: World, s: State, name: string)
    requires Finite(w) && InWorld(w, name)
    ensures var (t, v) := Load(w, s, name); var k := w.resolve(name);
      if name in {"path", "fs", "process"} then t == s && v == BuiltIn(name)
      else if k in s.loading then v == Object(s.nextId) && t == State(s.cache, s.loading, s.nextId + 1, s.runs)
      else if k in s.cache then t == s && v == s.cache[k]
      else w.file(k) != Runnable ==> v == Object(s.nextId) && t == State(s.cache, s.loading, s.nextId + 1, s.runs)
  {
  }

  /** A body runs, its calls go through the same loader with the module marked as loading, and the
      reply is what it returned; a value that is an object is cached on top of what the calls left.
      A body that throws leaves no cache entry, and the reply is an object of its own. */
  lemma ReplyOfARun(w: World, s: State, name: string) returns (states: seq<State>, replies: seq<Value>)
    requires Finite(w) && InWorld(w, name) && name !in {"path", "fs", "process"}
    requires var k := w.resolve(name); k !in s.loading && k !in s.cache && w.file(k) == Runnable
    ensures var k := w.resolve(name);
      && IsTranscript(w, k, s.nextId, states, replies, 0)
      && states[0] == State(s.cache, s.loading + {k}, s.nextId + 1, s.runs + [k])
      && var (t, v) := Load(w, s, name); var last := states[|replies|];
         var end := w.next(k, s.nextId, replies);
         && k !in last.cache && s.nextId < last.nextId
         && if end.Return? then
              && v == end.value
              && t == State(if v == Primitive then last.cache else last.cache[k := v],
                            s.loading, last.nextId, last.runs)
            else v == Object(last.nextId) && t == State(last.cache, s.loading, last.nextId + 1, last.runs)
  {
    var k := w.resolve(name);
    var started := Started(s, k);
    assert w.keys - started.loading < w.keys - s.loading by { assert k in w.keys - s.loading; }
    states, replies := BodyIsItsCalls(w, started, k, s.nextId);
    assert RunBody(w, started, k, s.nextId, []).0.loading == s.loading + {k};
    assert s.loading + {k} - {k} == s.loading;
    var n := BodyEffect(w, started, k, s.nextId, []);
  }

  /** The reply to the first call already is the cached object. Without a cache entry afterwards, the
      reply is a value that is no object, or an object that this very call made. */
  lemma ReplyIsTheCachedObject(w: World, s: State, name: string)
    requires Finite(w) && InWorld(w, name) && name !in {"path", "fs", "process"}
    ensures var (t, v) := Load(w, s, name); var k := w.resolve(name);
      && (k !in s.loading && k in t.cache ==> v == t.cache[k] && (k in s.cache || v != Primitive))
      && (k in s.loading || k !in t.cache ==> v == Primitive || (v.Object? && s.nextId <= v.id < t.nextId))
  {
    var k := w.resolve(name);
    if k in s.loading || k in s.cache || w.file(k) != Runnable {
      RepliesWithoutRun(w, s, name);
    } else {
      var states, replies := ReplyOfARun(w, s, name);
    }
  }

  /** The first call and every later one in the session agree on the object, and the later ones run
      nothing. */
  lemma EveryCallSharesTheObject(w: World, s: State, name: string, names: seq<string>, again: string)
    requires Finite(w) && InWorld(w, name) && !IsBuiltIn(name) && s.cache.Keys !! s.loading
    requires forall i | 0 <= i < |names| :: InWorld(w, names[i])
    requires !IsBuiltIn(again) && w.resolve(again) == w.resolve(name)
    requires w.resolve(name) !in s.loading && w.resolve(name) in Load(w, s, name).0.cache
    ensures var (t, v) := Load(w, s, name); var later := Session(w, t, names);
      Load(w, later, again) == (later, v)
  {
    var (t, v) := Load(w, s, name);
    ReplyIsTheCachedObject(w, s, name);
    CacheAndLoadingStayDisjoint(w, s, name);
    CachedModuleIsShared(w, t, names, again);
  }
}
