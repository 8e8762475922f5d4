/** What a run of `require` leaves behind: facts for every script, and the exact final cache
    (the white-path theorem) for scripts whose `require` calls do not depend on the replies. */
module WhitePath {
  import opened ModuleLoader

  // ------------------------------------------------------------------ every script

  /** From `s` to `t` the bodies `n` were started, and nothing but new modules was touched. */
  ghost predicate Effect(w: World, s: State, n: seq<Key>, t: State) {
    && t.loading == s.loading
    && t.runs == s.runs + n
    && s.nextId <= t.nextId
    && (forall k | k in s.cache :: k in t.cache && t.cache[k] == s.cache[k])
    && (forall k | k in t.cache :: k in s.cache || (k in n && IsObject(t.cache[k])))
    && (forall k | k in n :: k in w.keys && w.file(k).Runnable? && k !in s.loading && k !in s.cache)
  }

  ghost function NewRuns(s: State, t: State): seq<Key> {
    if |s.runs| <= |t.runs| then t.runs[|s.runs|..] else []
  }

  lemma EffectThen(w: World, s: State, n1: seq<Key>, m: State, n2: seq<Key>, t: State)
    requires Effect(w, s, n1, m) && Effect(w, m, n2, t)
    ensures Effect(w, s, n1 + n2, t)
  {
    assert s.runs + n1 + n2 == s.runs + (n1 + n2);
  }

  /** `require` restores the loading set, keeps every cached object, and starts and caches only
      modules that were neither loading nor cached, whatever the scripts do. */
  lemma {:induction false} RequireEffect(w: World, s: State, name: string)
    requires Finite(w) && InWorld(w, name)
    ensures Effect(w, s, NewRuns(s, Load(w, s, name).0), Load(w, s, name).0)
    decreases w.keys - s.loading, 0
  {
    var t := Load(w, s, name).0;
    if IsBuiltIn(name) {
      assert t.runs == s.runs + [];
      return;
    }
    var k := w.resolve(name);
    if k in s.loading || k in s.cache || !w.file(k).Runnable? {
      assert t.runs == s.runs + [];
      return;
    }
    var started := Started(s, k);
    assert w.keys - started.loading < w.keys - s.loading by { assert k in w.keys - s.loading; }
    var n := BodyEffect(w, started, k, s.nextId, []);
    assert t.runs == s.runs + ([k] + n);
    assert NewRuns(s, t) == [k] + n;
  }

  lemma {:induction false} BodyEffect(w: World, s: State, k: Key, own: ObjectId, replies: seq<Value>)
    returns (n: seq<Key>)
    requires Finite(w) && k in w.keys
    ensures Effect(w, s, n, RunBody(w, s, k, own, replies).0)
    decreases w.keys - s.loading, 1 + if |replies| < w.maxCalls(k) then w.maxCalls(k) - |replies| else 0
  {
    match w.next(k, own, replies)
    case Require(name) =>
      var (m, reply) := Load(w, s, name);
      RequireEffect(w, s, name);
      var n2 := BodyEffect(w, m, k, own, replies + [reply]);
      EffectThen(w, s, NewRuns(s, m), m, n2, RunBody(w, m, k, own, replies + [reply]).0);
      n := NewRuns(s, m) + n2;
    case _ =>
      n := [];
      assert s.runs == s.runs + [];
  }

  /** The invariant of every run: a module is never both finished and on the stack. */
  lemma CacheAndLoadingStayDisjoint(w: World, s: State, name: string)
    requires Finite(w) && InWorld(w, name) && s.cache.Keys !! s.loading
    ensures Load(w, s, name).0.cache.Keys !! Load(w, s, name).0.loading
  {
    RequireEffect(w, s, name);
  }

  // ------------------------------------------------------------------ static imports

  /** The bodies require `imports[k]` in order, whatever the replies, and then end. The modules of
      `good` always end with an object, all others never do. */
  ghost predicate Static(w: World, imports: map<Key, seq<string>>, good: set<Key>) {
    && imports.Keys == w.keys
    && forall k, own, replies | k in w.keys ::
         if |replies| < |imports[k]| then w.next(k, own, replies) == Require(imports[k][|replies|])
         else Ends(w.next(k, own, replies), k in good)
  }

  predicate Ends(a: Action, withObject: bool) {
    if withObject then a.Return? && IsObject(a.value) else a.Throw? || (a.Return? && !IsObject(a.value))
  }

  ghost predicate Edge(w: World, imports: map<Key, seq<string>>, a: Key, b: Key) {
    && a in imports && w.file(a).Runnable?
    && exists i :: 0 <= i < |imports[a]| && !IsBuiltIn(imports[a][i]) && w.resolve(imports[a][i]) == b
  }

  /** A path along imports that stays among the `white` modules. */
  ghost predicate IsPath(w: World, imports: map<Key, seq<string>>, white: set<Key>, p: seq<Key>) {
    && |p| > 0
    && (forall i | 0 <= i < |p| :: p[i] in white)
    && (forall i | 0 <= i < |p| - 1 :: Edge(w, imports, p[i], p[i + 1]))
  }

  ghost predicate Reaches(w: World, imports: map<Key, seq<string>>, white: set<Key>, a: Key, b: Key) {
    exists p :: IsPath(w, imports, white, p) && p[0] == a && p[|p| - 1] == b
  }

  /** Modules that are neither finished nor on the stack. */
  ghost function White(w: World, s: State): set<Key> { w.keys - s.loading - s.cache.Keys }

  /** The import has been taken care of: built in, on the stack, finished, started, or no body. */
  ghost predicate Covered(w: World, s: State, n: seq<Key>, name: string) {
    IsBuiltIn(name) ||
    var y := w.resolve(name);
    y in s.loading || y in s.cache || y in n || !w.file(y).Runnable?
  }

  ghost predicate AllCovered(w: World, imports: map<Key, seq<string>>, s: State, n: seq<Key>, k: Key, start: nat) {
    k in imports && forall i | start <= i < |imports[k]| :: Covered(w, s, n, imports[k][i])
  }

  ghost predicate Traced(w: World, imports: map<Key, seq<string>>, good: set<Key>, s: State, n: seq<Key>, t: State) {
    && Effect(w, s, n, t)
    && (forall x | x in n :: AllCovered(w, imports, s, n, x, 0))
    && (forall x | x in n && x in good :: x in t.cache && multiset(n)[x] == 1)
    && (forall x | x in t.cache :: x in s.cache || x in good)
  }

  lemma TracedThen(w: World, imports: map<Key, seq<string>>, good: set<Key>,
                   s: State, n1: seq<Key>, m: State, n2: seq<Key>, t: State)
    requires Traced(w, imports, good, s, n1, m) && Traced(w, imports, good, m, n2, t)
    ensures Traced(w, imports, good, s, n1 + n2, t)
    ensures forall k, i: nat :: AllCovered(w, imports, m, n2, k, i) ==> AllCovered(w, imports, s, n1 + n2, k, i)
  {
    EffectThen(w, s, n1, m, n2, t);
    forall name | Covered(w, m, n2, name) || Covered(w, s, n1, name)
      ensures Covered(w, s, n1 + n2, name)
    {
    }
    forall x | x in n1 + n2 && x in good ensures x in t.cache && multiset(n1 + n2)[x] == 1 {
      assert x in n1 ==> x !in n2;
    }
    forall x | x in n1 + n2 ensures AllCovered(w, imports, s, n1 + n2, x, 0) {
      if x in n1 {
        assert AllCovered(w, imports, s, n1, x, 0);
      } else {
        assert AllCovered(w, imports, m, n2, x, 0);
      }
    }
  }

  ghost predicate AllReached(w: World, imports: map<Key, seq<string>>, white: set<Key>, a: Key, n: seq<Key>) {
    forall x | x in n :: Reaches(w, imports, white, a, x)
  }

  lemma ReachesMore(w: World, imports: map<Key, seq<string>>, small: set<Key>, white: set<Key>, a: Key, b: Key, c: Key)
    requires small <= white && Reaches(w, imports, small, b, c)
    requires a in white && Edge(w, imports, a, b)
    ensures Reaches(w, imports, white, b, c)
    ensures Reaches(w, imports, white, a, c)
  {
    var p :| IsPath(w, imports, small, p) && p[0] == b && p[|p| - 1] == c;
    assert IsPath(w, imports, white, p);
    var q := [a] + p;
    assert IsPath(w, imports, white, q) && q[0] == a && q[|q| - 1] == c;
  }

  lemma ReachedThrough(w: World, imports: map<Key, seq<string>>, small: set<Key>, white: set<Key>,
                       a: Key, b: Key, n: seq<Key>)
    requires small <= white && AllReached(w, imports, small, b, n)
    requires a in white && Edge(w, imports, a, b)
    ensures AllReached(w, imports, white, a, n)
  {
    forall x | x in n ensures Reaches(w, imports, white, a, x) {
      ReachesMore(w, imports, small, white, a, b, x);
    }
  }

  lemma ReachesItself(w: World, imports: map<Key, seq<string>>, white: set<Key>, k: Key)
    requires k in white
    ensures Reaches(w, imports, white, k, k)
  {
    assert IsPath(w, imports, white, [k]) && [k][0] == k;
  }

  lemma StartedReaches(w: World, imports: map<Key, seq<string>>, white: set<Key>, k: Key, n: seq<Key>)
    requires k in white && AllReached(w, imports, white, k, n)
    ensures AllReached(w, imports, white, k, [k] + n)
  {
    ReachesItself(w, imports, white, k);
  }

  /** One `require`: every started module is reachable through white modules, all its imports are
      covered, and the good ones are cached after exactly one run. */
  lemma {:induction false} RequireTraced(w: World, imports: map<Key, seq<string>>, good: set<Key>,
                                         s: State, name: string)
    requires Finite(w) && InWorld(w, name) && Static(w, imports, good)
    ensures var t := Load(w, s, name).0; var n := NewRuns(s, t);
      && Traced(w, imports, good, s, n, t) && Covered(w, s, n, name)
      && (IsBuiltIn(name) ==> n == [])
      && (!IsBuiltIn(name) ==> AllReached(w, imports, White(w, s), w.resolve(name), n))
    decreases w.keys - s.loading, 0
  {
    RequireEffect(w, s, name);
    var t := Load(w, s, name).0;
    if IsBuiltIn(name) { return; }
    var k := w.resolve(name);
    if k in s.loading || k in s.cache || !w.file(k).Runnable? { return; }
    var started := Started(s, k);
    assert w.keys - started.loading < w.keys - s.loading by { assert k in w.keys - s.loading; }
    var n := BodyTraced(w, imports, good, started, White(w, s), k, s.nextId, []);
    assert t.runs == s.runs + ([k] + n);
    assert NewRuns(s, t) == [k] + n;
    RequireTracedStep(w, imports, good, s, k, n);
    StartedReaches(w, imports, White(w, s), k, n);
  }

  lemma RequireTracedStep(w: World, imports: map<Key, seq<string>>, good: set<Key>, s: State, k: Key, n: seq<Key>)
    requires Finite(w) && Static(w, imports, good)
    requires k in w.keys && k !in s.loading && k !in s.cache && w.file(k).Runnable?
    requires var (t, end) := RunBody(w, Started(s, k), k, s.nextId, []);
      && Traced(w, imports, good, Started(s, k), n, t)
      && AllCovered(w, imports, Started(s, k), n, k, 0) && Ends(end, k in good)
    ensures var (t, end) := RunBody(w, Started(s, k), k, s.nextId, []);
      Traced(w, imports, good, s, [k] + n, Finished(t, k, end).0)
  {
    var (m, end) := RunBody(w, Started(s, k), k, s.nextId, []);
    var t := Finished(m, k, end).0;
    assert t.runs == s.runs + ([k] + n);
    assert Effect(w, s, [k] + n, t);
    CoveredFromStart(w, imports, s, k, n);
    forall x | x in [k] + n && x in good ensures x in t.cache && multiset([k] + n)[x] == 1 {
    }
  }

  /** What was taken care of while `k` was on the stack still is when `k` counts as started. */
  lemma CoveredFromStart(w: World, imports: map<Key, seq<string>>, s: State, k: Key, n: seq<Key>)
    requires AllCovered(w, imports, Started(s, k), n, k, 0)
    requires forall x | x in n :: AllCovered(w, imports, Started(s, k), n, x, 0)
    ensures forall x | x in [k] + n :: AllCovered(w, imports, s, [k] + n, x, 0)
  {
    forall name | Covered(w, Started(s, k), n, name) ensures Covered(w, s, [k] + n, name) {
    }
    forall x | x in [k] + n ensures AllCovered(w, imports, s, [k] + n, x, 0) {
      assert AllCovered(w, imports, Started(s, k), n, x, 0);
    }
  }

  lemma {:induction false} BodyTraced(w: World, imports: map<Key, seq<string>>, good: set<Key>,
                                      s: State, white: set<Key>, k: Key, own: ObjectId, replies: seq<Value>)
    returns (n: seq<Key>)
    requires Finite(w) && Static(w, imports, good) && k in w.keys && w.file(k).Runnable?
    requires k in white && White(w, s) <= white
    ensures var (t, end) := RunBody(w, s, k, own, replies);
      && Traced(w, imports, good, s, n, t)
      && AllCovered(w, imports, s, n, k, |replies|)
      && AllReached(w, imports, white, k, n)
      && Ends(end, k in good)
    decreases w.keys - s.loading, 1 + if |replies| < w.maxCalls(k) then w.maxCalls(k) - |replies| else 0
  {
    match w.next(k, own, replies)
    case Require(name) =>
      var (m, reply) := Load(w, s, name);
      RequireTraced(w, imports, good, s, name);
      var n1 := NewRuns(s, m);
      RequireEffect(w, s, name);
      var n2 := BodyTraced(w, imports, good, m, white, k, own, replies + [reply]);
      n := n1 + n2;
      TracedThen(w, imports, good, s, n1, m, n2, RunBody(w, m, k, own, replies + [reply]).0);
      assert AllCovered(w, imports, s, n, k, |replies| + 1);
      assert name == imports[k][|replies|] && Covered(w, s, n1, name);
      if !IsBuiltIn(name) {
        assert Edge(w, imports, k, w.resolve(name));
        ReachedThrough(w, imports, White(w, s), white, k, w.resolve(name), n1);
      }
    case _ =>
      n := [];
      assert s.runs == s.runs + [];
  }

  lemma InnerNodeHasBody(w: World, imports: map<Key, seq<string>>, white: set<Key>, p: seq<Key>, i: nat)
    requires IsPath(w, imports, white, p) && i < |p| - 1
    ensures w.file(p[i]).Runnable?
  {
    assert Edge(w, imports, p[i], p[i + 1]);
  }

  /** Following a white path from a started module meets only started modules. */
  lemma {:induction false} PathIsStarted(w: World, imports: map<Key, seq<string>>, s: State, n: seq<Key>, p: seq<Key>)
    requires IsPath(w, imports, White(w, s), p) && p[0] in n
    requires forall x | x in n :: AllCovered(w, imports, s, n, x, 0)
    ensures p[|p| - 1] in n || !w.file(p[|p| - 1]).Runnable?
    decreases |p|
  {
    if |p| > 1 {
      assert Edge(w, imports, p[0], p[1]);
      var i :| 0 <= i < |imports[p[0]]| && !IsBuiltIn(imports[p[0]][i]) && w.resolve(imports[p[0]][i]) == p[1];
      assert AllCovered(w, imports, s, n, p[0], 0);
      assert Covered(w, s, n, imports[p[0]][i]);
      if p[1] in n {
        PathIsStarted(w, imports, s, n, p[1..]);
      } else if |p| > 2 {
        InnerNodeHasBody(w, imports, White(w, s), p, 1);
      }
    }
  }

  /** The white-path theorem. From loading set L and cache C, `require(m)` starts exactly the
      modules with a runnable body that m reaches along imports avoiding L and C; the cache becomes
      C plus the good ones among them, and each of those ran exactly once. Cycles and failing
      bodies are allowed. */
  lemma WhitePathTheorem(w: World, imports: map<Key, seq<string>>, good: set<Key>, s: State, name: string)
    requires Finite(w) && InWorld(w, name) && !IsBuiltIn(name) && Static(w, imports, good)
    ensures var t := Load(w, s, name).0; var n := NewRuns(s, t); var m := w.resolve(name);
      && t.loading == s.loading
      && (forall x :: x in n <==> w.file(x).Runnable? && Reaches(w, imports, White(w, s), m, x))
      && (forall x :: x in t.cache <==>
            x in s.cache || (x in good && w.file(x).Runnable? && Reaches(w, imports, White(w, s), m, x)))
      && (forall x | x in s.cache :: t.cache[x] == s.cache[x])
      && (forall x | x in n && x in good :: multiset(n)[x] == 1)
  {
    var t := Load(w, s, name).0;
    var n := NewRuns(s, t);
    var m := w.resolve(name);
    RequireTraced(w, imports, good, s, name);
    forall x | w.file(x).Runnable? && Reaches(w, imports, White(w, s), m, x) ensures x in n {
      var p :| IsPath(w, imports, White(w, s), p) && p[0] == m && p[|p| - 1] == x;
      assert m in White(w, s);
      if m in n {
        PathIsStarted(w, imports, s, n, p);
      } else if |p| > 1 {
        InnerNodeHasBody(w, imports, White(w, s), p, 0);
      }
    }
  }

  // ------------------------------------------------------------------ sessions

  /** The state after top-level `require` calls, one after the other. */
  ghost function Session(w: World, s: State, names: seq<string>): (t: State)
    requires Finite(w) && forall i | 0 <= i < |names| :: InWorld(w, names[i])
    decreases |names|
  {
    if names == [] then s else Session(w, Load(w, s, names[0]).0, names[1..])
  }

  lemma {:induction false} SessionEffect(w: World, s: State, names: seq<string>) returns (n: seq<Key>)
    requires Finite(w) && forall i | 0 <= i < |names| :: InWorld(w, names[i])
    ensures Effect(w, s, n, Session(w, s, names))
    decreases |names|
  {
    if names == [] {
      n := [];
      assert s.runs == s.runs + [];
    } else {
      var m := Load(w, s, names[0]).0;
      RequireEffect(w, s, names[0]);
      var rest := SessionEffect(w, m, names[1..]);
      EffectThen(w, s, NewRuns(s, m), m, rest, Session(w, m, names[1..]));
      n := NewRuns(s, m) + rest;
    }
  }

  /** Once a module is cached, every later `require` of it in the session, by whatever name and
      after whatever other loads, returns the same object and runs no body. */
  lemma CachedModuleIsShared(w: World, s: State, names: seq<string>, again: string)
    requires Finite(w) && forall i | 0 <= i < |names| :: InWorld(w, names[i])
    requires !IsBuiltIn(again) && w.resolve(again) in s.cache && w.resolve(again) in w.keys
    requires s.cache.Keys !! s.loading
    ensures var t := Session(w, s, names);
      Load(w, t, again) == (t, s.cache[w.resolve(again)])
  {
    var n := SessionEffect(w, s, names);
  }
}
