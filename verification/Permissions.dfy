/** The capability broker of `src/permissions.rs`: rule sets, the seven-level decision, and the
    lock-free fast path in front of it. Paths are normalised component sequences. */
module Permissions {
  import opened Prelude

  datatype Kind = FileSystem | Environment | Network | Process
  datatype Action = Read | Write | Execute | Connect | Listen
  datatype Resource = Any | Path(components: seq<string>) | Name(name: string) | Url(url: string)
  datatype Rule = Rule(kind: Kind, action: Action, resource: Resource)
  datatype Decision = Allow | Deny

  /** The host of a URL, if it has one. */
  type HostOf = string -> Option<string>

  predicate PathIsUnder(request: seq<string>, prefix: seq<string>) { request == prefix || prefix <= request }

  /** A rule of the same kind and action covers the requested path. */
  predicate PathRuleMatches(rules: set<Rule>, q: Rule) {
    q.resource.Path? &&
    exists r :: r in rules && r.kind == q.kind && r.action == q.action && r.resource.Path? &&
                PathIsUnder(q.resource.components, r.resource.components)
  }

  function HostRule(host: HostOf, q: Rule): Option<Rule> {
    if q.kind.Network? && (q.action.Connect? || q.action.Listen?) && q.resource.Url? then
      match host(q.resource.url)
      case Some(h) => Some(q.(resource := Name(h)))
      case None => None
    else None
  }

  function Wildcard(q: Rule): Rule { q.(resource := Any) }

  /** The decision on a request, written as the rule that would allow or deny exactly it. */
  function Decide(allow: set<Rule>, deny: set<Rule>, host: HostOf, q: Rule): Decision {
    var hostRule := HostRule(host, q);
    if q in deny || PathRuleMatches(deny, q) then Deny
    else if q in allow then Allow
    else if hostRule.Some? && hostRule.value in deny then Deny
    else if hostRule.Some? && hostRule.value in allow then Allow
    else if PathRuleMatches(allow, q) then Allow
    else if Wildcard(q) in deny then Deny
    else if Wildcard(q) in allow then Allow
    else Allow
  }

  // ------------------------------------------------------------------ the broker

  const SANDBOXED: seq<Rule> := [
    Rule(FileSystem, Read, Any), Rule(FileSystem, Write, Any), Rule(Network, Connect, Any),
    Rule(Network, Listen, Any), Rule(Environment, Read, Any), Rule(Process, Execute, Any)]

  datatype Op = AllowOp(rule: Rule) | DenyOp(rule: Rule)

  datatype State = State(allow: set<Rule>, deny: set<Rule>, restricted: bool)

  const EMPTY := State({}, {}, false)

  function Apply(s: State, op: Op): State {
    match op
    case AllowOp(r) => State(s.allow + {r}, s.deny - {r}, s.restricted)
    case DenyOp(r) => State(s.allow - {r}, s.deny + {r}, true)
  }

  function ApplyAll(s: State, ops: seq<Op>): State {
    if ops == [] then s else Apply(ApplyAll(s, ops[..|ops| - 1]), ops[|ops| - 1])
  }

  function DenyEach(rules: seq<Rule>): (ops: seq<Op>)
    ensures |ops| == |rules| && forall i | 0 <= i < |ops| :: ops[i] == DenyOp(rules[i])
  {
    seq(|rules|, i requires 0 <= i < |rules| => DenyOp(rules[i]))
  }

  class ResourceBroker {
    const host: HostOf
    var allowRules: set<Rule>
    var denyRules: set<Rule>
    /** The process-wide flag that any denial sets. */
    var hasRestrictions: bool

    ghost function Now(): State reads this { State(allowRules, denyRules, hasRestrictions) }

    constructor (host: HostOf)
      ensures Now() == EMPTY && this.host == host
    {
      this.host := host;
      allowRules, denyRules, hasRestrictions := {}, {}, false;
    }

    method AllowRule(rule: Rule)
      modifies this
      ensures Now() == Apply(old(Now()), AllowOp(rule))
    {
      denyRules := denyRules - {rule};
      allowRules := allowRules + {rule};
    }

    method DenyRule(rule: Rule)
      modifies this
      ensures Now() == Apply(old(Now()), DenyOp(rule))
    {
      allowRules := allowRules - {rule};
      denyRules := denyRules + {rule};
      hasRestrictions := true;
    }

    method DenyAll()
      modifies this
      ensures Now() == ApplyAll(old(Now()), DenyEach(SANDBOXED))
      ensures var pairs := {
          Rule(FileSystem, Read, Any), Rule(FileSystem, Write, Any), Rule(Network, Connect, Any),
          Rule(Network, Listen, Any), Rule(Environment, Read, Any), Rule(Process, Execute, Any)};
        Now() == State(old(allowRules) - pairs, old(denyRules) + pairs, true)
    {
      var i := 0;
      while i < |SANDBOXED|
        invariant i <= |SANDBOXED| && Now() == ApplyAll(old(Now()), DenyEach(SANDBOXED)[..i])
      {
        DenyRule(SANDBOXED[i]);
        i := i + 1;
        assert DenyEach(SANDBOXED)[..i][..i - 1] == DenyEach(SANDBOXED)[..i - 1];
      }
      assert DenyEach(SANDBOXED)[..i] == DenyEach(SANDBOXED);
      DenyEachMoves(old(Now()), SANDBOXED);
    }

    method Check(q: Rule) returns (d: Decision)
      ensures d == Decide(allowRules, denyRules, host, q)
      ensures d == Deny <==>
        || q in denyRules || (exists r :: r in denyRules && CoversPath(r, q))
        || (q !in allowRules && exists r :: r in denyRules && CoversHost(host, r, q))
        || (Rule(q.kind, q.action, Any) in denyRules && q !in allowRules
            && !(exists r :: r in allowRules && (CoversHost(host, r, q) || CoversPath(r, q))))
    {
      DeniedIff(allowRules, denyRules, host, q);
      d := Decide(allowRules, denyRules, host, q);
    }

    /** Without restrictions the rules are not consulted at all. That changes nothing unless a deny rule
        stands behind a lowered flag. */
    method CheckGlobal(q: Rule) returns (d: Decision)
      ensures d == FastDecide(Now(), host, q)
      ensures hasRestrictions || denyRules == {} ==> d == FullDecide(Now(), host, q)
    {
      if !hasRestrictions {
        return Allow;
      }
      d := Check(q);
    }
  }

  function FullDecide(s: State, host: HostOf, q: Rule): Decision { Decide(s.allow, s.deny, host, q) }

  function FastDecide(s: State, host: HostOf, q: Rule): Decision {
    if !s.restricted then Allow else FullDecide(s, host, q)
  }

  // ------------------------------------------------------------------ last writer wins

  /** The last call on the rule, if there was one. */
  function LastOn(ops: seq<Op>, rule: Rule): Option<Op> {
    if ops == [] then None
    else if ops[|ops| - 1].rule == rule then Some(ops[|ops| - 1])
    else LastOn(ops[..|ops| - 1], rule)
  }

  /** Over any run from the empty broker a rule is in the allow set exactly when the last call on it
      allowed it, and in the deny set exactly when that call denied it; so the sets stay disjoint. */
  lemma {:induction false} LastCallDecides(ops: seq<Op>, rule: Rule)
    ensures var s := ApplyAll(EMPTY, ops); var last := LastOn(ops, rule);
      && (rule in s.allow <==> last.Some? && last.value.AllowOp?)
      && (rule in s.deny <==> last.Some? && last.value.DenyOp?)
      && !(rule in s.allow && rule in s.deny)
    decreases |ops|
  {
    if ops != [] {
      LastCallDecides(ops[..|ops| - 1], rule);
    }
  }

  // ------------------------------------------------------------------ monotony

  /** Fewer allow rules and more deny rules never turn a denial into an allowance. */
  lemma StricterRulesDenyMore(allow: set<Rule>, deny: set<Rule>, allow': set<Rule>, deny': set<Rule>,
                              host: HostOf, q: Rule)
    requires allow' <= allow && deny <= deny'
    requires Decide(allow, deny, host, q) == Deny
    ensures Decide(allow', deny', host, q) == Deny
  {
    assert PathRuleMatches(allow', q) ==> PathRuleMatches(allow, q);
    assert PathRuleMatches(deny, q) ==> PathRuleMatches(deny', q);
  }

  /** `deny` never turns a denial into an allowance, and `allow` never the reverse, for any request. */
  lemma CallsAreMonotone(s: State, rule: Rule, host: HostOf, q: Rule)
    ensures FullDecide(s, host, q) == Deny ==> FullDecide(Apply(s, DenyOp(rule)), host, q) == Deny
    ensures FullDecide(s, host, q) == Allow ==> FullDecide(Apply(s, AllowOp(rule)), host, q) == Allow
  {
    var t := Apply(s, DenyOp(rule));
    if FullDecide(s, host, q) == Deny {
      StricterRulesDenyMore(s.allow, s.deny, t.allow, t.deny, host, q);
    }
    var u := Apply(s, AllowOp(rule));
    if FullDecide(u, host, q) == Deny {
      StricterRulesDenyMore(u.allow, u.deny, s.allow, s.deny, host, q);
    }
  }

  /** A denied path denies everything below it, whatever else is allowed. */
  lemma DeniedPathDeniesSubtree(allow: set<Rule>, deny: set<Rule>, host: HostOf, kind: Kind, action: Action,
                                prefix: seq<string>, below: seq<string>)
    requires Rule(kind, action, Path(prefix)) in deny
    ensures Decide(allow, deny, host, Rule(kind, action, Path(prefix + below))) == Deny
  {
    var r := Rule(kind, action, Path(prefix));
    assert r.resource.Path? && PathIsUnder(prefix + below, r.resource.components);
  }

  // ------------------------------------------------------------------ the order of the levels

  /** The rule names the requested path or a directory above it, for the same kind and action. */
  predicate CoversPath(r: Rule, q: Rule) {
    && r.kind == q.kind && r.action == q.action
    && q.resource.Path? && r.resource.Path?
    && |r.resource.components| <= |q.resource.components|
    && forall i | 0 <= i < |r.resource.components| :: r.resource.components[i] == q.resource.components[i]
  }

  /** The rule names the host of the requested URL, which is to be connected to or listened on. */
  predicate CoversHost(host: HostOf, r: Rule, q: Rule) {
    && q.kind == Network && q.action in {Connect, Listen} && q.resource.Url?
    && r.kind == q.kind && r.action == q.action
    && r.resource.Name? && host(q.resource.url) == Some(r.resource.name)
  }

  lemma PathRuleMatchesIff(rules: set<Rule>, q: Rule)
    ensures PathRuleMatches(rules, q) <==> exists r :: r in rules && CoversPath(r, q)
  {
    if r :| r in rules && CoversPath(r, q) {
      assert PathIsUnder(q.resource.components, r.resource.components);
    }
    if PathRuleMatches(rules, q) {
      var r :| r in rules && r.kind == q.kind && r.action == q.action && r.resource.Path? &&
               PathIsUnder(q.resource.components, r.resource.components);
      assert CoversPath(r, q);
    }
  }

  lemma HostRuleMatchesIff(rules: set<Rule>, host: HostOf, q: Rule)
    ensures HostRule(host, q).Some? && HostRule(host, q).value in rules <==>
      exists r :: r in rules && CoversHost(host, r, q)
    ensures forall r | CoversHost(host, r, q) :: HostRule(host, q) == Some(r)
  {
    if HostRule(host, q).Some? {
      assert CoversHost(host, HostRule(host, q).value, q);
    }
  }

  /** A request is denied exactly in three cases: it or a path above it is denied; its host is denied and
      it is not allowed itself; or its kind and action are denied and neither it, its host nor a
      path above it is allowed. */
  lemma DeniedIff(allow: set<Rule>, deny: set<Rule>, host: HostOf, q: Rule)
    ensures Decide(allow, deny, host, q) == Deny <==>
      || q in deny || (exists r :: r in deny && CoversPath(r, q))
      || (q !in allow && exists r :: r in deny && CoversHost(host, r, q))
      || (Rule(q.kind, q.action, Any) in deny && q !in allow
          && !(exists r :: r in allow && (CoversHost(host, r, q) || CoversPath(r, q))))
  {
    PathRuleMatchesIff(allow, q);
    PathRuleMatchesIff(deny, q);
    HostRuleMatchesIff(allow, host, q);
    HostRuleMatchesIff(deny, host, q);
  }

  /** A denied host denies every URL of that host to connect to or listen on, unless that very URL is
      allowed, whatever the wildcard says. */
  lemma DeniedHostDeniesUrls(allow: set<Rule>, deny: set<Rule>, host: HostOf, action: Action, name: string, url: string)
    requires action in {Connect, Listen} && Rule(Network, action, Name(name)) in deny && host(url) == Some(name)
    requires Rule(Network, action, Url(url)) !in allow
    ensures Decide(allow, deny, host, Rule(Network, action, Url(url))) == Deny
  {
    assert CoversHost(host, Rule(Network, action, Name(name)), Rule(Network, action, Url(url)));
    DeniedIff(allow, deny, host, Rule(Network, action, Url(url)));
  }

  // ------------------------------------------------------------------ the sandbox

  /** A live allow rule of one of the three kinds that can overrule a wildcard denial. */
  ghost predicate Justified(s: State, host: HostOf, q: Rule) {
    || q in s.allow
    || (HostRule(host, q).Some? && HostRule(host, q).value in s.allow)
    || PathRuleMatches(s.allow, q)
  }

  /** A deny rule more specific than the wildcard stands in the way. */
  ghost predicate Blocked(s: State, host: HostOf, q: Rule) {
    || q in s.deny
    || PathRuleMatches(s.deny, q)
    || (q !in s.allow && HostRule(host, q).Some? && HostRule(host, q).value in s.deny)
  }

  lemma {:induction false} DenialStays(s: State, ops: seq<Op>, rule: Rule)
    requires rule in s.deny && forall i | 0 <= i < |ops| :: ops[i] != AllowOp(rule)
    ensures rule in ApplyAll(s, ops).deny
    decreases |ops|
  {
    if ops != [] {
      DenialStays(s, ops[..|ops| - 1], rule);
    }
  }

  lemma {:induction false} DeniedEach(s: State, rules: seq<Rule>, i: nat)
    requires i < |rules|
    ensures rules[i] in ApplyAll(s, DenyEach(rules)).deny
    decreases |rules|
  {
    var front := rules[..|rules| - 1];
    assert DenyEach(rules)[..|rules| - 1] == DenyEach(front);
    if i < |front| {
      DeniedEach(s, front, i);
    }
  }

  /** Denying some rules moves them, and nothing else, from the allow set to the deny set. */
  lemma {:induction false} DenyEachMoves(s: State, rules: seq<Rule>)
    ensures var moved := set r | r in rules;
      ApplyAll(s, DenyEach(rules)) == State(s.allow - moved, s.deny + moved, s.restricted || rules != [])
    decreases |rules|
  {
    if rules != [] {
      var front := rules[..|rules| - 1];
      assert DenyEach(rules)[..|rules| - 1] == DenyEach(front);
      DenyEachMoves(s, front);
      assert forall r :: r in rules <==> r in front || r == rules[|rules| - 1];
    }
  }

  lemma SandboxDenies(s: State, rule: Rule)
    requires rule in SANDBOXED
    ensures rule in ApplyAll(s, DenyEach(SANDBOXED)).deny
  {
    var i :| 0 <= i < |SANDBOXED| && SANDBOXED[i] == rule;
    DeniedEach(s, SANDBOXED, i);
  }

  /** After `deny_all` and then any calls that never allow the wildcard of the request's kind and
      action, a request on one of the six covered pairs is allowed exactly when a live exact, host
      or ancestor-path rule allows it and no equally specific rule denies it. */
  lemma SandboxAllowsOnlyTheJustified(s: State, ops: seq<Op>, host: HostOf, q: Rule)
    requires Wildcard(q) in SANDBOXED
    requires forall i | 0 <= i < |ops| :: ops[i] != AllowOp(Wildcard(q))
    ensures var t := ApplyAll(ApplyAll(s, DenyEach(SANDBOXED)), ops);
      FullDecide(t, host, q) == Allow <==> Justified(t, host, q) && !Blocked(t, host, q)
  {
    SandboxDenies(s, Wildcard(q));
    DenialStays(ApplyAll(s, DenyEach(SANDBOXED)), ops, Wildcard(q));
    DeniedWildcard(ApplyAll(ApplyAll(s, DenyEach(SANDBOXED)), ops), host, q);
  }

  /** Under a wildcard denial only the more specific rules can allow. */
  lemma DeniedWildcard(s: State, host: HostOf, q: Rule)
    requires Wildcard(q) in s.deny
    ensures FullDecide(s, host, q) == Allow <==> Justified(s, host, q) && !Blocked(s, host, q)
  {
  }

  // ------------------------------------------------------------------ the fast path

  /** The fast path agrees with the full decision on every request exactly when the flag is up or
      there is no deny rule. */
  lemma FastPathAgreesIff(s: State, host: HostOf)
    ensures (forall q :: FastDecide(s, host, q) == FullDecide(s, host, q)) <==> s.restricted || s.deny == {}
  {
    if !s.restricted {
      if s.deny != {} {
        var r :| r in s.deny;
        assert FullDecide(s, host, r) == Deny;
      } else {
        forall q ensures FullDecide(s, host, q) == Allow {
        }
      }
    }
  }

  /** That condition holds after every run of `allow` and `deny` calls from a fresh process. */
  lemma {:induction false} FastPathIsExact(ops: seq<Op>, host: HostOf, q: Rule)
    ensures FastDecide(ApplyAll(EMPTY, ops), host, q) == FullDecide(ApplyAll(EMPTY, ops), host, q)
  {
    DenialsRaiseTheFlag(ops);
    FastPathAgreesIff(ApplyAll(EMPTY, ops), host);
  }

  lemma {:induction false} DenialsRaiseTheFlag(ops: seq<Op>)
    ensures var s := ApplyAll(EMPTY, ops); s.restricted || s.deny == {}
    decreases |ops|
  {
    if ops != [] {
      DenialsRaiseTheFlag(ops[..|ops| - 1]);
    }
  }

  /** The flag is up exactly when something was ever denied. */
  lemma {:induction false} FlagTellsOfDenials(ops: seq<Op>)
    ensures ApplyAll(EMPTY, ops).restricted <==> exists i :: 0 <= i < |ops| && ops[i].DenyOp?
    decreases |ops|
  {
    if ops != [] {
      var front := ops[..|ops| - 1];
      FlagTellsOfDenials(front);
      assert forall i | 0 <= i < |front| :: front[i] == ops[i];
      if i :| 0 <= i < |ops| && ops[i].DenyOp? {
        assert i < |front| ==> front[i].DenyOp?;
      }
    }
  }

  /** Lowering the flag without clearing the rules breaks it: a denied request passes. */
  lemma LoweredFlagLetsDeniedPass(host: HostOf) returns (ops: seq<Op>, q: Rule)
    ensures var s := ApplyAll(EMPTY, ops).(restricted := false);
      FullDecide(s, host, q) == Deny && FastDecide(s, host, q) == Allow
  {
    q := Rule(Process, Execute, Name("sh"));
    ops := [DenyOp(q)];
    assert ops[..0] == [];
    assert ApplyAll(EMPTY, ops) == Apply(EMPTY, DenyOp(q));
  }
}
