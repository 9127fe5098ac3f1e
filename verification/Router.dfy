/**
 * Rule-based routing, with fake addresses turned back into domains first.
 *
 * A target is its host text; the port never takes part in a decision.  IP parsing and
 * printing, CIDR membership and the GeoIP/ASN databases are parameters (`Lib`), and so are
 * the health scores and the order in which Go walks the outbound map.
 */
module Router {
  import opened Basics
  import opened FakeIP

  datatype Lib = Lib(
    parseIP: string -> Option<Addr>,
    showIP: nat -> string,
    inNet: (string, Addr) -> bool,
    geo: Option<(Addr, string) -> bool>,
    asn: (Addr, string) -> bool)

  datatype Rule = Rule(kind: string, pattern: string, outbound: string, group: string, strategy: string)

  datatype Outbound = Outbound(name: string, group: string)

  datatype Resolver = Resolver(fakeEnabled: bool, pool: Pool)

  datatype Table = Table(rules: seq<Rule>, outbounds: map<string, Outbound>, resolver: Option<Resolver>)

  datatype Verdict = Via(out: Outbound) | NoOutbound | Crash

  // ----- the decision -----

  /** Turning a fake address back into its domain, unless looking it up panics. */
  function Restore(lib: Lib, resolver: Option<Resolver>, host: string): Option<string> {
    match lib.parseIP(host)
    case None => Some(host)
    case Some(ip) =>
      if resolver.None? || !resolver.value.fakeEnabled then Some(host)
      else match Lookup(resolver.value.pool, ip)
           case Known(domain) => Some(domain)
           case Unknown => Some(host)
           case Panic => None
  }

  predicate HasSuffix(s: string, suffix: string) {
    |suffix| <= |s| && s[|s| - |suffix|..] == suffix
  }

  function TrimStar(pattern: string): string {
    if pattern != [] && pattern[0] == '*' then pattern[1..] else pattern
  }

  predicate Matches(lib: Lib, rule: Rule, host: string) {
    var ip := lib.parseIP(host);
    if rule.kind == "default" then true
    else if rule.kind == "domain" then HasSuffix(host, TrimStar(rule.pattern))
    else if rule.kind == "ip" then ip.Some? && lib.inNet(rule.pattern, ip.value)
    else if rule.kind == "geoip" then ip.Some? && lib.geo.Some? && lib.geo.value(ip.value, rule.pattern)
    else if rule.kind == "asn" then ip.Some? && lib.geo.Some? && lib.asn(ip.value, rule.pattern)
    else false
  }

  /** `i` is the first rule that matches `host`, or the number of rules if none does. */
  ghost predicate FirstMatch(lib: Lib, rules: seq<Rule>, host: string, i: nat) {
    && i <= |rules|
    && (i < |rules| ==> Matches(lib, rules[i], host))
    && forall k :: 0 <= k < i ==> !Matches(lib, rules[k], host)
  }

  function InGroup(outbounds: map<string, Outbound>, order: seq<string>, group: string): seq<Outbound>
    requires forall k :: k in order ==> k in outbounds
  {
    if order == [] then []
    else
      var o := outbounds[order[0]];
      (if o.group == group then [o] else []) + InGroup(outbounds, order[1..], group)
  }

  /** The choice among the candidates of a group. */
  ghost predicate Chosen(cands: seq<Outbound>, strategy: string, score: Outbound -> real, out: Outbound) {
    if strategy == "lowest-latency" && exists i :: 0 <= i < |cands| && score(cands[i]) > -1.0
    then exists i :: Best(cands, score, i) && out == cands[i]
    else cands != [] && out == cands[0]
  }

  /** `i` is the first candidate of maximal score. */
  ghost predicate Best(cands: seq<Outbound>, score: Outbound -> real, i: int) {
    && 0 <= i < |cands|
    && (forall k :: 0 <= k < |cands| ==> score(cands[k]) <= score(cands[i]))
    && (forall k :: 0 <= k < i ==> score(cands[k]) < score(cands[i]))
  }

  /** What Route may answer for a target whose fake address has been undone. */
  ghost predicate Decides(lib: Lib, t: Table, host: string, order: seq<string>, score: Outbound -> real, v: Verdict)
    requires forall k :: k in order ==> k in t.outbounds
  {
    exists i :: FirstMatch(lib, t.rules, host, i) && Answers(t.outbounds, RuleAt(t.rules, i), order, score, v)
  }

  function RuleAt(rules: seq<Rule>, i: nat): Option<Rule> {
    if i < |rules| then Some(rules[i]) else None
  }

  /** The answer once it is known which rule matched, if any. */
  ghost predicate Answers(outbounds: map<string, Outbound>, rule: Option<Rule>, order: seq<string>,
                          score: Outbound -> real, v: Verdict)
    requires forall k :: k in order ==> k in outbounds
  {
    if rule.None? || rule.value.outbound != "" then
      var name := if rule.None? then "default" else rule.value.outbound;
      v == if name in outbounds then Via(outbounds[name]) else NoOutbound
    else
      var cands := InGroup(outbounds, order, rule.value.group);
      if cands == [] then v == NoOutbound
      else v.Via? && Chosen(cands, rule.value.strategy, score, v.out)
  }

  /** Route on a target as it comes in. */
  ghost predicate Routes(lib: Lib, t: Table, host: string, order: seq<string>, score: Outbound -> real, v: Verdict)
    requires forall k :: k in order ==> k in t.outbounds
  {
    match Restore(lib, t.resolver, host)
    case None => v == Crash
    case Some(restored) => Decides(lib, t, restored, order, score, v)
  }

  // ----- the properties -----

  /** For a given walking order and given scores, a target has exactly one verdict. */
  lemma RouteUnique(lib: Lib, t: Table, host: string, order: seq<string>, score: Outbound -> real)
    requires forall k :: k in order ==> k in t.outbounds
    ensures exists v :: Routes(lib, t, host, order, score, v)
                        && forall v' :: Routes(lib, t, host, order, score, v') ==> v' == v
  {
    hide Routes;
    var v := RouteTotal(lib, t, host, order, score);
    forall v' | Routes(lib, t, host, order, score, v')
      ensures v' == v
    {
      RouteDeterministic(lib, t, host, order, score, v, v');
    }
  }

  lemma RouteDeterministic(lib: Lib, t: Table, host: string, order: seq<string>, score: Outbound -> real,
                           v: Verdict, v': Verdict)
    requires forall k :: k in order ==> k in t.outbounds
    requires Routes(lib, t, host, order, score, v) && Routes(lib, t, host, order, score, v')
    ensures v == v'
  {
    hide Matches, Restore, Answers;
    if Restore(lib, t.resolver, host).Some? {
      var h := Restore(lib, t.resolver, host).value;
      var i :| FirstMatch(lib, t.rules, h, i) && Answers(t.outbounds, RuleAt(t.rules, i), order, score, v);
      var j :| FirstMatch(lib, t.rules, h, j) && Answers(t.outbounds, RuleAt(t.rules, j), order, score, v');
      assert i == j;
      AnswerUnique(t.outbounds, RuleAt(t.rules, i), order, score, v, v');
    }
  }

  lemma RouteTotal(lib: Lib, t: Table, host: string, order: seq<string>, score: Outbound -> real) returns (v: Verdict)
    requires forall k :: k in order ==> k in t.outbounds
    ensures Routes(lib, t, host, order, score, v)
  {
    hide Matches, Restore, Answers;
    match Restore(lib, t.resolver, host) {
      case None => v := Crash;
      case Some(h) =>
        var i := SomeMatch(lib, t.rules, h);
        v := SomeAnswer(t.outbounds, RuleAt(t.rules, i), order, score);
    }
  }

  lemma {:induction false} SomeMatch(lib: Lib, rules: seq<Rule>, host: string) returns (i: nat)
    ensures FirstMatch(lib, rules, host, i)
  {
    hide Matches;
    if rules == [] || Matches(lib, rules[0], host) {
      i := 0;
    } else {
      var j := SomeMatch(lib, rules[1..], host);
      i := j + 1;
      assert forall k :: 0 < k < |rules| ==> rules[k] == rules[1..][k - 1];
    }
  }

  lemma SomeAnswer(outbounds: map<string, Outbound>, rule: Option<Rule>, order: seq<string>, score: Outbound -> real)
    returns (v: Verdict)
    requires forall k :: k in order ==> k in outbounds
    ensures Answers(outbounds, rule, order, score, v)
  {
    hide InGroup;
    if rule.None? || rule.value.outbound != "" {
      var name := if rule.None? then "default" else rule.value.outbound;
      v := if name in outbounds then Via(outbounds[name]) else NoOutbound;
    } else {
      var cands := InGroup(outbounds, order, rule.value.group);
      if cands == [] {
        v := NoOutbound;
      } else if rule.value.strategy == "lowest-latency" && exists i :: 0 <= i < |cands| && score(cands[i]) > -1.0 {
        var i := SomeBest(cands, score);
        v := Via(cands[i]);
      } else {
        v := Via(cands[0]);
      }
    }
  }

  lemma {:induction false} SomeBest(cands: seq<Outbound>, score: Outbound -> real) returns (i: nat)
    requires cands != []
    ensures Best(cands, score, i)
  {
    if |cands| == 1 {
      i := 0;
    } else {
      var n := |cands| - 1;
      var j := SomeBest(cands[..n], score);
      assert forall k :: 0 <= k < n ==> cands[..n][k] == cands[k];
      i := if score(cands[n]) > score(cands[j]) then n else j;
    }
  }

  lemma AnswerUnique(outbounds: map<string, Outbound>, rule: Option<Rule>, order: seq<string>,
                     score: Outbound -> real, v: Verdict, v': Verdict)
    requires forall k :: k in order ==> k in outbounds
    requires Answers(outbounds, rule, order, score, v) && Answers(outbounds, rule, order, score, v')
    ensures v == v'
  {
    hide InGroup, Chosen;
    if rule.Some? && rule.value.outbound == "" && v.Via? {
      ChoiceUnique(InGroup(outbounds, order, rule.value.group), rule.value.strategy, score, v.out, v'.out);
    }
  }

  lemma ChoiceUnique(cands: seq<Outbound>, strategy: string, score: Outbound -> real, a: Outbound, b: Outbound)
    requires Chosen(cands, strategy, score, a) && Chosen(cands, strategy, score, b)
    ensures a == b
  {
    if strategy == "lowest-latency" && exists i :: 0 <= i < |cands| && score(cands[i]) > -1.0 {
      var i :| Best(cands, score, i) && a == cands[i];
      var j :| Best(cands, score, j) && b == cands[j];
      assert i == j;
    }
  }

  /** A domain rule matches exactly the hosts that end in its pattern, a leading star dropped. */
  lemma DomainRuleIff(lib: Lib, rule: Rule, host: string)
    requires rule.kind == "domain"
    ensures Matches(lib, rule, host) <==> exists prefix :: host == prefix + TrimStar(rule.pattern)
  {
    var suffix := TrimStar(rule.pattern);
    if HasSuffix(host, suffix) {
      assert host == host[..|host| - |suffix|] + suffix;
    }
  }

  /** When a rule applies, kind by kind; GeoIP and ASN rules need a database. */
  ghost predicate Applies(lib: Lib, rule: Rule, host: string) {
    || rule.kind == "default"
    || (rule.kind == "domain" && exists prefix, suffix ::
          host == prefix + suffix && (rule.pattern == "*" + suffix || (rule.pattern == suffix && !("*" <= suffix))))
    || exists a ::
         && lib.parseIP(host) == Some(a)
         && (|| (rule.kind == "ip" && lib.inNet(rule.pattern, a))
             || (rule.kind == "geoip" && exists db :: lib.geo == Some(db) && db(a, rule.pattern))
             || (rule.kind == "asn" && lib.geo != None && lib.asn(a, rule.pattern)))
  }

  lemma MatchesApplies(lib: Lib, rule: Rule, host: string)
    ensures Matches(lib, rule, host) <==> Applies(lib, rule, host)
  {
    if rule.kind == "domain" {
      DomainRuleIff(lib, rule, host);
      var suffix := TrimStar(rule.pattern);
      if "*" <= rule.pattern {
        assert rule.pattern == "*" + suffix;
      }
      forall x | rule.pattern == "*" + x || (rule.pattern == x && !("*" <= x))
        ensures x == suffix
      {
      }
      if Matches(lib, rule, host) {
        var prefix :| host == prefix + suffix;
      }
    }
  }

  /** Whether looking the host up among the fake addresses leaves it as it is. */
  ghost predicate NotFake(lib: Lib, t: Table, host: string) {
    || lib.parseIP(host) == None
    || t.resolver == None
    || !t.resolver.value.fakeEnabled
    || exists n :: lib.parseIP(host) == Some(V4(n)) && n !in t.resolver.value.pool.ipToDomain
  }

  lemma {:induction false} InGroupIff(outbounds: map<string, Outbound>, order: seq<string>, group: string, o: Outbound)
    requires forall k :: k in order ==> k in outbounds
    ensures o in InGroup(outbounds, order, group) <==> o.group == group && exists k :: k in order && outbounds[k] == o
  {
    if order != [] {
      InGroupIff(outbounds, order[1..], group, o);
      assert order == [order[0]] + order[1..];
    }
  }

  /** What a rule asks for, in terms of the outbounds alone. */
  ghost predicate Obeys(outbounds: map<string, Outbound>, order: seq<string>, score: Outbound -> real,
                        rule: Rule, v: Verdict)
    requires forall k :: k in order ==> k in outbounds
  {
    if rule.outbound != "" then
      v == if rule.outbound in outbounds then Via(outbounds[rule.outbound]) else NoOutbound
    else if forall k :: k in order ==> outbounds[k].group != rule.group then v == NoOutbound
    else
      && v.Via? && v.out.group == rule.group
      && (exists k :: k in order && outbounds[k] == v.out)
      && (rule.strategy == "lowest-latency" ==>
            forall k :: k in order && outbounds[k].group == rule.group && score(outbounds[k]) > -1.0 ==>
              score(outbounds[k]) <= score(v.out))
      && (rule.strategy != "lowest-latency"
          || (forall k :: k in order && outbounds[k].group == rule.group ==> score(outbounds[k]) <= -1.0) ==>
            exists i :: FirstInGroup(outbounds, order, rule.group, i) && outbounds[order[i]] == v.out)
  }

  ghost predicate FirstInGroup(outbounds: map<string, Outbound>, order: seq<string>, group: string, i: int)
    requires forall k :: k in order ==> k in outbounds
  {
    && 0 <= i < |order| && outbounds[order[i]].group == group
    && forall j :: 0 <= j < i ==> outbounds[order[j]].group != group
  }

  lemma {:induction false} FirstCandidate(outbounds: map<string, Outbound>, order: seq<string>, group: string)
    returns (i: nat)
    requires (forall k :: k in order ==> k in outbounds) && InGroup(outbounds, order, group) != []
    ensures FirstInGroup(outbounds, order, group, i) && outbounds[order[i]] == InGroup(outbounds, order, group)[0]
  {
    if outbounds[order[0]].group == group {
      i := 0;
    } else {
      var j := FirstCandidate(outbounds, order[1..], group);
      i := j + 1;
      assert forall k :: 0 < k < |order| ==> order[k] == order[1..][k - 1];
    }
  }

  lemma AnswersObey(outbounds: map<string, Outbound>, order: seq<string>, score: Outbound -> real, rule: Rule, v: Verdict)
    requires forall k :: k in order ==> k in outbounds
    requires Answers(outbounds, Some(rule), order, score, v)
    ensures Obeys(outbounds, order, score, rule, v)
  {
    hide InGroup;
    if rule.outbound == "" {
      var cands := InGroup(outbounds, order, rule.group);
      forall o
        ensures o in cands <==> o.group == rule.group && exists k :: k in order && outbounds[k] == o
      {
        InGroupIff(outbounds, order, rule.group, o);
      }
      if cands == [] {
        forall k | k in order
          ensures outbounds[k].group != rule.group
        {
          assert outbounds[k] !in cands;
        }
      } else {
        assert cands[0] in cands;
        assert v.out in cands;
        var i := FirstCandidate(outbounds, order, rule.group);
        if forall k :: k in order && outbounds[k].group == rule.group ==> score(outbounds[k]) <= -1.0 {
          assert forall i :: 0 <= i < |cands| ==> cands[i] in cands;
        }
        forall k | k in order && outbounds[k].group == rule.group && score(outbounds[k]) > -1.0
                   && rule.strategy == "lowest-latency"
          ensures score(outbounds[k]) <= score(v.out)
        {
          assert outbounds[k] in cands;
        }
      }
    }
  }

  /** The first rule that applies decides, and what it asks for is what comes out. */
  lemma FirstApplyingRuleDecides(lib: Lib, t: Table, host: string, before: seq<Rule>, rule: Rule, after: seq<Rule>,
                                 order: seq<string>, score: Outbound -> real, v: Verdict)
    requires (forall k :: k in order ==> k in t.outbounds) && NotFake(lib, t, host)
    requires t.rules == before + [rule] + after
    requires (forall r :: r in before ==> !Applies(lib, r, host)) && Applies(lib, rule, host)
    requires Routes(lib, t, host, order, score, v)
    ensures Obeys(t.outbounds, order, score, rule, v)
  {
    var i := |before|;
    assert t.rules[i] == rule;
    MatchesApplies(lib, rule, host);
    forall k | 0 <= k < i
      ensures !Matches(lib, t.rules[k], host)
    {
      assert t.rules[k] == before[k] && before[k] in before;
      MatchesApplies(lib, before[k], host);
    }
    hide Matches, Applies, Answers, Obeys;
    assert FirstMatch(lib, t.rules, host, i);
    FirstMatchUnique(lib, t.rules, host, i);
    AnswersObey(t.outbounds, order, score, rule, v);
  }

  /** With no rule that applies, the outbound named default is used, and nothing else. */
  lemma NoRuleApplies(lib: Lib, t: Table, host: string, order: seq<string>, score: Outbound -> real, v: Verdict)
    requires (forall k :: k in order ==> k in t.outbounds) && NotFake(lib, t, host)
    requires forall r :: r in t.rules ==> !Applies(lib, r, host)
    ensures Routes(lib, t, host, order, score, v)
            <==> v == if "default" in t.outbounds then Via(t.outbounds["default"]) else NoOutbound
  {
    forall k | 0 <= k < |t.rules|
      ensures !Matches(lib, t.rules[k], host)
    {
      assert t.rules[k] in t.rules;
      MatchesApplies(lib, t.rules[k], host);
    }
    hide Matches, Applies;
    assert FirstMatch(lib, t.rules, host, |t.rules|);
    FirstMatchUnique(lib, t.rules, host, |t.rules|);
  }

  /** The rules that can be about names. */
  function NameRules(rules: seq<Rule>): seq<Rule> {
    if rules == [] then []
    else (if rules[0].kind in {"default", "domain"} then [rules[0]] else []) + NameRules(rules[1..])
  }

  /** The rule that decides does not change when the rules about addresses are left out. */
  lemma {:induction false} SameFirstRule(lib: Lib, rules: seq<Rule>, host: string) returns (i: nat, j: nat)
    requires lib.parseIP(host).None?
    ensures FirstMatch(lib, rules, host, i) && FirstMatch(lib, NameRules(rules), host, j)
    ensures RuleAt(rules, i) == RuleAt(NameRules(rules), j)
  {
    if rules == [] {
      i, j := 0, 0;
    } else if Matches(lib, rules[0], host) {
      i, j := 0, 0;
    } else {
      var i', j' := SameFirstRule(lib, rules[1..], host);
      hide Matches;
      var names, rest := NameRules(rules), NameRules(rules[1..]);
      i, j := i' + 1, j' + |names| - |rest|;
      assert forall k :: 0 < k < |rules| ==> rules[k] == rules[1..][k - 1];
    }
  }

  /** A name is routed the same with or without the ip, geoip and asn rules in between. */
  lemma AddressRulesIrrelevant(lib: Lib, t: Table, host: string, order: seq<string>, score: Outbound -> real, v: Verdict)
    requires (forall k :: k in order ==> k in t.outbounds) && lib.parseIP(host).None?
    ensures Routes(lib, t, host, order, score, v)
            <==> Routes(lib, t.(rules := NameRules(t.rules)), host, order, score, v)
  {
    var i, j := SameFirstRule(lib, t.rules, host);
    hide Matches, Answers, NameRules;
    FirstMatchUnique(lib, t.rules, host, i);
    FirstMatchUnique(lib, NameRules(t.rules), host, j);
  }

  lemma FirstMatchUnique(lib: Lib, rules: seq<Rule>, host: string, i: nat)
    requires FirstMatch(lib, rules, host, i)
    ensures forall k: nat :: FirstMatch(lib, rules, host, k) ==> k == i
  {
    hide Matches;
  }

  /** The text of an IPv4 address reads back as that address. */
  ghost predicate TextRoundTrips(lib: Lib) {
    forall n: nat :: n < SPACE ==> lib.parseIP(lib.showIP(n)) == Some(V4(n))
  }

  /**
   * After any run of allocations, the fake address of a domain routes exactly as the domain
   * does while the domain is among the last N allocated; and at any time a fake address
   * routes as the domain it stands for at that time.
   */
  lemma FakeAddressRoutesAsDomain(lib: Lib, t: Table, ip: nat, ones: nat, ds: seq<string>, i: nat,
                                  order: seq<string>, score: Outbound -> real, v: Verdict)
    requires ip < SPACE && ones <= 30 && i < |Firsts(ds)|
    requires t.resolver == Some(Resolver(true, After(ip, ones, ds)))
    requires TextRoundTrips(lib) && forall d :: d in ds ==> lib.parseIP(d).None?
    requires forall k :: k in order ==> k in t.outbounds
    ensures var p, d := After(ip, ones, ds), Firsts(ds)[i];
            && d in p.domainToIP && p.domainToIP[d] in p.ipToDomain
            && var fake, owner := lib.showIP(p.domainToIP[d]), p.ipToDomain[p.domainToIP[d]];
               && (Routes(lib, t, fake, order, score, v) <==> Routes(lib, t, owner, order, score, v))
               && (|Firsts(ds)| - 1 - i < Capacity(ones) ==> owner == d)
               && (|Firsts(ds)| - 1 - i >= Capacity(ones) ==> owner != d)
  {
    hide Decides, GetAll, NewPool, Pow2, Capacity;
    RoundTripWindow(ip, ones, ds, i);
    ClosedForm(ip, ones, ds, i);
    var p, d := After(ip, ones, ds), Firsts(ds)[i];
    var a := p.domainToIP[d];
    AddressOwnerAgrees(ip, ones, ds, a);
    OwnerWasAsked(ip, ones, ds, p.ipToDomain[a]);
    assert lib.parseIP(lib.showIP(a)) == Some(V4(a));
  }

  lemma OwnerWasAsked(ip: nat, ones: nat, ds: seq<string>, d: string)
    requires ip < SPACE && ones <= 30 && d in After(ip, ones, ds).domainToIP
    ensures d in ds
  {
    hide Firsts, GetAll, NewPool, Pow2, Capacity, Slot, Names, Live, Owned, Distinct;
    Reached(ip, ones, ds);
    NamesOnly(After(ip, ones, ds).domainToIP, Base(ip, ones) + 1, Capacity(ones), Firsts(ds), d);
    FirstsFrom(ds, d);
  }

  lemma {:induction false} FirstsFrom(ds: seq<string>, d: string)
    requires d in Firsts(ds)
    ensures d in ds
    decreases |ds|
  {
    if d in Firsts(ds[..|ds| - 1]) {
      FirstsFrom(ds[..|ds| - 1], d);
    }
  }

  /** Routing crashes exactly on an IPv6 target while fake addresses are enabled. */
  lemma CrashIff(lib: Lib, t: Table, host: string, order: seq<string>, score: Outbound -> real)
    requires forall k :: k in order ==> k in t.outbounds
    ensures Routes(lib, t, host, order, score, Crash)
            <==> lib.parseIP(host).Some? && lib.parseIP(host).value.V6?
                 && t.resolver.Some? && t.resolver.value.fakeEnabled
  {
    hide Matches;
  }

  // ----- the class -----

  class BaseRouter {
    var rules: seq<Rule>
    var outbounds: map<string, Outbound>
    var resolver: Option<Resolver>

    constructor ()
      ensures View() == Table([], map[], None)
    {
      rules, outbounds, resolver := [], map[], None;
    }

    function View(): Table
      reads this
    {
      Table(rules, outbounds, resolver)
    }

    method SetResolver(r: Resolver)
      modifies this
      ensures View() == old(View()).(resolver := Some(r))
    {
      resolver := Some(r);
    }

    method AddOutbound(o: Outbound)
      modifies this
      ensures View() == old(View()).(outbounds := old(outbounds)[o.name := o])
    {
      outbounds := outbounds[o.name := o];
    }

    method UpdateRules(rs: seq<Rule>)
      modifies this
      ensures View() == old(View()).(rules := rs)
    {
      rules := rs;
    }

    method Reset()
      modifies this
      ensures View() == Table([], map[], old(resolver))
    {
      rules := [];
      outbounds := map[];
    }

    method Route(lib: Lib, target: string, order: seq<string>, score: Outbound -> real) returns (v: Verdict)
      requires forall k :: k in order <==> k in outbounds
      ensures Routes(lib, View(), target, order, score, v)
    {
      hide Matches;
      var host := target;
      var ip := lib.parseIP(target);
      if ip.Some? && resolver.Some? && resolver.value.fakeEnabled {
        var found := Lookup(resolver.value.pool, ip.value);
        match found {
          case Known(domain) => host := domain;
          case Unknown =>
          case Panic => return Crash;
        }
      }
      assert Restore(lib, resolver, target) == Some(host);
      var i := 0;
      while i < |rules|
        invariant i <= |rules|
        invariant forall k :: 0 <= k < i ==> !Matches(lib, rules[k], host)
      {
        if Matches(lib, rules[i], host) {
          break;
        }
        i := i + 1;
      }
      assert FirstMatch(lib, rules, host, i);
      v := Apply(RuleAt(rules, i), order, score);
    }

    /** What Route does once it knows the first matching rule. */
    method Apply(rule: Option<Rule>, order: seq<string>, score: Outbound -> real) returns (v: Verdict)
      requires forall k :: k in order ==> k in outbounds
      ensures Answers(outbounds, rule, order, score, v)
    {
      if rule.None? {
        return if "default" in outbounds then Via(outbounds["default"]) else NoOutbound;
      }
      var name := rule.value.outbound;
      if name != "" {
        return if name in outbounds then Via(outbounds[name]) else NoOutbound;
      }
      var cands := Candidates(order, rule.value.group);
      if |cands| == 0 {
        return NoOutbound;
      }
      var out := SelectByStrategy(cands, rule.value.strategy, score);
      v := Via(out);
    }

    method Candidates(order: seq<string>, group: string) returns (cands: seq<Outbound>)
      requires forall k :: k in order ==> k in outbounds
      ensures cands == InGroup(outbounds, order, group)
    {
      cands := [];
      var rest := order;
      while rest != []
        invariant forall k :: k in rest ==> k in outbounds
        invariant cands + InGroup(outbounds, rest, group) == InGroup(outbounds, order, group)
        decreases |rest|
      {
        var o := outbounds[rest[0]];
        if o.group == group {
          cands := cands + [o];
        }
        rest := rest[1..];
      }
    }
  }

  method SelectByStrategy(cands: seq<Outbound>, strategy: string, score: Outbound -> real) returns (out: Outbound)
    requires cands != []
    ensures Chosen(cands, strategy, score, out)
  {
    if strategy == "lowest-latency" {
      var best := -1;
      var maxScore := -1.0;
      for i := 0 to |cands|
        invariant -1 <= best < i
        invariant best == -1 ==> maxScore == -1.0
        invariant best >= 0 ==> maxScore == score(cands[best]) > -1.0
        invariant forall k :: 0 <= k < i ==> score(cands[k]) <= maxScore
        invariant forall k :: 0 <= k < best ==> score(cands[k]) < maxScore
      {
        var s := score(cands[i]);
        if s > maxScore {
          maxScore := s;
          best := i;
        }
      }
      if best != -1 {
        assert Best(cands, score, best);
        return cands[best];
      }
    }
    out := cands[0];
  }
}
