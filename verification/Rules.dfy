/**
  The simple meaning of a normalised rule list: the first gateway rule that matches a host.
  Regular expressions are the regexp package's business and enter as a parameter.
  */
module Rules {
  import opened Text

  /** The regular expression engine: which patterns compile and which hosts they match. */
  datatype Regexps = Regexps(compiles: string -> bool, matches: (string, string) -> bool)

  datatype Rule = Rule(
    name: string,
    priority: int,
    exit: string,
    dnsPool: string,
    domain: seq<string>,
    domainSuffix: seq<string>,
    domainKeyword: seq<string>,
    domainRegex: seq<string>,
    ipCidr: seq<string>,
    ruleSet: seq<string>)
  {
    predicate Gateway() { exit != "" }

    predicate DNSOnly() { dnsPool != "" }

    predicate Empty() {
      domain == [] && domainSuffix == [] && domainKeyword == [] && domainRegex == [] && ipCidr == [] && ruleSet == []
    }
  }

  function GatewayRules(rules: seq<Rule>): (r: seq<Rule>)
    ensures forall rule :: rule in r <==> rule in rules && rule.Gateway()
  {
    if rules == [] then []
    else if rules[0].Gateway() then [rules[0]] + GatewayRules(rules[1..])
    else GatewayRules(rules[1..])
  }

  lemma {:induction false} GatewayRulesAppend(rules: seq<Rule>, rule: Rule)
    ensures GatewayRules(rules + [rule]) == GatewayRules(rules) + if rule.Gateway() then [rule] else []
  {
    if rules == [] {
    } else {
      assert (rules + [rule])[1..] == rules[1..] + [rule];
      GatewayRulesAppend(rules[1..], rule);
    }
  }

  predicate MatchesExact(value: string, host: string) {
    EqualFold(DropLastDot(value), host)
  }

  function SuffixOf(value: string): string {
    Lower(DropFirstDot(DropLastDot(value)))
  }

  predicate MatchesSuffix(value: string, host: string) {
    host == SuffixOf(value) || HasSuffix(host, "." + SuffixOf(value))
  }

  predicate MatchesKeyword(value: string, host: string) {
    Contains(host, Lower(value))
  }

  /** matchRuleDomain: any matcher of the rule accepts the host. */
  predicate MatchesRule(re: Regexps, rule: Rule, host: string) {
    || (exists v :: v in rule.domain && MatchesExact(v, host))
    || (exists v :: v in rule.domainSuffix && MatchesSuffix(v, host))
    || (exists v :: v in rule.domainKeyword && MatchesKeyword(v, host))
    || (exists v :: v in rule.domainRegex && re.matches(v, host))
  }

  function FirstMatch(re: Regexps, rules: seq<Rule>, host: string): Option<Rule> {
    if rules == [] then None
    else if MatchesRule(re, rules[0], host) then Some(rules[0])
    else FirstMatch(re, rules[1..], host)
  }

  /** Normalized.MatchGatewayDomain. */
  function MatchGatewayDomain(re: Regexps, rules: seq<Rule>, host: string): Option<Rule> {
    FirstMatch(re, GatewayRules(rules), Lower(DropLastDot(host)))
  }

  // ---------------------------------------------------------------- what a rule list means, in plain terms

  /** No capital letter, and no dot at an end. */
  predicate Bare(value: string) {
    value != "" && (forall c :: c in value ==> c !in CAPITALS) && value[0] != '.' && value[|value| - 1] != '.'
  }

  /** An exact value is the host, a suffix value is the host or what follows a dot, a keyword is anywhere in it. */
  lemma ValuesMean(value: string, host: string)
    requires Bare(value) && Bare(host)
    ensures MatchesExact(value, host) <==> host == value
    ensures MatchesExact(value + ".", host) <==> host == value
    ensures MatchesSuffix(value, host) <==> host == value || exists front :: host == front + "." + value
    ensures MatchesSuffix("." + value + ".", host) <==> MatchesSuffix(value, host)
    ensures MatchesKeyword(value, host) <==> exists front, back :: host == front + value + back
  {
    LowerMeans(value);
    LowerMeans(host);
    DropDotMeans(value);
    DropDotMeans("." + value);
    PartsMean(host, value);
    PartsMean(host, "." + value);
    assert forall front :: front + "." + value == front + ("." + value);
  }

  /** Case does not matter in a value. */
  lemma CaseIgnored(a: string, b: string, host: string)
    requires Lower(a) == Lower(b)
    ensures MatchesExact(a, host) == MatchesExact(b, host)
    ensures MatchesSuffix(a, host) == MatchesSuffix(b, host)
    ensures MatchesKeyword(a, host) == MatchesKeyword(b, host)
  {
    assert |a| == |Lower(a)| == |b|;
    assert forall i :: 0 <= i < |a| ==> LowerChar(a[i]) == Lower(a)[i] == Lower(b)[i] == LowerChar(b[i]);
    assert Lower(DropLastDot(a)) == Lower(DropLastDot(b));
    assert SuffixOf(a) == SuffixOf(b);
  }

  /** The rule at `at` is the first with an exit that matches the host, which may be written with a last dot. */
  ghost predicate FirstWithExit(re: Regexps, rules: seq<Rule>, host: string, at: nat) {
    && at < |rules| && rules[at].exit != "" && MatchesRule(re, rules[at], host)
    && forall i :: 0 <= i < at && rules[i].exit != "" ==> !MatchesRule(re, rules[i], host)
  }

  /** The gateway's rule for a host is the first one with an exit that matches it, if there is any. */
  lemma {:induction false} GatewayDomainMeans(re: Regexps, rules: seq<Rule>, host: string)
    ensures var found := FirstMatch(re, GatewayRules(rules), host);
            match found
            case Some(rule) => exists at: nat :: FirstWithExit(re, rules, host, at) && rule == rules[at]
            case None => forall rule :: rule in rules && rule.exit != "" ==> !MatchesRule(re, rule, host)
    ensures Bare(host) ==> MatchGatewayDomain(re, rules, host) == FirstMatch(re, GatewayRules(rules), host)
                           == MatchGatewayDomain(re, rules, host + ".")
  {
    hide MatchesRule;
    HostMeans(host);
    if rules == [] {
    } else {
      var rest := rules[1..];
      GatewayDomainMeans(re, rest, host);
      var found := FirstMatch(re, GatewayRules(rest), host);
      if rules[0].exit != "" && MatchesRule(re, rules[0], host) {
        assert FirstWithExit(re, rules, host, 0);
      } else if found.Some? {
        var at: nat :| FirstWithExit(re, rest, host, at) && found.value == rest[at];
        assert rules[at + 1] == rest[at];
        assert FirstWithExit(re, rules, host, at + 1);
      }
    }
  }

  /** Nor does case in the host. */
  lemma HostCaseIgnored(re: Regexps, rules: seq<Rule>, a: string, b: string)
    requires Lower(a) == Lower(b)
    ensures MatchGatewayDomain(re, rules, a) == MatchGatewayDomain(re, rules, b)
  {
    assert |a| == |Lower(a)| == |b|;
    assert forall i :: 0 <= i < |a| ==> LowerChar(a[i]) == Lower(a)[i] == Lower(b)[i] == LowerChar(b[i]);
    assert Lower(DropLastDot(a)) == Lower(DropLastDot(b));
  }

  lemma HostMeans(host: string)
    ensures Bare(host) ==> Lower(DropLastDot(host)) == host == Lower(DropLastDot(host + "."))
  {
    LowerMeans(host);
    DropDotMeans(host);
  }
}
