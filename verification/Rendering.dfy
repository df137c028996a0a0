/**
  What is left to fail when a resolved bundle is prepared: after resolving, its rules are valid and its pools
  known, so rendering ends in complete files or at a fault that the contract names.
  */
module Rendering {
  import opened Text
  import opened Rules
  import opened Imports
  import opened RuleSources
  import opened Bundles
  import opened ExitIds
  import opened ExitSelection
  import Config
  import Haproxy
  import SmartDns

  /** A rule of a resolved bundle is valid, names a pool of its configuration, and is local or can be rendered. */
  lemma ResolvedRule(o: Outside, b: Bundle, rule: Rule)
    requires Resolve(o, b).Success? && rule in Resolve(o, b).value.resolved
    ensures RuleFault(o.world.re, rule).None?
    ensures rule.dnsPool != "" ==> rule.dnsPool in Resolve(o, b).value.config.PoolNames()
    ensures rule in Resolve(o, b).value.rules.rules || SmartDns.Representable(rule)
  {
    hide ApplyDefaults, NormalizeSpec, RuleFault, ManagedFault, UnknownRulePool, UnknownImportPool;
    var full := ApplyDefaults(b);
    UnknownRulePoolIff(full.rules.rules, full.config.PoolNames());
    UnknownImportPoolIff(full.rules.imports, full.config.PoolNames());
    NormalizedRule(o.world, false, full.rules, rule);
  }

  /** So the rules of a resolved bundle decide every domain that they mention, for the gateway or for a known pool. */
  lemma ResolvedIsDecided(o: Outside, b: Bundle)
    requires Resolve(o, b).Success?
    ensures var full := Resolve(o, b).value;
            && SmartDns.KeysApart(full.resolved)
            && (forall d :: SmartDns.Decide(full.resolved, d).Some? <==>
                              exists rule :: rule in full.resolved && SmartDns.Mentions(rule, d))
            && (forall e :: SmartDns.ForPool(full.resolved, e) ==> e.pool in full.config.PoolNames())
  {
    hide Resolve, SmartDns.KeysApart, SmartDns.Mentions, SmartDns.Decide;
    var full := Resolve(o, b).value;
    forall rule | rule in full.resolved
      ensures SmartDns.OneTarget(rule) && '\0' !in rule.dnsPool
      ensures rule.dnsPool != "" ==> rule.dnsPool in full.config.PoolNames()
    {
      ResolvedRule(o, b, rule);
    }
    SmartDns.ValidNamesApart(full.resolved);
    forall d ensures SmartDns.Decide(full.resolved, d).Some? <==>
                       exists rule :: rule in full.resolved && SmartDns.Mentions(rule, d)
    {
      SmartDns.MentionedIsDecided(full.resolved, d);
    }
    forall e | SmartDns.ForPool(full.resolved, e) ensures e.pool in full.config.PoolNames() {
      SmartDns.VerdictFromRule(full.resolved, e.domain);
    }
  }

  lemma {:induction false} NoPlanErrorIff(rules: seq<Rule>)
    ensures SmartDns.FirstError(rules).None? <==>
            forall rule :: rule in rules ==> SmartDns.Representable(rule) && !SmartDns.Mentions(rule, "")
  {
    hide SmartDns.Representable, SmartDns.Mentions;
    if rules == [] {
    } else {
      NoPlanErrorIff(rules[1..]);
    }
  }

  /** No keywords, patterns, addresses or rule sets. */
  ghost predicate DomainsOnly(rule: Rule) {
    rule.domainKeyword == [] && rule.domainRegex == [] && rule.ipCidr == [] && rule.ruleSet == []
  }

  lemma RepresentableIff()
    ensures forall rule :: SmartDns.Representable(rule) <==> DomainsOnly(rule)
  {
  }

  /** Every local rule has domains and suffixes only, and no value of any rule is empty once it is normalised. */
  ghost predicate Plannable(full: Bundle) {
    && (forall rule :: rule in full.rules.rules ==> DomainsOnly(rule))
    && (forall rule :: rule in full.resolved ==> !SmartDns.Mentions(rule, ""))
  }

  lemma PlannableIff(o: Outside, b: Bundle)
    requires Resolve(o, b).Success?
    ensures Plannable(Resolve(o, b).value) <==> SmartDns.FirstError(Resolve(o, b).value.resolved).None?
  {
    hide Resolve, SmartDns.Representable, DomainsOnly, SmartDns.Mentions;
    RepresentableIff();
    var full := Resolve(o, b).value;
    NoPlanErrorIff(full.resolved);
    ResolvedIsSettled(o, b);
    forall rule | rule in full.rules.rules ensures rule in full.resolved {
      assert rule in multiset(full.rules.rules);
    }
    forall rule | rule in full.resolved ensures rule in full.rules.rules || SmartDns.Representable(rule) {
      ResolvedRule(o, b, rule);
    }
  }

  /** Each domain that a rule mentions is in a list. */
  ghost predicate AllListed(rules: seq<Rule>, files: map<string, seq<string>>) {
    forall rule, d :: rule in rules && SmartDns.Mentions(rule, d) ==> exists f :: SmartDns.Listed(files, f, d)
  }

  lemma MentionedIsListed(o: Outside, b: Bundle, full: Bundle, files: map<string, seq<string>>)
    requires Resolve(o, b) == Success(full) && SmartDns.FilesFollow(full.resolved, files, true)
    ensures AllListed(full.resolved, files)
  {
    hide Resolve, SmartDns.Mentions, SmartDns.Decide, SmartDns.Listed, SmartDns.KeysApart;
    ResolvedIsDecided(o, b);
    forall rule, d | rule in full.resolved && SmartDns.Mentions(rule, d)
      ensures exists f :: SmartDns.Listed(files, f, d)
    {
      var verdict := SmartDns.Decide(full.resolved, d).value;
      assert SmartDns.Listed(files, SmartDns.ListFor(verdict), d);
    }
  }

  /**
    What Supervisor.prepareAt generates from a resolved bundle: it can be generated exactly when the exits are usable
    and the lists can be planned. Then each domain that any rule mentions is in a list, the one it is decided for.
    */
  method GenerateResolved(sha: Sha256, o: Outside, b: Bundle, full: Bundle)
      returns (r: Result<(Haproxy.Generated, SmartDns.Output), Haproxy.GenerateError>)
    requires Resolve(o, b) == Success(full)
    ensures r.Success? <==> ExitsValid(full.config, full.resolved) && Plannable(full)
    ensures r.Success? ==> Haproxy.Rendered(sha, full.config, full.resolved, r.value.0)
    ensures r.Success? ==> SmartDns.FilesFollow(full.resolved, r.value.1.files, true)
    ensures r.Success? ==> AllListed(full.resolved, r.value.1.files)
  {
    hide Resolve, ExitsValid, Plannable, Haproxy.Rendered, SmartDns.FirstError, SmartDns.KeysApart,
        SmartDns.FilesFollow, SmartDns.ForPool, SmartDns.Decide, AllListed;
    ResolvedIsDecided(o, b);
    PlannableIff(o, b);
    r := Haproxy.GenerateAt(sha, full.config, full.resolved);
    if r.Success? {
      MentionedIsListed(o, b, full, r.value.1.files);
    }
  }
}
