/**
  The plan of domain lists for SmartDNS: every domain of the rules goes to the gateway list or to one
  upstream pool, as the first rule that mentions it decides, and each list goes to a file of its own.
  */
module SmartDns {
  import opened Text
  import opened Rules
  import opened Ordering
  import Config

  datatype PoolRule = PoolRule(domain: string, pool: string)

  datatype Plan = Plan(gatewayDomains: seq<string>, poolRules: seq<PoolRule>)

  datatype PlanError = Unsupported(rule: string) | EmptyDomain(rule: string) | UnknownPool(pool: string)

  // ---------------------------------------------------------------- what the first rule decides

  datatype Verdict = ToGateway | ToPool(pool: string)

  /** normalizeDomain. */
  function NormalizeDomain(value: string): string {
    Lower(DropFirstDot(DropLastDot(TrimSpace(value))))
  }

  /** A rule decides by its pool if it has one, else by its exit. */
  function VerdictBy(rule: Rule): Option<Verdict> {
    if rule.DNSOnly() then Some(ToPool(rule.dnsPool)) else if rule.Gateway() then Some(ToGateway) else None
  }

  predicate Mentions(rule: Rule, domain: string) {
    exists v :: v in rule.domain + rule.domainSuffix && NormalizeDomain(v) == domain
  }

  /** The verdict of the first deciding rule that mentions the domain. */
  function Decide(rules: seq<Rule>, domain: string): Option<Verdict> {
    if rules == [] then None
    else if Mentions(rules[0], domain) && VerdictBy(rules[0]).Some? then VerdictBy(rules[0])
    else Decide(rules[1..], domain)
  }

  predicate Representable(rule: Rule) {
    rule.domainKeyword == [] && rule.domainRegex == [] && rule.ipCidr == [] && rule.ruleSet == []
  }

  function FirstError(rules: seq<Rule>): Option<PlanError> {
    if rules == [] then None
    else if !Representable(rules[0]) then Some(Unsupported(rules[0].name))
    else if Mentions(rules[0], "") then Some(EmptyDomain(rules[0].name))
    else FirstError(rules[1..])
  }

  /** The rule at `at` is the first that mentions the domain and has a target. */
  ghost predicate FirstToDecide(rules: seq<Rule>, domain: string, at: nat) {
    && at < |rules| && Mentions(rules[at], domain) && (rules[at].dnsPool != "" || rules[at].exit != "")
    && forall i :: 0 <= i < at && Mentions(rules[i], domain) ==> rules[i].dnsPool == "" && rules[i].exit == ""
  }

  /** It sends the domain to its pool if it has one, else to the gateway; no other rule has a say. */
  lemma {:induction false} DecideMeans(rules: seq<Rule>, domain: string)
    ensures match Decide(rules, domain)
            case Some(ToPool(pool)) =>
              exists at: nat :: FirstToDecide(rules, domain, at) && rules[at].dnsPool == pool && pool != ""
            case Some(ToGateway) => exists at: nat :: FirstToDecide(rules, domain, at) && rules[at].dnsPool == ""
            case None =>
              forall rule :: rule in rules && Mentions(rule, domain) ==> rule.dnsPool == "" && rule.exit == ""
  {
    hide Mentions;
    if rules == [] {
    } else if Mentions(rules[0], domain) && VerdictBy(rules[0]).Some? {
      assert FirstToDecide(rules, domain, 0);
    } else {
      var rest := rules[1..];
      DecideMeans(rest, domain);
      assert forall i :: 0 <= i < |rest| ==> rest[i] == rules[i + 1];
      if Decide(rest, domain).Some? {
        var at: nat :| FirstToDecide(rest, domain, at) &&
          match Decide(rest, domain).value
          case ToPool(pool) => rest[at].dnsPool == pool && pool != ""
          case ToGateway => rest[at].dnsPool == "";
        assert FirstToDecide(rules, domain, at + 1);
      }
    }
  }

  /** What a value mentions: itself without spaces around it, a last dot and a first one, in small letters. */
  lemma MentionedMeans(value: string)
    ensures exists core, bare, inner :: Unspaced(value, core) && Undotted(core, bare) && Unfronted(bare, inner) &&
                                        Folded(inner, NormalizeDomain(value))
  {
    hide TrimSpace, Lower, DropLastDot, DropFirstDot, Unspaced, Undotted, Unfronted, Folded;
    var core := TrimSpace(value);
    var bare := DropLastDot(core);
    var inner := DropFirstDot(bare);
    TrimSpaceMeans(value);
    DropDotMeans(core);
    DropDotMeans(bare);
    LowerMeans(inner);
  }

  lemma {:induction false} DecideAppend(rules: seq<Rule>, rule: Rule, domain: string)
    ensures Decide(rules + [rule], domain) == if Decide(rules, domain).Some? then Decide(rules, domain)
                                              else if Mentions(rule, domain) then VerdictBy(rule) else None
  {
    hide Mentions, VerdictBy;
    if rules == [] {
      assert (rules + [rule])[1..] == [];
    } else {
      assert (rules + [rule])[1..] == rules[1..] + [rule];
      DecideAppend(rules[1..], rule, domain);
    }
  }

  /** Two parts of the key of an entry that was seen: they can run together. */
  function Key(entry: PoolRule): string {
    entry.pool + ['\0'] + entry.domain
  }

  ghost predicate ForPool(rules: seq<Rule>, entry: PoolRule) {
    Decide(rules, entry.domain) == Some(ToPool(entry.pool))
  }

  /** No two entries that the rules decide share a key. */
  ghost predicate KeysApart(rules: seq<Rule>) {
    forall a, b :: ForPool(rules, a) && ForPool(rules, b) && Key(a) == Key(b) ==> a == b
  }

  lemma KeyInjective(a: PoolRule, b: PoolRule)
    requires Key(a) == Key(b) && '\0' !in a.pool && '\0' !in b.pool
    ensures a == b
  {
    SeparatorSplits('\0', a.pool, a.domain, b.pool, b.domain);
  }

  /** validDNSPoolName lets through letters, digits and `_.-` only, so validated rules have their keys apart. */
  lemma ValidNamesApart(rules: seq<Rule>)
    requires forall rule :: rule in rules ==> '\0' !in rule.dnsPool
    ensures KeysApart(rules)
  {
    forall a, b | ForPool(rules, a) && ForPool(rules, b) && Key(a) == Key(b) ensures a == b {
      VerdictFromRule(rules, a.domain);
      VerdictFromRule(rules, b.domain);
      KeyInjective(a, b);
    }
  }

  lemma {:induction false} VerdictFromRule(rules: seq<Rule>, domain: string)
    requires Decide(rules, domain).Some?
    ensures exists rule :: rule in rules && Mentions(rule, domain) && VerdictBy(rule) == Decide(rules, domain)
  {
    hide Mentions, VerdictBy;
    if Mentions(rules[0], domain) && VerdictBy(rules[0]).Some? {
      assert rules[0] in rules;
    } else {
      VerdictFromRule(rules[1..], domain);
    }
  }

  /** A rule as validateRule lets it through: exactly one of exit and pool. */
  predicate OneTarget(rule: Rule) {
    (rule.exit == "") != (rule.dnsPool == "")
  }

  /** With such rules every domain that is mentioned at all is decided. */
  lemma {:induction false} MentionedIsDecided(rules: seq<Rule>, domain: string)
    requires forall rule :: rule in rules ==> OneTarget(rule)
    ensures Decide(rules, domain).Some? <==> exists rule :: rule in rules && Mentions(rule, domain)
  {
    hide Mentions;
    if rules == [] {
    } else {
      MentionedIsDecided(rules[1..], domain);
      assert rules[0] in rules && OneTarget(rules[0]);
      assert VerdictBy(rules[0]).Some?;
    }
  }

  const RUN_TOGETHER: seq<Rule> := [
    Rule("a", 0, "", "p", ["x\0y"], [], [], [], [], []),
    Rule("b", 0, "", "p\0x", ["y"], [], [], [], [], [])]

  /** Without that validation two entries can share a key, and the second would be dropped. */
  lemma KeysCanMeet()
    ensures !KeysApart(RUN_TOGETHER)
  {
    var a, b := PoolRule("x\0y", "p"), PoolRule("y", "p\0x");
    assert Key(a) == "p\0x\0y" == Key(b);
    MentionsOnly(RUN_TOGETHER[0], "x\0y");
    MentionsOnly(RUN_TOGETHER[1], "y");
    assert ForPool(RUN_TOGETHER, a);
    assert Decide(RUN_TOGETHER[1..], "y") == Some(ToPool("p\0x"));
    assert ForPool(RUN_TOGETHER, b);
  }

  lemma MentionsOnly(rule: Rule, value: string)
    requires rule.domain == [value] && rule.domainSuffix == []
    requires value != "" && NoEdge(value, SPACES + DOT) && Lower(value) == value
    ensures forall d :: Mentions(rule, d) <==> d == value
  {
    TrimKeeps(value, SPACES);
    assert NormalizeDomain(value) == value;
    assert rule.domain + rule.domainSuffix == [value];
  }

  // ---------------------------------------------------------------- order of the lists

  predicate EntryBefore(a: PoolRule, b: PoolRule) {
    if a.domain == b.domain then StringBefore(a.pool, b.pool) else StringBefore(a.domain, b.domain)
  }

  /** By domain first, then by pool. */
  lemma EntryBeforeMeans(a: PoolRule, b: PoolRule)
    ensures StringBefore(a.domain, b.domain) ==> EntryBefore(a, b)
    ensures EntryBefore(a, b) <==>
            StringBefore(a.domain, b.domain) || (a.domain == b.domain && StringBefore(a.pool, b.pool))
  {
    StringBeforeTotal(a.domain, b.domain);
  }

  lemma EntriesOrdered(s: set<PoolRule>)
    ensures StrictTotal(EntryBefore, s)
  {
    StringsOrdered({});
    forall a, b ensures !EntryBefore(a, a) && (a != b ==> EntryBefore(a, b) || EntryBefore(b, a)) {
      StringBeforeTotal(a.domain, b.domain);
      StringBeforeTotal(a.pool, b.pool);
    }
    forall a, b, c | EntryBefore(a, b) && EntryBefore(b, c) ensures EntryBefore(a, c) {
      EntryBeforeTransitive(a, b, c);
    }
  }

  lemma EntryBeforeTransitive(a: PoolRule, b: PoolRule, c: PoolRule)
    requires EntryBefore(a, b) && EntryBefore(b, c)
    ensures EntryBefore(a, c)
  {
    hide StringBefore;
    if a.domain == b.domain == c.domain {
      StringBeforeTransitive(a.pool, b.pool, c.pool);
    } else if a.domain != b.domain && b.domain != c.domain {
      StringBeforeTransitive(a.domain, b.domain, c.domain);
      StringBeforeTotal(a.domain, a.domain);
      if a.domain == c.domain {
        StringBeforeTransitive(b.domain, c.domain, b.domain);
        StringBeforeTotal(b.domain, b.domain);
      }
    }
  }

  // ---------------------------------------------------------------- buildPlan

  /** The shared maps of buildPlan. */
  class Seen {
    var decided: set<string>
    var gateway: set<string>
    var keys: set<string>
    var poolRules: seq<PoolRule>

    constructor ()
      ensures Tracks(_ => None)
    {
      decided, gateway, keys, poolRules := {}, {}, {}, [];
    }

    /** The maps say what has been decided so far. */
    ghost predicate Tracks(verdict: string -> Option<Verdict>)
      reads this
    {
      && (forall d :: d in decided <==> verdict(d).Some?)
      && (forall d :: d in gateway <==> verdict(d) == Some(ToGateway))
      && (forall e :: e in poolRules ==> verdict(e.domain) == Some(ToPool(e.pool)))
      && (forall i, j :: 0 <= i < j < |poolRules| ==> Key(poolRules[i]) != Key(poolRules[j]))
      && (forall k :: k in keys <==> exists e :: e in poolRules && Key(e) == k)
      && (forall d :: verdict(d).Some? && verdict(d).value.ToPool? ==> Key(PoolRule(d, verdict(d).value.pool)) in keys)
    }

    /** addDomainRule. */
    method AddDomainRule(rule: Rule, domain: string, ghost verdict: string -> Option<Verdict>) returns (ok: bool)
      requires Tracks(verdict)
      modifies this
      ensures ok == (domain != "")
      ensures ok ==> Tracks(Decided(verdict, domain, VerdictBy(rule)))
    {
      hide Tracks;
      if domain == "" {
        return false;
      }
      ok := true;
      DecidedMeans(verdict);
      if domain in decided {
        Same(verdict, Decided(verdict, domain, VerdictBy(rule)));
      } else if rule.DNSOnly() {
        AddPool(PoolRule(domain, rule.dnsPool), verdict);
      } else if rule.Gateway() {
        AddGateway(domain, verdict);
      } else {
        Same(verdict, Decided(verdict, domain, None));
      }
    }

    lemma DecidedMeans(verdict: string -> Option<Verdict>)
      requires Tracks(verdict)
      ensures forall d :: d in decided <==> verdict(d).Some?
    {
    }

    method AddPool(entry: PoolRule, ghost verdict: string -> Option<Verdict>)
      requires Tracks(verdict) && entry.domain !in decided
      modifies this`decided, this`keys, this`poolRules
      ensures Tracks(Decided(verdict, entry.domain, Some(ToPool(entry.pool))))
    {
      hide Key;
      if Key(entry) !in keys {
        ghost var before := poolRules;
        poolRules := poolRules + [entry];
        keys := keys + {Key(entry)};
        assert forall e :: e in poolRules <==> e in before || e == entry;
      }
      decided := decided + {entry.domain};
    }

    method AddGateway(domain: string, ghost verdict: string -> Option<Verdict>)
      requires Tracks(verdict) && domain !in decided
      modifies this`decided, this`gateway
      ensures Tracks(Decided(verdict, domain, Some(ToGateway)))
    {
      hide Key;
      gateway := gateway + {domain};
      decided := decided + {domain};
    }

    /** The two inner loops of buildPlan. */
    method AddValues(rule: Rule, values: seq<string>, ghost verdict: string -> Option<Verdict>) returns (ok: bool)
      requires Tracks(verdict)
      modifies this
      ensures ok == forall v :: v in values ==> NormalizeDomain(v) != ""
      ensures ok ==> Tracks(After(verdict, rule, values))
    {
      hide NormalizeDomain, Tracks, After, Decided, VerdictBy;
      NothingAfter(verdict, rule);
      Same(verdict, After(verdict, rule, values[..0]));
      for n := 0 to |values|
        invariant Tracks(After(verdict, rule, values[..n]))
        invariant forall i :: 0 <= i < n ==> NormalizeDomain(values[i]) != ""
      {
        ghost var before := After(verdict, rule, values[..n]);
        var domain := NormalizeDomain(values[n]);
        ok := AddDomainRule(rule, domain, before);
        if !ok {
          return;
        }
        OneAfter(verdict, rule, values, n);
        Same(Decided(before, domain, VerdictBy(rule)), After(verdict, rule, values[..n + 1]));
      }
      assert values[..|values|] == values;
      ok := true;
    }

    lemma Same(a: string -> Option<Verdict>, b: string -> Option<Verdict>)
      requires forall d :: a(d) == b(d)
      ensures Tracks(a) ==> Tracks(b)
    {
    }
  }

  /** The verdicts once a rule with verdict `own` has mentioned `domain`. */
  ghost function Decided(verdict: string -> Option<Verdict>, domain: string,
      own: Option<Verdict>): string -> Option<Verdict> {
    d => if d == domain && verdict(d).None? then own else verdict(d)
  }

  ghost function After(verdict: string -> Option<Verdict>, rule: Rule, values: seq<string>): string -> Option<Verdict> {
    d => if verdict(d).None? && (exists v :: v in values && NormalizeDomain(v) == d) then VerdictBy(rule)
         else verdict(d)
  }

  lemma NothingAfter(verdict: string -> Option<Verdict>, rule: Rule)
    ensures forall d :: After(verdict, rule, [])(d) == verdict(d)
  {
  }

  lemma OneAfter(verdict: string -> Option<Verdict>, rule: Rule, values: seq<string>, n: nat)
    requires n < |values|
    ensures var before := After(verdict, rule, values[..n]);
            forall d :: Decided(before, NormalizeDomain(values[n]), VerdictBy(rule))(d) ==
              After(verdict, rule, values[..n + 1])(d)
  {
    hide NormalizeDomain, VerdictBy;
    assert values[..n + 1] == values[..n] + [values[n]];
  }

  ghost function Verdicts(rules: seq<Rule>): string -> Option<Verdict> {
    d => Decide(rules, d)
  }

  lemma AfterRule(rules: seq<Rule>, n: nat)
    requires n < |rules|
    ensures forall d :: Decide(rules[..n + 1], d) ==
              After(After(Verdicts(rules[..n]), rules[n], rules[n].domain), rules[n], rules[n].domainSuffix)(d)
  {
    hide NormalizeDomain, VerdictBy, Decide;
    var rule := rules[n];
    forall d
      ensures Decide(rules[..n + 1], d) ==
                After(After(Verdicts(rules[..n]), rule, rule.domain), rule, rule.domainSuffix)(d)
    {
      assert rules[..n + 1] == rules[..n] + [rule];
      DecideAppend(rules[..n], rule, d);
      assert Mentions(rule, d) <==>
             (exists v :: v in rule.domain && NormalizeDomain(v) == d) ||
                 (exists v :: v in rule.domainSuffix && NormalizeDomain(v) == d);
    }
  }

  /** The loop of buildPlan. */
  method AddRules(norm: seq<Rule>) returns (r: Result<Seen, PlanError>)
    ensures match FirstError(norm)
            case Some(error) => r == Failure(error)
            case None => r.Success? && fresh(r.value) && r.value.Tracks(Verdicts(norm))
  {
    hide Decide, VerdictBy, NormalizeDomain, Seen.Tracks;
    var seen := new Seen();
    StartsEmpty(seen);
    for n := 0 to |norm|
      invariant seen.Tracks(Verdicts(norm[..n])) && fresh(seen)
      invariant FirstError(norm) == FirstError(norm[n..])
    {
      var rule := norm[n];
      if !Representable(rule) {
        return Failure(Unsupported(rule.name));
      }
      var ok := seen.AddValues(rule, rule.domain, Verdicts(norm[..n]));
      if ok {
        ok := seen.AddValues(rule, rule.domainSuffix, After(Verdicts(norm[..n]), rule, rule.domain));
      }
      assert ok == !Mentions(rule, "");
      if !ok {
        return Failure(EmptyDomain(rule.name));
      }
      AfterRule(norm, n);
      seen.Same(After(After(Verdicts(norm[..n]), rule, rule.domain), rule, rule.domainSuffix), Verdicts(norm[..n + 1]));
    }
    assert norm[..|norm|] == norm;
    r := Success(seen);
  }

  lemma StartsEmpty(seen: Seen)
    requires seen.Tracks(_ => None)
    ensures seen.Tracks(Verdicts([]))
  {
    hide Seen.Tracks;
    seen.Same(_ => None, Verdicts([]));
  }

  /** The plan splits the domains by their verdict, each list in its order. */
  ghost predicate Splits(rules: seq<Rule>, plan: Plan) {
    && (forall d :: d in plan.gatewayDomains <==> Decide(rules, d) == Some(ToGateway))
    && (forall e :: e in plan.poolRules ==> ForPool(rules, e))
    && Sorted(StringBefore, plan.gatewayDomains) && Sorted(EntryBefore, plan.poolRules)
  }

  /** Every domain that a rule sends to a pool is in the plan. */
  ghost predicate Complete(rules: seq<Rule>, plan: Plan) {
    forall e :: ForPool(rules, e) ==> e in plan.poolRules
  }

  /**
    buildPlan. Nothing is planned against the first rule that mentions it, and nothing is left out, exactly
    when no two entries share a key.
    */
  method BuildPlan(norm: seq<Rule>) returns (r: Result<Plan, PlanError>)
    ensures match FirstError(norm)
            case Some(error) => r == Failure(error)
            case None => r.Success? && Splits(norm, r.value) && (Complete(norm, r.value) <==> KeysApart(norm))
  {
    hide Decide, Key;
    var seen := AddRules(norm);
    if seen.Failure? {
      return Failure(seen.error);
    }
    var gatewayDomains := RangeOver(seen.value.gateway);
    var plan := Plan(SortBy(StringBefore, gatewayDomains), SortBy(EntryBefore, seen.value.poolRules));
    SortedPlan(norm, seen.value, gatewayDomains, plan);
    CompleteIff(norm, seen.value);
    r := Success(plan);
  }

  lemma SortedPlan(norm: seq<Rule>, seen: Seen, gatewayDomains: seq<string>, plan: Plan)
    requires seen.Tracks(Verdicts(norm)) && Distinct(gatewayDomains) && Elements(gatewayDomains) == seen.gateway
    requires plan == Plan(SortBy(StringBefore, gatewayDomains), SortBy(EntryBefore, seen.poolRules))
    ensures Splits(norm, plan) && forall e :: e in plan.poolRules <==> e in seen.poolRules
  {
    hide Decide, Key, StringBefore, EntryBefore, SortBy;
    StringsOrdered(Elements(gatewayDomains));
    SortSorts(StringBefore, gatewayDomains);
    SortKeeps(StringBefore, gatewayDomains);
    SameElements(plan.gatewayDomains, gatewayDomains);
    EntriesOrdered(Elements(seen.poolRules));
    SortSorts(EntryBefore, seen.poolRules);
    SortKeeps(EntryBefore, seen.poolRules);
    SameElements(plan.poolRules, seen.poolRules);
    forall e ensures e in plan.poolRules <==> e in seen.poolRules {
      assert e in Elements(plan.poolRules) <==> e in Elements(seen.poolRules);
    }
    forall d ensures d in plan.gatewayDomains <==> Decide(norm, d) == Some(ToGateway) {
      assert d in Elements(plan.gatewayDomains) <==> d in seen.gateway;
      assert Verdicts(norm)(d) == Decide(norm, d);
    }
    assert forall d :: Verdicts(norm)(d) == Decide(norm, d);
  }

  lemma CompleteIff(norm: seq<Rule>, seen: Seen)
    requires seen.Tracks(Verdicts(norm))
    ensures (forall e :: ForPool(norm, e) ==> e in seen.poolRules) <==> KeysApart(norm)
  {
    hide Decide, Key, Seen.Tracks;
    if KeysApart(norm) {
      forall e | ForPool(norm, e) ensures e in seen.poolRules {
        var own := KeyTaken(norm, seen, e);
      }
    }
    if forall e :: ForPool(norm, e) ==> e in seen.poolRules {
      forall a, b | ForPool(norm, a) && ForPool(norm, b) && Key(a) == Key(b) ensures a == b {
        OneKeyEach(norm, seen, a, b);
      }
    }
  }

  lemma KeyTaken(norm: seq<Rule>, seen: Seen, e: PoolRule) returns (own: PoolRule)
    requires seen.Tracks(Verdicts(norm)) && ForPool(norm, e)
    ensures own in seen.poolRules && ForPool(norm, own) && Key(own) == Key(e)
  {
    hide Decide, Key;
    assert Verdicts(norm)(e.domain) == Decide(norm, e.domain);
    assert e == PoolRule(e.domain, Verdicts(norm)(e.domain).value.pool);
    own :| own in seen.poolRules && Key(own) == Key(e);
    assert Verdicts(norm)(own.domain) == Decide(norm, own.domain);
  }

  lemma OneKeyEach(norm: seq<Rule>, seen: Seen, a: PoolRule, b: PoolRule)
    requires seen.Tracks(Verdicts(norm)) && a in seen.poolRules && b in seen.poolRules && Key(a) == Key(b)
    ensures a == b
  {
    hide Decide, Key;
    var i :| 0 <= i < |seen.poolRules| && seen.poolRules[i] == a;
    var j :| 0 <= j < |seen.poolRules| && seen.poolRules[j] == b;
  }

  /** Whatever order the maps are read in: two complete plans of the same rules are equal. */
  lemma PlanIsDetermined(rules: seq<Rule>, a: Plan, b: Plan)
    requires Splits(rules, a) && Complete(rules, a) && Splits(rules, b) && Complete(rules, b)
    ensures a == b
  {
    hide Decide, StringBefore, EntryBefore;
    assert Elements(a.gatewayDomains) == Elements(b.gatewayDomains);
    StringsOrdered(Elements(a.gatewayDomains));
    SortedUnique(StringBefore, a.gatewayDomains, b.gatewayDomains);
    assert Elements(a.poolRules) == Elements(b.poolRules);
    EntriesOrdered(Elements(a.poolRules));
    SortedUnique(EntryBefore, a.poolRules, b.poolRules);
  }

  // ---------------------------------------------------------------- the list files

  /** The list files by name, and the domain sets that the configuration declares: file name and target. */
  datatype Output = Output(files: map<string, seq<string>>, sets: seq<string>)

  const GATEWAY_LIST := "gateway.list"

  function PoolList(pool: string): string {
    "pool_" + pool + ".list"
  }

  function ListFor(verdict: Verdict): string {
    match verdict
    case ToGateway => GATEWAY_LIST
    case ToPool(pool) => PoolList(pool)
  }

  lemma ListNames(pool: string)
    ensures ListFor(ToGateway) == "gateway.list" && ListFor(ToPool(pool)) == "pool_" + pool + ".list"
  {
  }

  lemma ListsApart(a: Verdict, b: Verdict)
    requires ListFor(a) == ListFor(b)
    ensures a == b
  {
    assert GATEWAY_LIST[0] == 'g';
    if a.ToPool? {
      assert PoolList(a.pool)[0] == 'p' && a.pool == PoolList(a.pool)[5..5 + |a.pool|];
    }
    if b.ToPool? {
      assert PoolList(b.pool)[0] == 'p' && b.pool == PoolList(b.pool)[5..5 + |b.pool|];
    }
  }

  function DomainsOf(poolRules: seq<PoolRule>, pool: string): seq<string> {
    if poolRules == [] then []
    else DomainsOf(poolRules[..|poolRules| - 1], pool) +
         if poolRules[|poolRules| - 1].pool == pool then [poolRules[|poolRules| - 1].domain] else []
  }

  lemma {:induction false} DomainsOfMeaning(poolRules: seq<PoolRule>, pool: string)
    ensures forall d :: d in DomainsOf(poolRules, pool) <==> PoolRule(d, pool) in poolRules
  {
    if poolRules == [] {
    } else {
      var front, last := poolRules[..|poolRules| - 1], poolRules[|poolRules| - 1];
      DomainsOfMeaning(front, pool);
      assert forall e :: e in poolRules <==> e in front || e == last;
    }
  }

  lemma {:induction false} DomainsOfSorted(poolRules: seq<PoolRule>, pool: string)
    requires Sorted(EntryBefore, poolRules)
    ensures Sorted(StringBefore, DomainsOf(poolRules, pool))
  {
    hide StringBefore;
    if poolRules == [] {
    } else {
      var front, last := poolRules[..|poolRules| - 1], poolRules[|poolRules| - 1];
      DomainsOfSorted(front, pool);
      DomainsOfMeaning(front, pool);
      var list := DomainsOf(front, pool);
      forall i | 0 <= i < |list| && last.pool == pool ensures StringBefore(list[i], last.domain) {
        assert PoolRule(list[i], pool) in front;
        var k :| 0 <= k < |front| && front[k] == PoolRule(list[i], pool);
        assert EntryBefore(poolRules[k], last);
        StringBeforeTotal(pool, pool);
      }
    }
  }

  ghost predicate Listed(files: map<string, seq<string>>, name: string, domain: string) {
    name in files && domain in files[name]
  }

  /** The part of GenerateAt that checks the pools of the plan. */
  method CheckPools(pools: seq<string>, plan: Plan) returns (error: Option<PlanError>)
    ensures error.None? <==> forall e :: e in plan.poolRules ==> e.pool in pools
    ensures error.Some? ==> exists e :: e in plan.poolRules && e.pool !in pools && error == Some(UnknownPool(e.pool))
  {
    for n := 0 to |plan.poolRules|
      invariant forall i :: 0 <= i < n ==> plan.poolRules[i].pool in pools
    {
      if plan.poolRules[n].pool !in pools {
        assert plan.poolRules[n] in plan.poolRules;
        return Some(UnknownPool(plan.poolRules[n].pool));
      }
    }
    error := None;
  }

  /** The inner loop of GenerateAt. */
  method CollectPool(poolRules: seq<PoolRule>, pool: string) returns (domains: seq<string>)
    ensures domains == DomainsOf(poolRules, pool)
  {
    domains := [];
    for n := 0 to |poolRules|
      invariant domains == DomainsOf(poolRules[..n], pool)
    {
      assert poolRules[..n + 1][..n] == poolRules[..n];
      if poolRules[n].pool == pool {
        domains := domains + [poolRules[n].domain];
      }
    }
    assert poolRules[..|poolRules|] == poolRules;
  }

  /** The lists hold the domains of the pools done so far; each file is declared, and once when the pools differ. */
  ghost predicate Written(pools: seq<string>, poolRules: seq<PoolRule>, out: Output) {
    && (forall f :: f in out.files <==> exists p :: p in pools && f == PoolList(p) && DomainsOf(poolRules, p) != [])
    && (forall p :: p in pools && DomainsOf(poolRules, p) != [] ==> out.files[PoolList(p)] == DomainsOf(poolRules, p))
    && (forall f :: f in out.files <==> f in out.sets)
    && (Distinct(pools) ==> Distinct(out.sets))
  }

  /** One turn of the outer loop of GenerateAt. */
  method WritePool(poolRules: seq<PoolRule>, ghost done: seq<string>, pool: string, out: Output) returns (next: Output)
    requires Written(done, poolRules, out)
    ensures Written(done + [pool], poolRules, next)
  {
    hide DomainsOf, PoolList;
    var domains := CollectPool(poolRules, pool);
    PoolListsApart();
    assert Distinct(done + [pool]) ==> Distinct(done) && pool !in done by {
      assert forall i :: 0 <= i < |done| ==> (done + [pool])[i] == done[i];
      assert (done + [pool])[|done|] == pool;
    }
    assert pool !in done ==> PoolList(pool) !in out.sets;
    if domains == [] {
      next := out;
    } else {
      next := Output(out.files[PoolList(pool) := domains], out.sets + [PoolList(pool)]);
      assert forall f :: f in next.sets <==> f in out.sets || f == PoolList(pool);
    }
    assert forall p :: p in done + [pool] <==> p in done || p == pool;
    forall f | f in next.files
      ensures exists p :: p in done + [pool] && f == PoolList(p) && DomainsOf(poolRules, p) != []
    {
      if f in out.files {
        var p :| p in done && f == PoolList(p) && DomainsOf(poolRules, p) != [];
        assert p in done + [pool];
      } else {
        assert pool in done + [pool];
      }
    }
    assert forall p :: p in done + [pool] && DomainsOf(poolRules, p) != [] ==>
        next.files[PoolList(p)] == DomainsOf(poolRules, p);
    assert forall f :: f in next.files <==> f in next.sets;
    assert Distinct(done + [pool]) ==> Distinct(next.sets);
  }

  lemma PoolListsApart()
    ensures forall p, q :: PoolList(p) == PoolList(q) ==> p == q
  {
    forall p, q | PoolList(p) == PoolList(q) ensures p == q {
      ListsApart(ToPool(p), ToPool(q));
    }
  }

  /** The plan sends the domain there. */
  ghost predicate Sends(plan: Plan, domain: string, verdict: Verdict) {
    if verdict.ToGateway? then domain in plan.gatewayDomains else PoolRule(domain, verdict.pool) in plan.poolRules
  }

  lemma PoolFiles(pools: seq<string>, plan: Plan, out: Output, f: string, d: string)
    requires Written(pools, plan.poolRules, out) && forall e :: e in plan.poolRules ==> e.pool in pools
    ensures Listed(out.files, f, d) <==> exists v: Verdict :: v.ToPool? && Sends(plan, d, v) && f == ListFor(v)
  {
    hide DomainsOf, PoolList;
    if f in out.files {
      var p :| p in pools && f == PoolList(p) && DomainsOf(plan.poolRules, p) != [];
      DomainsOfMeaning(plan.poolRules, p);
      if d in out.files[f] {
        assert Sends(plan, d, ToPool(p)) && f == ListFor(ToPool(p));
      }
    }
    if v: Verdict :| v.ToPool? && Sends(plan, d, v) && f == ListFor(v) {
      assert PoolRule(d, v.pool).pool in pools;
      DomainsOfMeaning(plan.poolRules, v.pool);
      assert d in DomainsOf(plan.poolRules, v.pool);
      assert f == PoolList(v.pool);
    }
  }

  /** The gateway list added to the pool lists. */
  function WithGateway(out: Output, gatewayDomains: seq<string>): Output {
    if gatewayDomains == [] then out
    else Output(out.files[GATEWAY_LIST := gatewayDomains], out.sets + [GATEWAY_LIST])
  }

  lemma NoGatewayYet(pools: seq<string>, poolRules: seq<PoolRule>, out: Output)
    requires Written(pools, poolRules, out)
    ensures GATEWAY_LIST !in out.files && GATEWAY_LIST !in out.sets
  {
    if GATEWAY_LIST in out.files {
      var p :| p in pools && GATEWAY_LIST == PoolList(p) && DomainsOf(poolRules, p) != [];
      ListsApart(ToGateway, ToPool(p));
    }
  }

  lemma AllFiles(pools: seq<string>, plan: Plan, out: Output, f: string, d: string)
    requires Written(pools, plan.poolRules, out) && forall e :: e in plan.poolRules ==> e.pool in pools
    ensures Listed(WithGateway(out, plan.gatewayDomains).files, f, d) <==>
              exists v :: Sends(plan, d, v) && f == ListFor(v)
  {
    NoGatewayYet(pools, plan.poolRules, out);
    PoolFiles(pools, plan, out, f, d);
    hide Written, PoolList;
    if f == GATEWAY_LIST {
      assert Sends(plan, d, ToGateway) <==> d in plan.gatewayDomains;
      forall v: Verdict | v.ToPool? && f == ListFor(v) ensures false {
        ListsApart(v, ToGateway);
      }
    }
  }

  lemma FilesSorted(pools: seq<string>, norm: seq<Rule>, plan: Plan, out: Output, f: string)
    requires Written(pools, plan.poolRules, out) && Splits(norm, plan) &&
               f in WithGateway(out, plan.gatewayDomains).files
    ensures WithGateway(out, plan.gatewayDomains).files[f] != [] &&
              Sorted(StringBefore, WithGateway(out, plan.gatewayDomains).files[f])
  {
    hide StringBefore, DomainsOf, Decide, PoolList;
    if f != GATEWAY_LIST || plan.gatewayDomains == [] {
      var p :| p in pools && f == PoolList(p) && DomainsOf(plan.poolRules, p) != [];
      DomainsOfSorted(plan.poolRules, p);
    }
  }

  lemma FilesDeclared(pools: seq<string>, plan: Plan, out: Output)
    requires Written(pools, plan.poolRules, out)
    ensures forall f :: f in WithGateway(out, plan.gatewayDomains).files <==>
              f in WithGateway(out, plan.gatewayDomains).sets
    ensures Distinct(pools) ==> Distinct(WithGateway(out, plan.gatewayDomains).sets)
  {
    NoGatewayYet(pools, plan.poolRules, out);
    assert forall f :: f in out.sets + [GATEWAY_LIST] <==> f in out.sets || f == GATEWAY_LIST;
  }

  /** What the plan sends somewhere is what the rules decide. */
  lemma SendsDecides(norm: seq<Rule>, plan: Plan, d: string, v: Verdict)
    requires Splits(norm, plan)
    ensures Sends(plan, d, v) ==> Decide(norm, d) == Some(v)
    ensures Complete(norm, plan) && Decide(norm, d) == Some(v) ==> Sends(plan, d, v)
  {
    hide Decide, StringBefore, EntryBefore;
    if v.ToPool? {
      assert ForPool(norm, PoolRule(d, v.pool)) <==> Decide(norm, d) == Some(v);
    }
  }

  /** The part of GenerateAt that writes the lists. */
  method WriteLists(pools: seq<string>, plan: Plan) returns (out: Output, ghost poolLists: Output)
    ensures Written(pools, plan.poolRules, poolLists) && out == WithGateway(poolLists, plan.gatewayDomains)
  {
    hide DomainsOf;
    out := Output(map[], []);
    for n := 0 to |pools|
      invariant Written(pools[..n], plan.poolRules, out)
    {
      assert pools[..n + 1] == pools[..n] + [pools[n]];
      out := WritePool(plan.poolRules, pools[..n], pools[n], out);
    }
    assert pools[..|pools|] == pools;
    poolLists := out;
    if |plan.gatewayDomains| > 0 {
      out := Output(out.files[GATEWAY_LIST := plan.gatewayDomains], out.sets + [GATEWAY_LIST]);
    }
  }

  /** Every domain in a file is decided for that file, and with `whole` every decided one is there. */
  ghost predicate FilesFollow(norm: seq<Rule>, files: map<string, seq<string>>, whole: bool) {
    && (forall f, d :: Listed(files, f, d) ==> Decide(norm, d).Some? && f == ListFor(Decide(norm, d).value))
    && (whole ==> forall d :: Decide(norm, d).Some? ==> Listed(files, ListFor(Decide(norm, d).value), d))
    && (forall f :: f in files ==> files[f] != [] && Sorted(StringBefore, files[f]))
  }

  lemma FilesAsDecided(pools: seq<string>, norm: seq<Rule>, plan: Plan, out: Output)
    requires Written(pools, plan.poolRules, out) && Splits(norm, plan)
    requires forall e :: e in plan.poolRules ==> e.pool in pools
    ensures FilesFollow(norm, WithGateway(out, plan.gatewayDomains).files, Complete(norm, plan))
  {
    hide Decide, StringBefore, Splits, Written, WithGateway, Sends, Complete, Listed, ListFor;
    var files := WithGateway(out, plan.gatewayDomains).files;
    forall f, d | Listed(files, f, d) ensures Decide(norm, d).Some? && f == ListFor(Decide(norm, d).value) {
      AllFiles(pools, plan, out, f, d);
      var v :| Sends(plan, d, v) && f == ListFor(v);
      SendsDecides(norm, plan, d, v);
    }
    forall d | Complete(norm, plan) && Decide(norm, d).Some? ensures Listed(files, ListFor(Decide(norm, d).value), d) {
      var v := Decide(norm, d).value;
      SendsDecides(norm, plan, d, v);
      AllFiles(pools, plan, out, ListFor(v), d);
    }
    forall f | f in files ensures files[f] != [] && Sorted(StringBefore, files[f]) {
      FilesSorted(pools, norm, plan, out, f);
    }
  }

  /**
    GenerateAt, the lists. Every domain in a file is decided for that file alone; unless keys meet, every decided
    domain is there; every file is strictly sorted and declared, once when the pools differ.
    */
  method GenerateAt(cfg: Config.Config, norm: seq<Rule>) returns (r: Result<Output, PlanError>)
    ensures r.Success? ==> FirstError(norm) == None
    ensures KeysApart(norm) && FirstError(norm) == None ==>
              (r.Success? <==> forall e :: ForPool(norm, e) ==> e.pool in cfg.PoolNames())
    ensures r.Success? ==> FilesFollow(norm, r.value.files, KeysApart(norm))
    ensures r.Success? ==> forall f :: f in r.value.files <==> f in r.value.sets
    ensures r.Success? && Distinct(cfg.PoolNames()) ==> Distinct(r.value.sets)
  {
    hide Decide, KeysApart, FirstError, StringBefore, WithGateway, Written, FilesFollow;
    var plan := BuildPlan(norm);
    var pools := cfg.PoolNames();
    if plan.Failure? {
      return Failure(plan.error);
    }
    var error := CheckPools(pools, plan.value);
    if error.Some? {
      return Failure(error.value);
    }
    var out, poolLists := WriteLists(pools, plan.value);
    FilesAsDecided(pools, norm, plan.value, poolLists);
    FilesDeclared(pools, plan.value, poolLists);
    r := Success(out);
  }
}
