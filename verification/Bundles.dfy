/** A bundle is what a revision stores: the configuration, the rules file and the rules resolved from it. */
module Bundles {
  import opened Text
  import opened Rules
  import opened Imports
  import opened RuleSources
  import Config
  import CompiledRules

  datatype Bundle = Bundle(config: Config.Config, rules: File, resolved: seq<Rule>)

  /** What the outside world decides: parsing and regular expressions, and the validity of a configuration. */
  datatype Outside = Outside(world: World, validConfig: Config.Config -> bool)

  datatype ResolveError =
    BadConfig | NotManaged(name: string) | UnknownPool(name: string) | Unresolved(error: Error)
    | NotCompiled(cause: CompiledRules.CompileError)

  function LocalRule(name: string, exit: string, dnsPool: string, suffixes: seq<string>): Rule {
    Rule(name, 0, exit, dnsPool, [], suffixes, [], [], [], [])
  }

  const IP_CHECK := LocalRule("ip-check", "direct", "", ["icanhazip.com", "ipinfo.io", "ippure.com"])

  const GEOSITE := "https://raw.githubusercontent.com/MetaCubeX/meta-rules-dat/sing/geo/geosite/"

  /** ManagedFile. */
  const MANAGED := File([IP_CHECK], [
    Import("speedtest", 0, "sing-box", "", GEOSITE + "category-speedtest.json", "", "direct", ""),
    Import("cn", 0, "sing-box", "", GEOSITE + "cn.json", "", "", "cn"),
    Import("gfw", 0, "sing-box", "", GEOSITE + "gfw.json", "", "direct", "")])

  const NETEASE := LocalRule("netease-music", "", "cn_netease",
                             ["music.163.com", "music.126.net", "iplay.163.com", "look.163.com", "y.163.com"])
  const UNICOM := LocalRule("china-unicom-app", "", "cn_unicom", ["10010.com", "chinaunicom.cn", "chinaunicom.com"])

  /** The names that the comparator and the panel treat as defaults are those of the managed and optional entries. */
  lemma DefaultNamesAreTheirs()
    ensures MANAGED_NAMES == (set r | r in MANAGED.rules :: r.name) + (set i | i in MANAGED.imports :: i.name)
    ensures DEFAULT_NAMES == MANAGED_NAMES + {NETEASE.name, UNICOM.name}
  {
    assert MANAGED.rules == [IP_CHECK] && (set r | r in MANAGED.rules :: r.name) == {IP_CHECK.name};
    var imports := MANAGED.imports;
    assert imports == [imports[0], imports[1], imports[2]];
    assert (set i | i in imports :: i.name) == {imports[0].name, imports[1].name, imports[2].name};
  }

  predicate HasName(file: File, name: string) {
    (exists r :: r in file.rules && r.name == name) || (exists i :: i in file.imports && i.name == name)
  }

  function Seed(file: File, rule: Rule): File {
    if HasName(file, rule.name) then file else file.(rules := file.rules + [rule])
  }

  /** EnsureOptionalDefaults. */
  function EnsureOptionalDefaults(file: File): File {
    Seed(Seed(file, NETEASE), UNICOM)
  }

  /** Bundle.ApplyDefaults: the optional rules are seeded only while the custom pools were never set. */
  function ApplyDefaults(b: Bundle): Bundle {
    b.(config := Config.ApplyDefaults(b.config),
       rules := if b.config.dns.customPools.None? then EnsureOptionalDefaults(b.rules) else b.rules)
  }

  /** Bundle.SameInput. */
  predicate SameInput(a: Bundle, b: Bundle) {
    ApplyDefaults(a).config == ApplyDefaults(b).config && ApplyDefaults(a).rules == ApplyDefaults(b).rules
  }

  /** The rules file of an input, with the optional rules while its custom pools were never set. */
  ghost function WithOptional(input: Bundle): File {
    if input.config.dns.customPools.None? then EnsureOptionalDefaults(input.rules) else input.rules
  }

  /** The stored bundle is this input with its defaults, in its configuration and in its rules file. */
  ghost predicate CameFrom(stored: Bundle, input: Bundle) {
    && stored.config == Config.ApplyDefaults(input.config)
    && stored.rules == WithOptional(input)
  }

  /** What is stored has its defaults. */
  ghost predicate Settled(b: Bundle) { ApplyDefaults(b) == b }

  lemma WithDefaultsCame(input: Bundle)
    ensures CameFrom(ApplyDefaults(input), input) && ApplyDefaults(input).resolved == input.resolved
  {
    hide Config.ApplyDefaults, EnsureOptionalDefaults;
  }

  lemma SettledMeans(b: Bundle)
    ensures Settled(b) <==> ApplyDefaults(b) == b
  {
  }

  /** Against a stored bundle, an input is the same exactly when neither configuration nor rules file differ. */
  lemma SameInputIff(stored: Bundle, input: Bundle)
    requires Settled(stored)
    ensures SameInput(stored, input) <==> CameFrom(stored, input)
    ensures SameInput(stored, input) <==>
            && stored.config == Config.ApplyDefaults(input.config)
            && stored.rules == WithOptional(input)
  {
    hide Config.ApplyDefaults, EnsureOptionalDefaults;
  }

  predicate LocalRulesCurrent(b: Bundle) {
    multiset(b.rules.rules) <= multiset(b.resolved)
  }

  lemma DefaultsIdempotent(b: Bundle)
    ensures ApplyDefaults(ApplyDefaults(b)) == ApplyDefaults(b)
  {
    hide Config.ApplyDefaults, EnsureOptionalDefaults;
    Config.DefaultsIdempotent(b.config);
    PoolsSettled(b.config);
  }

  lemma PoolsSettled(c: Config.Config)
    ensures Config.ApplyDefaults(c).dns.customPools.Some?
  {
  }

  /** A rule or an import of the file has this name. */
  ghost predicate Named(file: File, name: string) {
    (exists i :: 0 <= i < |file.rules| && file.rules[i].name == name) ||
        (exists i :: 0 <= i < |file.imports| && file.imports[i].name == name)
  }

  lemma NamedMeans(file: File, name: string)
    ensures HasName(file, name) <==> Named(file, name)
  {
  }

  /** What seeding adds, and to which files. */
  lemma OptionalRulesAre(file: File)
    ensures EnsureOptionalDefaults(file).imports == file.imports
    ensures EnsureOptionalDefaults(file).rules == file.rules
            + (if Named(file, "netease-music") then []
               else [Rule("netease-music", 0, "", "cn_netease", [],
                          ["music.163.com", "music.126.net", "iplay.163.com", "look.163.com", "y.163.com"],
                          [], [], [], [])])
            + (if Named(file, "china-unicom-app") then []
               else [Rule("china-unicom-app", 0, "", "cn_unicom", [],
                          ["10010.com", "chinaunicom.cn", "chinaunicom.com"], [], [], [], [])])
  {
    hide HasName, Named;
    NamedMeans(file, NETEASE.name);
    NamedMeans(file, UNICOM.name);
    SeedAdds(file, NETEASE);
    assert NETEASE.name[0] == 'n' && UNICOM.name[0] == 'c';
  }

  /** How often a rule of this name is in the file. */
  function CountName(rules: seq<Rule>, name: string): nat {
    if rules == [] then 0 else (if rules[0].name == name then 1 else 0) + CountName(rules[1..], name)
  }

  lemma {:induction false} CountNameAppend(rules: seq<Rule>, rule: Rule, name: string)
    ensures CountName(rules + [rule], name) == CountName(rules, name) + if rule.name == name then 1 else 0
    ensures CountName(rules, name) == 0 <==> !exists r :: r in rules && r.name == name
  {
    if rules == [] {
      assert rules + [rule] == [rule];
    } else {
      assert (rules + [rule])[1..] == rules[1..] + [rule];
      CountNameAppend(rules[1..], rule, name);
    }
  }

  lemma SeededOnce(file: File, rule: Rule, name: string)
    ensures var after := Seed(file, rule);
            && file.rules <= after.rules && after.imports == file.imports
            && CountName(after.rules, name) ==
               CountName(file.rules, name) + if name == rule.name && !HasName(file, name) then 1 else 0
  {
    CountNameAppend(file.rules, rule, name);
  }

  /** Seeding adds a rule only for a name that is not there, once, and leaves everything else in place. */
  lemma OptionalRulesSeededOnce(file: File, name: string)
    ensures var after := EnsureOptionalDefaults(file);
            && file.rules <= after.rules && after.imports == file.imports
            && CountName(after.rules, name) == CountName(file.rules, name)
               + if name in {NETEASE.name, UNICOM.name} && !HasName(file, name) then 1 else 0
    ensures EnsureOptionalDefaults(EnsureOptionalDefaults(file)) == EnsureOptionalDefaults(file)
  {
    hide Seed, CountName;
    var once := Seed(file, NETEASE);
    var twice := Seed(once, UNICOM);
    SeededOnce(file, NETEASE, name);
    SeededOnce(once, UNICOM, name);
    SeedAdds(file, NETEASE);
    SeedAdds(once, UNICOM);
    assert NETEASE.name[0] == 'n' && UNICOM.name[0] == 'c';
    assert HasName(twice, NETEASE.name) && HasName(twice, UNICOM.name);
    SeedSkips(twice, NETEASE);
    SeedSkips(twice, UNICOM);
  }

  lemma SeedAdds(file: File, rule: Rule)
    ensures HasName(Seed(file, rule), rule.name)
    ensures forall name :: HasName(file, name) ==> HasName(Seed(file, rule), name)
    ensures forall name :: name != rule.name && HasName(Seed(file, rule), name) ==> HasName(file, name)
  {
    if !HasName(file, rule.name) {
      assert rule in (file.rules + [rule]);
    }
  }

  lemma SeedSkips(file: File, rule: Rule)
    ensures HasName(file, rule.name) ==> Seed(file, rule) == file
  {
  }

  function CountOf<T>(counts: map<T, nat>, key: T): nat {
    if key in counts then counts[key] else 0
  }

  method CountAll<T(==, !new)>(have: seq<T>) returns (counts: map<T, nat>)
    ensures forall x :: multiset(have)[x] == CountOf(counts, x)
  {
    counts := map[];
    for n := 0 to |have|
      invariant forall x :: multiset(have[..n])[x] == CountOf(counts, x)
    {
      assert have[..n + 1] == have[..n] + [have[n]];
      counts := counts[have[n] := CountOf(counts, have[n]) + 1];
    }
    assert have[..|have|] == have;
  }

  lemma PrefixBag<T>(s: seq<T>, n: nat)
    requires n < |s|
    ensures multiset(s[..n + 1]) == multiset(s[..n]) + multiset{s[n]}
    ensures multiset(s[..n + 1]) <= multiset(s)
  {
    assert s[..n + 1] == s[..n] + [s[n]];
    assert s == s[..n + 1] + s[n + 1..];
  }

  /** The counting loops of ResolvedLocalRulesCurrent. */
  method Covers<T(==, !new)>(have: seq<T>, want: seq<T>) returns (covered: bool)
    ensures covered == (multiset(want) <= multiset(have))
  {
    var counts := CountAll(have);
    for n := 0 to |want|
      invariant forall x :: multiset(have)[x] == multiset(want[..n])[x] + CountOf(counts, x)
    {
      var key := want[n];
      PrefixBag(want, n);
      if CountOf(counts, key) == 0 {
        assert multiset(want)[key] > multiset(have)[key];
        return false;
      }
      counts := counts[key := counts[key] - 1];
    }
    assert want[..|want|] == want;
    covered := true;
  }

  /** Bundle.ResolvedLocalRulesCurrent. */
  method ResolvedLocalRulesCurrent(b: Bundle) returns (current: bool)
    ensures current == LocalRulesCurrent(b)
  {
    if |b.resolved| < |b.rules.rules| {
      assert |multiset(b.rules.rules)| > |multiset(b.resolved)|;
      BagSize(multiset(b.rules.rules), multiset(b.resolved));
      return false;
    }
    current := Covers(b.resolved, b.rules.rules);
  }

  lemma BagSize<T>(a: multiset<T>, b: multiset<T>)
    ensures a <= b ==> |a| <= |b|
  {
    if a <= b {
      assert b == a + (b - a);
    }
  }

  // ---------------------------------------------------------------- resolving a bundle

  function CountImport(imports: seq<Import>, name: string): nat {
    if imports == [] then 0 else (if imports[0].name == name then 1 else 0) + CountImport(imports[1..], name)
  }

  predicate ManagedRule(file: File, rule: Rule) {
    CountName(file.rules, rule.name) == 1 && rule in file.rules && CountImport(file.imports, rule.name) == 0
  }

  predicate ManagedImport(file: File, item: Import) {
    CountImport(file.imports, item.name) == 1 && item in file.imports && CountName(file.rules, item.name) == 0
  }

  /** ValidateManaged: the name of the first managed entry that is missing, repeated, changed or of the wrong kind. */
  function ManagedFault(file: File): Option<string> {
    if !ManagedRule(file, IP_CHECK) then Some(IP_CHECK.name)
    else if !ManagedImport(file, MANAGED.imports[0]) then Some(MANAGED.imports[0].name)
    else if !ManagedImport(file, MANAGED.imports[1]) then Some(MANAGED.imports[1].name)
    else if !ManagedImport(file, MANAGED.imports[2]) then Some(MANAGED.imports[2].name)
    else None
  }

  /** The rule is there, and no other has its name. */
  ghost predicate OnlyRule(rules: seq<Rule>, rule: Rule) {
    exists i :: 0 <= i < |rules| && rules[i] == rule &&
                forall j :: 0 <= j < |rules| && j != i ==> rules[j].name != rule.name
  }

  ghost predicate OnlyImport(imports: seq<Import>, item: Import) {
    exists i :: 0 <= i < |imports| && imports[i] == item &&
                forall j :: 0 <= j < |imports| && j != i ==> imports[j].name != item.name
  }

  lemma {:induction false} OnlyRuleIff(rules: seq<Rule>, rule: Rule)
    ensures CountName(rules, rule.name) == 0 <==> forall i :: 0 <= i < |rules| ==> rules[i].name != rule.name
    ensures CountName(rules, rule.name) == 1 && rule in rules <==> OnlyRule(rules, rule)
  {
    if rules == [] {
    } else {
      var rest := rules[1..];
      OnlyRuleIff(rest, rule);
      assert forall i :: 0 < i < |rules| ==> rules[i] == rest[i - 1];
      assert forall i :: 0 <= i < |rest| ==> rest[i] == rules[i + 1];
    }
  }

  lemma {:induction false} OnlyImportIff(imports: seq<Import>, item: Import)
    ensures CountImport(imports, item.name) == 0 <==> forall i :: 0 <= i < |imports| ==> imports[i].name != item.name
    ensures CountImport(imports, item.name) == 1 && item in imports <==> OnlyImport(imports, item)
  {
    if imports == [] {
    } else {
      var rest := imports[1..];
      OnlyImportIff(rest, item);
      assert forall i :: 0 < i < |imports| ==> imports[i] == rest[i - 1];
      assert forall i :: 0 <= i < |rest| ==> rest[i] == imports[i + 1];
    }
  }

  function UnknownRulePool(rules: seq<Rule>, pools: seq<string>): Option<string> {
    if rules == [] then None
    else if rules[0].dnsPool != "" && rules[0].dnsPool !in pools then Some(rules[0].name)
    else UnknownRulePool(rules[1..], pools)
  }

  function UnknownImportPool(imports: seq<Import>, pools: seq<string>): Option<string> {
    if imports == [] then None
    else if imports[0].dnsPool != "" && imports[0].dnsPool !in pools then Some(imports[0].name)
    else UnknownImportPool(imports[1..], pools)
  }

  /** ValidateDNSPoolReferences. */
  function UnknownPoolOf(file: File, pools: seq<string>): Option<string> {
    match UnknownRulePool(file.rules, pools)
    case Some(name) => Some(name)
    case None => UnknownImportPool(file.imports, pools)
  }

  /** The checks of resolveBundle before anything is downloaded. */
  function InputFault(o: Outside, b: Bundle): Option<ResolveError> {
    if !o.validConfig(b.config) then Some(BadConfig)
    else if ManagedFault(b.rules).Some? then Some(NotManaged(ManagedFault(b.rules).value))
    else if UnknownPoolOf(b.rules, b.config.PoolNames()).Some? then
        Some(UnknownPool(UnknownPoolOf(b.rules, b.config.PoolNames()).value))
    else None
  }

  /** The managed entries, each of its kind, unchanged and under a name that nothing else has. */
  ghost predicate HoldsManaged(file: File) {
    && OnlyRule(file.rules,
                Rule("ip-check", 0, "direct", "", [], ["icanhazip.com", "ipinfo.io", "ippure.com"], [], [], [], []))
    && (forall i :: 0 <= i < |file.imports| ==> file.imports[i].name != "ip-check")
    && HoldsImport(file, "speedtest", "category-speedtest", "direct", "")
    && HoldsImport(file, "cn", "cn", "", "cn")
    && HoldsImport(file, "gfw", "gfw", "direct", "")
  }

  ghost predicate HoldsImport(file: File, name: string, list: string, exit: string, pool: string) {
    && OnlyImport(file.imports, Import(name, 0, "sing-box", "",
           "https://raw.githubusercontent.com/MetaCubeX/meta-rules-dat/sing/geo/geosite/" + list + ".json", "",
           exit, pool))
    && forall i :: 0 <= i < |file.rules| ==> file.rules[i].name != name
  }

  /** ValidateManaged passes exactly the files that hold them. */
  lemma ManagedIff(file: File)
    ensures ManagedFault(file).None? <==> HoldsManaged(file)
    ensures match ManagedFault(file)
            case None => true
            case Some(name) =>
              || name == "ip-check"
              || (name == "speedtest" && !HoldsImport(file, name, "category-speedtest", "direct", ""))
              || (name == "cn" && !HoldsImport(file, name, "cn", "", "cn"))
              || (name == "gfw" && !HoldsImport(file, name, "gfw", "direct", ""))
  {
    hide CountName, CountImport, OnlyRule, OnlyImport;
    OnlyRuleIff(file.rules, IP_CHECK);
    OnlyImportIff(file.imports, Import(IP_CHECK.name, 0, "", "", "", "", "", ""));
    ManagedImportIff(file, 0, "speedtest", "category-speedtest", "direct", "");
    ManagedImportIff(file, 1, "cn", "cn", "", "cn");
    ManagedImportIff(file, 2, "gfw", "gfw", "direct", "");
  }

  lemma ManagedImportIff(file: File, k: nat, name: string, list: string, exit: string, pool: string)
    requires k < 3 && MANAGED.imports[k] == Import(name, 0, "sing-box", "", GEOSITE + list + ".json", "", exit, pool)
    ensures ManagedImport(file, MANAGED.imports[k]) <==> HoldsImport(file, name, list, exit, pool)
  {
    hide CountName, CountImport, OnlyRule, OnlyImport;
    OnlyImportIff(file.imports, MANAGED.imports[k]);
    OnlyRuleIff(file.rules, LocalRule(name, "", "", []));
  }

  /** The pools that rules may name: the three built-in ones and those of the configuration. */
  ghost predicate KnownPool(c: Config.Config, pool: string) {
    || pool in {"cn", "overseas_private", "overseas_public"}
    || (c.dns.customPools.Some? && exists p :: p in c.dns.customPools.value && p.name == pool)
  }

  lemma {:induction false} UnknownRulePoolIff(rules: seq<Rule>, pools: seq<string>)
    ensures UnknownRulePool(rules, pools).None? <==>
            forall rule :: rule in rules && rule.dnsPool != "" ==> rule.dnsPool in pools
  {
    if rules == [] {
    } else {
      UnknownRulePoolIff(rules[1..], pools);
    }
  }

  lemma {:induction false} UnknownImportPoolIff(imports: seq<Import>, pools: seq<string>)
    ensures UnknownImportPool(imports, pools).None? <==>
            forall item :: item in imports && item.dnsPool != "" ==> item.dnsPool in pools
  {
    if imports == [] {
    } else {
      UnknownImportPoolIff(imports[1..], pools);
    }
  }

  lemma PoolNamesMean(c: Config.Config)
    ensures forall pool :: pool in c.PoolNames() <==> KnownPool(c, pool)
  {
    forall pool | KnownPool(c, pool) ensures pool in c.PoolNames() {
      if pool !in {"cn", "overseas_private", "overseas_public"} {
        var pools := c.dns.customPools.value;
        var i :| 0 <= i < |pools| && pools[i].name == pool;
        assert Config.NamesOf(pools)[i] == pool;
      }
    }
  }

  /**
    Which inputs are resolved at all: their configuration is valid, their file holds the managed entries, and no
    rule or import names a pool that is not there.
    */
  lemma InputAcceptedIff(o: Outside, b: Bundle)
    ensures InputFault(o, b).None? <==>
            && o.validConfig(b.config) && HoldsManaged(b.rules)
            && (forall rule :: rule in b.rules.rules && rule.dnsPool != "" ==> KnownPool(b.config, rule.dnsPool))
            && (forall item :: item in b.rules.imports && item.dnsPool != "" ==> KnownPool(b.config, item.dnsPool))
  {
    hide ManagedFault, HoldsManaged, UnknownRulePool, UnknownImportPool, KnownPool;
    ManagedIff(b.rules);
    PoolNamesMean(b.config);
    UnknownRulePoolIff(b.rules.rules, b.config.PoolNames());
    UnknownImportPoolIff(b.rules.imports, b.config.PoolNames());
  }

  /** What resolveBundle yields. */
  ghost function Resolve(o: Outside, b: Bundle): Result<Bundle, ResolveError> {
    var full := ApplyDefaults(b);
    match InputFault(o, full)
    case Some(fault) => Failure(fault)
    case None =>
      match NormalizeSpec(o.world, false, full.rules)
      case Failure(error) => Failure(Unresolved(error))
      case Success(norm) =>
        match CompiledRules.FirstError(o.world.re, GatewayRules(norm.rules))
        case Some(cause) => Failure(NotCompiled(cause))
        case None => Success(full.(resolved := norm.rules))
  }

  /** Service.resolveBundle; `arrival` is the order in which the imports finish downloading. */
  method ResolveBundle(o: Outside, b: Bundle, arrival: seq<nat>) returns (r: Result<Bundle, ResolveError>)
    requires ArrivesOnce(arrival, |b.rules.imports|)
    ensures r == Resolve(o, b)
  {
    hide Config.ApplyDefaults, InputFault, NormalizeSpec;
    var full := ApplyDefaults(b);
    assert full.rules.imports == b.rules.imports;
    var fault := InputFault(o, full);
    if fault.Some? {
      return Failure(fault.value);
    }
    var norm := ResolverNormalize(o.world, full.rules, arrival);
    if norm.Failure? {
      return Failure(Unresolved(norm.error));
    }
    var compiled := CompiledRules.Compile(o.world.re, norm.value.rules);
    if compiled.Failure? {
      return Failure(NotCompiled(compiled.error));
    }
    r := Success(full.(resolved := norm.value.rules));
  }

  lemma FaultlessIsValid(o: Outside, b: Bundle)
    ensures InputFault(o, b).None? ==> o.validConfig(b.config)
  {
    hide ManagedFault, UnknownPoolOf;
  }

  /** A resolved bundle has its defaults, counts as the same input, and carries every local rule. */
  lemma ResolvedIsSettled(o: Outside, b: Bundle)
    requires Resolve(o, b).Success?
    ensures Settled(Resolve(o, b).value)
    ensures CameFrom(Resolve(o, b).value, b) && SameInput(Resolve(o, b).value, b)
    ensures LocalRulesCurrent(Resolve(o, b).value) && o.validConfig(Resolve(o, b).value.config)
  {
    hide Config.ApplyDefaults, EnsureOptionalDefaults, InputFault;
    FaultlessIsValid(o, ApplyDefaults(b));
    Config.DefaultsIdempotent(b.config);
    PoolsSettled(b.config);
    LocalRulesSurvive(o.world, false, ApplyDefaults(b).rules);
  }
}
