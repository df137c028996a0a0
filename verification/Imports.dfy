/**
  What one import yields: the rules of a sing-box rule set or of a mihomo provider under the name and the target
  of the import, without the matchers that SmartDNS cannot render, and a warning for everything left behind.
  */
module Imports {
  import opened Text
  import opened Rules

  datatype Import = Import(
    name: string, priority: int, kind: string, path: string, url: string, format: string, exit: string, dnsPool: string)

  /** How many values of a matcher, or which value of a line, are left behind. */
  datatype Detail = NoneLeft | Values(count: nat) | NotRendered(value: string) | NotKnown(value: string)

  datatype Warning = Warning(imported: string, rule: string, matcher: string, detail: Detail)

  datatype Loaded = Loaded(rules: seq<Rule>, warnings: seq<Warning>)

  datatype Fault = Fault(rule: string, cause: Cause)

  datatype Cause = NameRequired | NegativePriority | TargetNotUnique | BadPool | Empty | BadRegex
                 | Unreadable(why: string) | Unsupported(kind: string) | Undecodable(why: string)
                 | NothingFound | BadLine(line: string) | EmptyMatcher(line: string) | Invalid(fault: Fault)

  /** Reading an import and the codecs of JSON and YAML are not modelled: the fields say what they yield. */
  datatype World = World(re: Regexps, read: Import -> Result<string, string>,
      singBox: string -> Result<seq<Rule>, string>, mihomo: string -> Result<seq<string>, string>)

  // ---------------------------------------------------------------- checks

  predicate ValidPoolName(pool: string) {
    pool != "" && forall c :: c in pool ==> 'A' <= c <= 'Z' || 'a' <= c <= 'z' || '0' <= c <= '9' || c in "_.-"
  }

  /** validateRule. */
  function RuleFault(re: Regexps, rule: Rule): Option<Cause> {
    if TrimSpace(rule.name) == "" then Some(NameRequired)
    else if rule.priority < 0 then Some(NegativePriority)
    else if (rule.exit == "") == (rule.dnsPool == "") then Some(TargetNotUnique)
    else if rule.dnsPool != "" && !ValidPoolName(rule.dnsPool) then Some(BadPool)
    else if rule.Empty() then Some(Cause.Empty)
    else if exists p :: p in rule.domainRegex && !re.compiles(p) then Some(BadRegex)
    else None
  }

  function FirstFault(re: Regexps, rules: seq<Rule>): Option<Fault> {
    if rules == [] then None
    else match RuleFault(re, rules[0])
      case Some(cause) => Some(Fault(rules[0].name, cause))
      case None => FirstFault(re, rules[1..])
  }

  lemma {:induction false} NoFaultIff(re: Regexps, rules: seq<Rule>)
    ensures FirstFault(re, rules).None? <==> forall rule :: rule in rules ==> RuleFault(re, rule).None?
  {
    hide RuleFault;
    if rules == [] {
    } else {
      NoFaultIff(re, rules[1..]);
    }
  }

  lemma {:induction false} FirstFaultConcat(re: Regexps, a: seq<Rule>, b: seq<Rule>)
    ensures FirstFault(re, a + b) == if FirstFault(re, a).Some? then FirstFault(re, a) else FirstFault(re, b)
  {
    hide RuleFault;
    if a == [] {
      assert a + b == b;
    } else {
      assert (a + b)[1..] == a[1..] + b;
      FirstFaultConcat(re, a[1..], b);
    }
  }

  /** Letters, digits, underscores, dots and dashes. */
  lemma PoolNameIff(pool: string)
    ensures ValidPoolName(pool) <==>
            pool != "" && forall c :: c in pool ==> c in CAPITALS || c in SMALL || c in "0123456789" || c in "_.-"
  {
    Alphabet();
    forall c | '0' <= c <= '9' ensures c in "0123456789" {
      assert "0123456789"[c as int - 48] == c;
    }
  }

  lemma BlankIff(s: string)
    ensures TrimSpace(s) == "" <==> forall c :: c in s ==> c in WHITE
  {
    TrimSpaceMeans(s);
    var left, right :| s == left + TrimSpace(s) + right && forall c :: c in left + right ==> c in WHITE;
    assert forall c :: c in s <==> c in left + right || c in TrimSpace(s);
    assert TrimSpace(s) != "" ==> TrimSpace(s)[0] in s;
  }

  /** A rule is valid when it has a name, no negative priority, one target, and a matcher, and its patterns compile. */
  lemma ValidRuleIff(re: Regexps, rule: Rule)
    ensures RuleFault(re, rule).None? <==>
            && (exists c :: c in rule.name && c !in WHITE) && rule.priority >= 0
            && (if rule.exit == "" then ValidPoolName(rule.dnsPool) else rule.dnsPool == "")
            && |rule.domain| + |rule.domainSuffix| + |rule.domainKeyword| + |rule.domainRegex| + |rule.ipCidr|
               + |rule.ruleSet| > 0
            && forall p :: p in rule.domainRegex ==> re.compiles(p)
  {
    hide TrimSpace;
    BlankIff(rule.name);
  }

  /** And so is an import before it is read. */
  lemma ValidImportIff(item: Import)
    ensures ImportFault(item).None? <==>
            && (exists c :: c in item.name && c !in WHITE) && item.kind != "" && item.priority >= 0
            && if item.exit == "" then ValidPoolName(item.dnsPool) else item.dnsPool == ""
  {
    hide TrimSpace;
    BlankIff(item.name);
  }

  /** The checks on an import before anything is read. */
  function ImportFault(item: Import): Option<Cause> {
    if TrimSpace(item.name) == "" || item.kind == "" then Some(NameRequired)
    else if item.priority < 0 then Some(NegativePriority)
    else if (item.exit == "") == (item.dnsPool == "") then Some(TargetNotUnique)
    else if item.dnsPool != "" && !ValidPoolName(item.dnsPool) then Some(BadPool)
    else None
  }

  // ---------------------------------------------------------------- sing-box rule sets

  /** A decoded rule under the name, priority and target that the import gives it. */
  function Stamped(item: Import, rule: Rule, i: nat): Rule {
    rule.(name := item.name + "-" + Decimal(i + 1), priority := item.priority, exit := item.exit,
          dnsPool := item.dnsPool)
  }

  /** What stripUnsupportedImportMatchers leaves. */
  function Stripped(rule: Rule): Rule {
    rule.(domainKeyword := [], domainRegex := [], ipCidr := [], ruleSet := [])
  }

  function LeftBehind(imported: string, rule: string, matcher: string, values: seq<string>): seq<Warning> {
    if values == [] then [] else [Warning(imported, rule, matcher, Values(|values|))]
  }

  /** The warnings of stripUnsupportedImportMatchers. */
  function StripWarnings(imported: string, rule: Rule): seq<Warning> {
    LeftBehind(imported, rule.name, "domain_keyword", rule.domainKeyword)
    + LeftBehind(imported, rule.name, "domain_regex", rule.domainRegex)
    + LeftBehind(imported, rule.name, "ip_cidr", rule.ipCidr)
    + LeftBehind(imported, rule.name, "rule_set", rule.ruleSet)
  }

  /** What one decoded rule adds. */
  function FromOne(item: Import, decoded: Rule, i: nat): Loaded {
    var stamped := Stamped(item, decoded, i);
    var warnings := StripWarnings(item.name, stamped);
    if Stripped(stamped).Empty() then Loaded([], warnings + [Warning(item.name, stamped.name, "", NoneLeft)])
    else Loaded([Stripped(stamped)], warnings)
  }

  /** What all decoded rules add, in their order. */
  function FromSet(item: Import, decoded: seq<Rule>): Loaded {
    if decoded == [] then Loaded([], [])
    else
      var n := |decoded| - 1;
      var front, last := FromSet(item, decoded[..n]), FromOne(item, decoded[n], n);
      Loaded(front.rules + last.rules, front.warnings + last.warnings)
  }

  function Renamed(warnings: seq<Warning>, from: string, to: string): (r: seq<Warning>)
    ensures |r| == |warnings|
  {
    seq(|warnings|, i requires 0 <= i < |warnings| =>
        if warnings[i].rule == from then warnings[i].(rule := to) else warnings[i])
  }

  /** A single rule takes the bare name of the import. */
  function BareName(item: Import, loaded: Loaded): Loaded {
    if |loaded.rules| != 1 then loaded
    else Loaded([loaded.rules[0].(name := item.name)], Renamed(loaded.warnings, loaded.rules[0].name, item.name))
  }

  function SingBox(w: World, item: Import, data: string): Result<Loaded, Cause> {
    match w.singBox(data)
    case Failure(why) => Failure(Undecodable(why))
    case Success(decoded) =>
      if decoded == [] then Failure(NothingFound)
      else match FirstFault(w.re, FromSet(item, decoded).rules)
        case Some(fault) => Failure(Invalid(fault))
        case None => Success(BareName(item, FromSet(item, decoded)))
  }

  /** parseSingBox. */
  method ParseSingBox(w: World, item: Import, data: string) returns (r: Result<Loaded, Cause>)
    ensures r == SingBox(w, item, data)
  {
    hide RuleFault, FromOne, Stripped, Stamped, StripWarnings, Decimal;
    if w.singBox(data).Failure? {
      return Failure(Undecodable(w.singBox(data).error));
    }
    var decoded := w.singBox(data).value;
    if decoded == [] {
      return Failure(NothingFound);
    }
    var rules: seq<Rule>, warnings: seq<Warning> := [], [];
    for i := 0 to |decoded|
      invariant Loaded(rules, warnings) == FromSet(item, decoded[..i])
      invariant FirstFault(w.re, rules).None?
    {
      FromSetStep(w.re, item, decoded, i);
      var rule := Stamped(item, decoded[i], i);
      warnings := warnings + StripWarnings(item.name, rule);
      rule := Stripped(rule);
      AddedByOne(item, decoded[i], i);
      if rule.Empty() {
        warnings := warnings + [Warning(item.name, rule.name, "", NoneLeft)];
        continue;
      }
      OneFault(w.re, rules, rule);
      if RuleFault(w.re, rule).Some? {
        return Failure(Invalid(Fault(rule.name, RuleFault(w.re, rule).value)));
      }
      rules := rules + [rule];
    }
    assert decoded[..|decoded|] == decoded;
    if |rules| == 1 {
      warnings := Rename(warnings, rules[0].name, item.name);
      rules := [rules[0].(name := item.name)];
    }
    r := Success(Loaded(rules, warnings));
  }

  method Rename(warnings: seq<Warning>, from: string, to: string) returns (r: seq<Warning>)
    ensures r == Renamed(warnings, from, to)
  {
    r := warnings;
    for i := 0 to |warnings|
      invariant |r| == |warnings| && r[i..] == warnings[i..]
      invariant r[..i] == Renamed(warnings, from, to)[..i]
    {
      if r[i].rule == from {
        r := r[i := r[i].(rule := to)];
      }
    }
  }

  lemma AddedByOne(item: Import, decoded: Rule, i: nat)
    ensures var rule := Stripped(Stamped(item, decoded, i));
            && rule.name == Stamped(item, decoded, i).name
            && FromOne(item, decoded, i) ==
               if rule.Empty() then
                 Loaded([], StripWarnings(item.name, Stamped(item, decoded, i))
                            + [Warning(item.name, rule.name, "", NoneLeft)])
               else Loaded([rule], StripWarnings(item.name, Stamped(item, decoded, i)))
  {
    hide StripWarnings, Decimal;
  }

  lemma OneFault(re: Regexps, rules: seq<Rule>, rule: Rule)
    requires FirstFault(re, rules).None?
    ensures FirstFault(re, rules + [rule]) == match RuleFault(re, rule)
                                              case Some(cause) => Some(Fault(rule.name, cause))
                                              case None => None
  {
    hide RuleFault;
    FirstFaultConcat(re, rules, [rule]);
    assert [rule][1..] == [];
  }

  /** What the first rules add is added for good, and so is a fault in it. */
  lemma FromSetStep(re: Regexps, item: Import, decoded: seq<Rule>, i: nat)
    requires i < |decoded|
    ensures var before, one, after := FromSet(item, decoded[..i]), FromOne(item, decoded[i], i),
                FromSet(item, decoded[..i + 1]);
            after == Loaded(before.rules + one.rules, before.warnings + one.warnings)
    ensures var fault := FirstFault(re, FromSet(item, decoded[..i + 1]).rules);
            fault.Some? ==> FirstFault(re, FromSet(item, decoded).rules) == fault
  {
    hide FromOne, RuleFault;
    assert decoded[..i + 1][..i] == decoded[..i];
    FromSetPrefix(item, decoded, i + 1);
    var part, all := FromSet(item, decoded[..i + 1]).rules, FromSet(item, decoded).rules;
    assert all == part + all[|part|..];
    FirstFaultConcat(re, part, all[|part|..]);
  }

  lemma {:induction false} FromSetPrefix(item: Import, decoded: seq<Rule>, i: nat)
    requires i <= |decoded|
    ensures FromSet(item, decoded[..i]).rules <= FromSet(item, decoded).rules
  {
    hide FromOne;
    if i == |decoded| {
      assert decoded[..i] == decoded;
    } else {
      FromSetPrefix(item, decoded[..|decoded| - 1], i);
      assert decoded[..|decoded| - 1][..i] == decoded[..i];
    }
  }

  // ---------------------------------------------------------------- what a rule set keeps

  predicate Renderable(rule: Rule) {
    rule.domain != [] || rule.domainSuffix != []
  }

  /** Where the rules that keep a matcher stand. */
  function RenderableAt(decoded: seq<Rule>): (r: seq<nat>)
    ensures forall k :: 0 <= k < |r| ==> r[k] < |decoded| && Renderable(decoded[r[k]])
  {
    if decoded == [] then []
    else
      var n := |decoded| - 1;
      RenderableAt(decoded[..n]) + if Renderable(decoded[n]) then [n] else []
  }

  lemma {:induction false} RenderableAtMeaning(decoded: seq<Rule>)
    ensures var at := RenderableAt(decoded);
            && (forall j, k :: 0 <= j < k < |at| ==> at[j] < at[k])
            && (forall i: nat :: i in at <==> i < |decoded| && Renderable(decoded[i]))
  {
    hide Renderable;
    if decoded == [] {
    } else {
      RenderableAtMeaning(decoded[..|decoded| - 1]);
    }
  }

  /** Exactly the rules with a domain or a suffix are kept, in their order, each under its number. */
  lemma {:induction false} RuleSetKeeps(item: Import, decoded: seq<Rule>)
    ensures var at, rules := RenderableAt(decoded), FromSet(item, decoded).rules;
            && |rules| == |at|
            && forall k :: 0 <= k < |at| ==> rules[k] == Stripped(Stamped(item, decoded[at[k]], at[k]))
  {
    hide StripWarnings, Decimal;
    if decoded == [] {
    } else {
      RuleSetKeeps(item, decoded[..|decoded| - 1]);
    }
  }

  function ValuesOf(rule: Rule): nat {
    |rule.domain| + |rule.domainSuffix| + |rule.domainKeyword| + |rule.domainRegex| + |rule.ipCidr| + |rule.ruleSet|
  }

  function AllValues(rules: seq<Rule>): nat {
    if rules == [] then 0 else AllValues(rules[..|rules| - 1]) + ValuesOf(rules[|rules| - 1])
  }

  function Told(warning: Warning): nat {
    if warning.detail.Values? then warning.detail.count else 0
  }

  function AllTold(warnings: seq<Warning>): nat {
    if warnings == [] then 0 else AllTold(warnings[..|warnings| - 1]) + Told(warnings[|warnings| - 1])
  }

  function Dropped(warnings: seq<Warning>): nat {
    if warnings == [] then 0
    else Dropped(warnings[..|warnings| - 1]) + if warnings[|warnings| - 1].detail.NoneLeft? then 1 else 0
  }

  lemma {:induction false} WarningsConcat(a: seq<Warning>, b: seq<Warning>)
    ensures AllTold(a + b) == AllTold(a) + AllTold(b) && Dropped(a + b) == Dropped(a) + Dropped(b)
  {
    hide Told;
    if b == [] {
      assert a + b == a;
    } else {
      assert (a + b)[..|a + b| - 1] == a + b[..|b| - 1];
      WarningsConcat(a, b[..|b| - 1]);
    }
  }

  lemma LeftBehindTold(imported: string, rule: string, matcher: string, values: seq<string>)
    ensures AllTold(LeftBehind(imported, rule, matcher, values)) == |values|
    ensures Dropped(LeftBehind(imported, rule, matcher, values)) == 0
  {
    NoWarnings();
    OneWarning(Warning(imported, rule, matcher, Values(|values|)));
  }

  lemma NoWarnings()
    ensures AllTold([]) == 0 && Dropped([]) == 0
  {
  }

  lemma OneWarning(warning: Warning)
    ensures AllTold([warning]) == Told(warning) && Dropped([warning]) == if warning.detail.NoneLeft? then 1 else 0
  {
    assert [warning][..0] == [];
  }

  /** One warning for each matcher with values that cannot be rendered, in this order. */
  lemma StripWarningsAre(imported: string, rule: Rule)
    ensures forall w :: w in StripWarnings(imported, rule) <==>
              && w.imported == imported && w.rule == rule.name && w.detail.Values? && w.detail.count > 0
              && (w.matcher, w.detail.count) in {
                   ("domain_keyword", |rule.domainKeyword|), ("domain_regex", |rule.domainRegex|),
                   ("ip_cidr", |rule.ipCidr|), ("rule_set", |rule.ruleSet|)}
  {
  }

  lemma StripTold(imported: string, rule: Rule)
    ensures var warnings := StripWarnings(imported, rule);
            && ValuesOf(rule) == ValuesOf(Stripped(rule)) + AllTold(warnings)
            && Dropped(warnings) == 0
  {
    hide LeftBehind, AllTold, Dropped;
    var a, b := LeftBehind(imported, rule.name, "domain_keyword", rule.domainKeyword),
        LeftBehind(imported, rule.name, "domain_regex", rule.domainRegex);
    var c, d := LeftBehind(imported, rule.name, "ip_cidr", rule.ipCidr),
        LeftBehind(imported, rule.name, "rule_set", rule.ruleSet);
    LeftBehindTold(imported, rule.name, "domain_keyword", rule.domainKeyword);
    LeftBehindTold(imported, rule.name, "domain_regex", rule.domainRegex);
    LeftBehindTold(imported, rule.name, "ip_cidr", rule.ipCidr);
    LeftBehindTold(imported, rule.name, "rule_set", rule.ruleSet);
    WarningsConcat(a, b);
    WarningsConcat(a + b, c);
    WarningsConcat(a + b + c, d);
  }

  lemma FromOneTold(item: Import, decoded: Rule, i: nat)
    ensures var added := FromOne(item, decoded, i);
            && ValuesOf(decoded) == AllValues(added.rules) + AllTold(added.warnings)
            && 1 == |added.rules| + Dropped(added.warnings)
  {
    hide StripWarnings, AllTold, Dropped, Decimal;
    var stamped := Stamped(item, decoded, i);
    var warnings, last := StripWarnings(item.name, stamped), Warning(item.name, stamped.name, "", NoneLeft);
    StripTold(item.name, stamped);
    WarningsConcat(warnings, [last]);
    OneWarning(last);
    assert [Stripped(stamped)][..0] == [];
  }

  lemma {:induction false} ValuesConcat(a: seq<Rule>, b: seq<Rule>)
    ensures AllValues(a + b) == AllValues(a) + AllValues(b)
  {
    hide ValuesOf;
    if b == [] {
      assert a + b == a;
    } else {
      assert (a + b)[..|a + b| - 1] == a + b[..|b| - 1];
      ValuesConcat(a, b[..|b| - 1]);
    }
  }

  /** Every value is kept or counted in a warning, and every rule is kept or reported as left without a matcher. */
  lemma {:induction false} RuleSetConserves(item: Import, decoded: seq<Rule>)
    ensures var added := FromSet(item, decoded);
            && AllValues(decoded) == AllValues(added.rules) + AllTold(added.warnings)
            && |decoded| == |added.rules| + Dropped(added.warnings)
  {
    hide FromOne, ValuesOf, Told;
    if decoded == [] {
    } else {
      var n := |decoded| - 1;
      RuleSetConserves(item, decoded[..n]);
      FromOneTold(item, decoded[n], n);
      var front, last := FromSet(item, decoded[..n]), FromOne(item, decoded[n], n);
      ValuesConcat(front.rules, last.rules);
      WarningsConcat(front.warnings, last.warnings);
    }
  }

  lemma {:induction false} RenamingTells(warnings: seq<Warning>, from: string, to: string)
    ensures AllTold(Renamed(warnings, from, to)) == AllTold(warnings)
    ensures Dropped(Renamed(warnings, from, to)) == Dropped(warnings)
  {
    if warnings == [] {
    } else {
      var n := |warnings| - 1;
      RenamingTells(warnings[..n], from, to);
      assert Renamed(warnings, from, to)[..n] == Renamed(warnings[..n], from, to);
    }
  }

  lemma BareNameTells(item: Import, loaded: Loaded)
    ensures var named := BareName(item, loaded);
            && AllValues(named.rules) == AllValues(loaded.rules) && |named.rules| == |loaded.rules|
            && AllTold(named.warnings) == AllTold(loaded.warnings)
            && Dropped(named.warnings) == Dropped(loaded.warnings)
  {
    hide Renamed, AllTold, Dropped;
    if |loaded.rules| == 1 {
      RenamingTells(loaded.warnings, loaded.rules[0].name, item.name);
      assert loaded.rules[..0] == [] && BareName(item, loaded).rules[..0] == [];
    }
  }

  /**
    What a rule set yields: its rules with a domain or a suffix, in their order and under their number or, if there
    is only one, under the import's own name. Every value and every rule is there or told of in a warning.
    */
  lemma SingBoxMeaning(w: World, item: Import, data: string)
    requires SingBox(w, item, data).Success?
    ensures var decoded, loaded := w.singBox(data).value, SingBox(w, item, data).value;
            var at := RenderableAt(decoded);
            && |loaded.rules| == |at|
            && (forall k :: 0 <= k < |at| ==>
                  loaded.rules[k] == Rule(
                    if |at| == 1 then item.name else item.name + "-" + Decimal(at[k] + 1), item.priority, item.exit,
                    item.dnsPool, decoded[at[k]].domain, decoded[at[k]].domainSuffix, [], [], [], []))
            && AllValues(decoded) == AllValues(loaded.rules) + AllTold(loaded.warnings)
            && |decoded| == |loaded.rules| + Dropped(loaded.warnings)
  {
    hide FromSet, RenderableAt, AllValues, AllTold, Dropped, FirstFault, Decimal;
    var decoded := w.singBox(data).value;
    RuleSetKeeps(item, decoded);
    RuleSetConserves(item, decoded);
    BareNameTells(item, FromSet(item, decoded));
  }

  // ---------------------------------------------------------------- mihomo providers

  /** What addMihomoPayload makes of a line. */
  datatype Line = Exact(value: string) | Suffix(value: string) | Skipped(matcher: string, detail: Detail)
                | Wrong(cause: Cause)

  const NOT_RENDERED: set<string> := {"DOMAIN-KEYWORD", "DOMAIN-REGEX", "IP-CIDR", "IP-CIDR6", "RULE-SET"}

  function DropWildcard(value: string): string {
    if "*." <= value then value[2..] else value
  }

  function ReadLine(line: string): Line {
    var parts := Split(line, ',');
    if |parts| < 2 then Wrong(BadLine(line))
    else
      var kind, value := Upper(TrimSpace(parts[0])), TrimSpace(parts[1]);
      if value == "" then Wrong(EmptyMatcher(line))
      else if kind == "DOMAIN" then Exact(value)
      else if kind == "DOMAIN-SUFFIX" then Suffix(value)
      else if kind == "DOMAIN-WILDCARD" then Suffix(DropWildcard(value))
      else if kind in NOT_RENDERED then Skipped(kind, NotRendered(value))
      else Skipped(kind, NotKnown(value))
  }

  function FirstWrong(payload: seq<string>): Option<Cause> {
    if payload == [] then None
    else if ReadLine(payload[0]).Wrong? then Some(ReadLine(payload[0]).cause)
    else FirstWrong(payload[1..])
  }

  /** The exact values of the lines, in their order. */
  function Exacts(payload: seq<string>): seq<string> {
    if payload == [] then []
    else match ReadLine(payload[|payload| - 1])
      case Exact(value) => Exacts(payload[..|payload| - 1]) + [value]
      case _ => Exacts(payload[..|payload| - 1])
  }

  function Suffixes(payload: seq<string>): seq<string> {
    if payload == [] then []
    else match ReadLine(payload[|payload| - 1])
      case Suffix(value) => Suffixes(payload[..|payload| - 1]) + [value]
      case _ => Suffixes(payload[..|payload| - 1])
  }

  function LineWarnings(item: Import, payload: seq<string>): seq<Warning> {
    if payload == [] then []
    else match ReadLine(payload[|payload| - 1])
      case Skipped(matcher, detail) =>
        LineWarnings(item, payload[..|payload| - 1]) + [Warning(item.name, item.name, matcher, detail)]
      case _ => LineWarnings(item, payload[..|payload| - 1])
  }

  /** The one rule that the lines make. */
  function Gathered(item: Import, payload: seq<string>): Rule {
    Rule(item.name, item.priority, item.exit, item.dnsPool, Exacts(payload), Suffixes(payload), [], [], [], [])
  }

  function Mihomo(w: World, item: Import, data: string): Result<Loaded, Cause> {
    match w.mihomo(data)
    case Failure(why) => Failure(Undecodable(why))
    case Success(payload) =>
      var rule, warnings := Gathered(item, payload), LineWarnings(item, payload);
      if payload == [] then Failure(NothingFound)
      else if FirstWrong(payload).Some? then Failure(FirstWrong(payload).value)
      else if rule.Empty() then Success(Loaded([], warnings + [Warning(item.name, item.name, "", NoneLeft)]))
      else match RuleFault(w.re, rule)
        case Some(cause) => Failure(Invalid(Fault(rule.name, cause)))
        case None => Success(Loaded([rule], warnings))
  }

  lemma GatheredStep(item: Import, payload: seq<string>, n: nat)
    requires n < |payload|
    ensures var line, before, after := ReadLine(payload[n]), payload[..n], payload[..n + 1];
            && Exacts(after) == (if line.Exact? then Exacts(before) + [line.value] else Exacts(before))
            && Suffixes(after) == (if line.Suffix? then Suffixes(before) + [line.value] else Suffixes(before))
            && LineWarnings(item, after) ==
               if line.Skipped? then
                 LineWarnings(item, before) + [Warning(item.name, item.name, line.matcher, line.detail)]
               else LineWarnings(item, before)
  {
    hide ReadLine;
    assert payload[..n + 1][..n] == payload[..n];
  }

  /** parseMihomo. */
  method ParseMihomo(w: World, item: Import, data: string) returns (r: Result<Loaded, Cause>)
    ensures r == Mihomo(w, item, data)
  {
    hide ReadLine, Exacts, Suffixes, LineWarnings, RuleFault;
    if w.mihomo(data).Failure? {
      return Failure(Undecodable(w.mihomo(data).error));
    }
    var payload := w.mihomo(data).value;
    if payload == [] {
      return Failure(NothingFound);
    }
    NothingGathered(item);
    var rule := Rule(item.name, item.priority, item.exit, item.dnsPool, [], [], [], [], [], []);
    var warnings: seq<Warning> := [];
    for n := 0 to |payload|
      invariant rule == Gathered(item, payload[..n]) && warnings == LineWarnings(item, payload[..n])
      invariant FirstWrong(payload) == FirstWrong(payload[n..])
    {
      GatheredStep(item, payload, n);
      match ReadLine(payload[n])
      case Wrong(cause) => return Failure(cause);
      case Exact(value) => rule := rule.(domain := rule.domain + [value]);
      case Suffix(value) => rule := rule.(domainSuffix := rule.domainSuffix + [value]);
      case Skipped(matcher, detail) => warnings := warnings + [Warning(rule.name, rule.name, matcher, detail)];
    }
    assert payload[..|payload|] == payload;
    if rule.Empty() {
      return Success(Loaded([], warnings + [Warning(item.name, rule.name, "", NoneLeft)]));
    }
    var fault := RuleFault(w.re, rule);
    if fault.Some? {
      return Failure(Invalid(Fault(rule.name, fault.value)));
    }
    r := Success(Loaded([rule], warnings));
  }

  lemma NothingGathered(item: Import)
    ensures Exacts([]) == [] && Suffixes([]) == [] && LineWarnings(item, []) == []
  {
  }

  /** Of lines that can all be read, each gives one value or one warning. */
  lemma {:induction false} LinesConserved(item: Import, payload: seq<string>)
    requires forall line :: line in payload ==> !ReadLine(line).Wrong?
    ensures |payload| == |Exacts(payload)| + |Suffixes(payload)| + |LineWarnings(item, payload)|
  {
    hide ReadLine;
    if payload == [] {
    } else {
      assert payload[|payload| - 1] in payload;
      LinesConserved(item, payload[..|payload| - 1]);
    }
  }

  lemma {:induction false} NothingWrongIff(payload: seq<string>)
    ensures FirstWrong(payload).None? <==> forall line :: line in payload ==> !ReadLine(line).Wrong?
  {
    hide ReadLine;
    if payload == [] {
    } else {
      NothingWrongIff(payload[1..]);
    }
  }

  /** A line as it is written: a matcher, a value and perhaps more fields. */
  lemma LineIsRead(kind: string, value: string, more: string)
    requires ',' !in kind && ',' !in value && NoEdge(kind, SPACES) && NoEdge(value, SPACES) && value != ""
    ensures forall line :: line in {kind + "," + value, kind + "," + value + "," + more} ==>
              ReadLine(line) == match Upper(kind)
                case "DOMAIN" => Exact(value)
                case "DOMAIN-SUFFIX" => Suffix(value)
                case "DOMAIN-WILDCARD" =>
                  Suffix(if |value| >= 2 && value[..2] == "*." then value[2..] else value)
                case other =>
                  Skipped(other, if other in {"DOMAIN-KEYWORD", "DOMAIN-REGEX", "IP-CIDR", "IP-CIDR6", "RULE-SET"}
                                 then NotRendered(value) else NotKnown(value))
  {
    hide Upper, Split;
    TrimKeeps(kind, SPACES);
    TrimKeeps(value, SPACES);
    SplitFirst(kind, ',', value);
    SplitFirst(value, ',', more);
    SplitFirst(kind, ',', value + "," + more);
    assert kind + "," + value + "," + more == kind + [','] + (value + "," + more);
  }

  /** Spaces around matcher and value do not matter. */
  lemma SpacesIgnored(kind: string, value: string, more: string)
    requires ',' !in kind && ',' !in value && TrimSpace(value) != "" && (more == "" || more[0] == ',')
    ensures ReadLine(kind + "," + value + more) == ReadLine(TrimSpace(kind) + "," + TrimSpace(value))
  {
    hide Upper, Split, Trim;
    NoComma(kind);
    NoComma(value);
    TrimKeeps(kind, SPACES);
    TrimKeeps(value, SPACES);
    TrimAgain(kind);
    TrimAgain(value);
    SplitFirst(TrimSpace(kind), ',', TrimSpace(value));
    SplitFirst(TrimSpace(value), ',', "");
    if more == "" {
      SplitFirst(kind, ',', value);
      SplitFirst(value, ',', "");
      assert kind + "," + value + more == kind + [','] + value;
    } else {
      SplitFirst(kind, ',', value + more);
      SplitFirst(value, ',', more[1..]);
      assert value + more == value + [','] + more[1..];
      assert kind + "," + value + more == kind + [','] + (value + more);
    }
  }

  lemma TrimAgain(s: string)
    ensures TrimSpace(TrimSpace(s)) == TrimSpace(s)
  {
    hide Trim;
    TrimKeeps(s, SPACES);
    TrimKeeps(TrimSpace(s), SPACES);
  }

  lemma NoComma(s: string)
    requires ',' !in s
    ensures ',' !in TrimSpace(s)
  {
    hide TrimSpace, Unspaced;
    TrimSpaceMeans(s);
    UnspacedIsPart(s, TrimSpace(s));
  }

  lemma UnspacedIsPart(s: string, t: string)
    requires Unspaced(s, t)
    ensures forall c :: c in t ==> c in s
  {
  }

  /** A line without a comma is no line, and one whose value is blank has none. */
  lemma LineIsWrong(kind: string, blank: string, more: string)
    requires ',' !in kind && forall c :: c in blank ==> c in WHITE
    ensures ReadLine(kind) == Wrong(BadLine(kind))
    ensures forall line :: line in {kind + "," + blank, kind + "," + blank + "," + more} ==>
              ReadLine(line) == Wrong(EmptyMatcher(line))
  {
    hide Upper, Split, TrimSpace;
    BlankIff(blank);
    assert ',' !in blank;
    SplitFirst(kind, ',', blank);
    SplitFirst(blank, ',', more);
    SplitFirst(kind, ',', blank + "," + more);
    assert kind + "," + blank + "," + more == kind + [','] + (blank + "," + more);
  }

  // ---------------------------------------------------------------- loading

  const SING_BOX_KINDS: set<string> := {"sing-box", "singbox"}
  const MIHOMO_KINDS: set<string> := {"mihomo", "clash", "clash-meta", "mimoho"}

  /** loadImport when `fold` is set and resolveImport when not: only the first folds the case of the type. */
  function LoadImport(w: World, item: Import, fold: bool): Result<Loaded, Cause> {
    match ImportFault(item)
    case Some(cause) => Failure(cause)
    case None =>
      match w.read(item)
      case Failure(why) => Failure(Unreadable(why))
      case Success(data) =>
        var kind := if fold then Lower(item.kind) else item.kind;
        if kind in SING_BOX_KINDS then SingBox(w, item, data)
        else if kind in MIHOMO_KINDS then Mihomo(w, item, data)
        else Failure(Unsupported(item.kind))
  }

  method Load(w: World, item: Import, fold: bool) returns (r: Result<Loaded, Cause>)
    ensures r == LoadImport(w, item, fold)
  {
    hide ImportFault, Lower, SingBox, Mihomo;
    var fault := ImportFault(item);
    if fault.Some? {
      return Failure(fault.value);
    }
    if w.read(item).Failure? {
      return Failure(Unreadable(w.read(item).error));
    }
    var data, kind := w.read(item).value, if fold then Lower(item.kind) else item.kind;
    if kind in SING_BOX_KINDS {
      r := ParseSingBox(w, item, data);
    } else if kind in MIHOMO_KINDS {
      r := ParseMihomo(w, item, data);
    } else {
      r := Failure(Unsupported(item.kind));
    }
  }

  /** Which codec an import is read with: its type decides, in small letters or, for the resolver, as it is written. */
  lemma TypesKnown(w: World, item: Import, fold: bool)
    requires ImportFault(item).None? && w.read(item).Success?
    ensures var kind, data := if fold then Lower(item.kind) else item.kind, w.read(item).value;
            && (kind in {"sing-box", "singbox"} ==> LoadImport(w, item, fold) == SingBox(w, item, data))
            && (kind in {"mihomo", "clash", "clash-meta", "mimoho"} ==>
                  LoadImport(w, item, fold) == Mihomo(w, item, data))
            && (kind !in {"sing-box", "singbox", "mihomo", "clash", "clash-meta", "mimoho"} ==>
                  LoadImport(w, item, fold) == Failure(Unsupported(item.kind)))
  {
    hide Lower, SingBox, Mihomo, ImportFault;
    KindsDiffer();
  }

  lemma KindsDiffer()
    ensures SING_BOX_KINDS !! MIHOMO_KINDS
  {
    assert forall k :: k in SING_BOX_KINDS ==> k[0] == 's';
  }

  /** A rule that an import may yield: valid, with the target of the import, and such that SmartDNS can render it. */
  predicate Fits(re: Regexps, item: Import, rule: Rule) {
    && RuleFault(re, rule).None?
    && rule.priority == item.priority && rule.exit == item.exit && rule.dnsPool == item.dnsPool
    && Renderable(rule) && Stripped(rule) == rule
  }

  lemma NumberedName(name: string, i: nat)
    ensures TrimSpace(name + "-" + Decimal(i)) != ""
  {
    hide Decimal;
    DecimalNonempty(i);
    DecimalDigits(i);
    var digits, whole := Decimal(i), name + "-" + Decimal(i);
    assert whole[|whole| - 1] == digits[|digits| - 1] && digits[|digits| - 1] in digits;
    TrimKeeps(whole, SPACES);
  }

  lemma {:induction false} RuleSetFits(re: Regexps, item: Import, decoded: seq<Rule>)
    requires ImportFault(item).None?
    ensures forall rule :: rule in FromSet(item, decoded).rules ==> Fits(re, item, rule)
  {
    hide StripWarnings, Decimal, Trim, ValidPoolName;
    if decoded == [] {
    } else {
      RuleSetFits(re, item, decoded[..|decoded| - 1]);
      NumberedName(item.name, |decoded|);
    }
  }

  /** validateRule never refuses what an import that passed its own checks yields. */
  lemma SingBoxFits(w: World, item: Import, data: string)
    requires ImportFault(item).None?
    ensures var r := SingBox(w, item, data);
            && !(r.Failure? && r.error.Invalid?)
            && (r.Success? ==> forall rule :: rule in r.value.rules ==> Fits(w.re, item, rule))
  {
    hide FromSet, FirstFault, RuleFault, ImportFault;
    if w.singBox(data).Success? {
      var decoded := w.singBox(data).value;
      RuleSetFits(w.re, item, decoded);
      NoFaultIff(w.re, FromSet(item, decoded).rules);
      if |FromSet(item, decoded).rules| == 1 {
        BareNameFits(w.re, item, FromSet(item, decoded).rules[0]);
      }
    }
  }

  lemma BareNameFits(re: Regexps, item: Import, rule: Rule)
    requires ImportFault(item).None? && Fits(re, item, rule)
    ensures Fits(re, item, rule.(name := item.name))
  {
  }

  lemma MihomoFits(w: World, item: Import, data: string)
    requires ImportFault(item).None?
    ensures var r := Mihomo(w, item, data);
            && !(r.Failure? && r.error.Invalid?)
            && (r.Success? ==> forall rule :: rule in r.value.rules ==> Fits(w.re, item, rule))
  {
    hide Exacts, Suffixes, LineWarnings, ReadLine, Trim, ValidPoolName;
    if w.mihomo(data).Success? {
      WrongIsOfALine(w.mihomo(data).value);
    }
  }

  lemma {:induction false} WrongIsOfALine(payload: seq<string>)
    ensures var wrong := FirstWrong(payload); wrong.Some? ==> wrong.value.BadLine? || wrong.value.EmptyMatcher?
  {
    hide Split, Upper, TrimSpace;
    if payload == [] {
    } else {
      WrongIsOfALine(payload[1..]);
    }
  }

  /** Only an import of an unknown type is refused for its type. */
  lemma NoCodecRefusesType(w: World, item: Import, data: string, kind: string)
    ensures SingBox(w, item, data) != Failure(Unsupported(kind)) && Mihomo(w, item, data) != Failure(Unsupported(kind))
  {
    hide FromSet, FirstFault, RuleFault, ReadLine;
    if w.mihomo(data).Success? {
      WrongIsOfALine(w.mihomo(data).value);
    }
  }

  /** Whatever an import holds, each of its rules fits, and no rule of it is ever refused. */
  lemma LoadedFits(w: World, item: Import, fold: bool)
    ensures var r := LoadImport(w, item, fold);
            && !(r.Failure? && r.error.Invalid?)
            && (r.Success? ==> forall rule :: rule in r.value.rules ==> Fits(w.re, item, rule))
  {
    hide SingBox, Mihomo, Fits, Trim, Lower;
    if ImportFault(item).None? && w.read(item).Success? {
      SingBoxFits(w, item, w.read(item).value);
      MihomoFits(w, item, w.read(item).value);
    }
  }

  /** The rules of one import have different names. */
  lemma LoadedNamesApart(w: World, item: Import, fold: bool, j: nat, k: nat)
    requires LoadImport(w, item, fold).Success? && j < k < |LoadImport(w, item, fold).value.rules|
    ensures LoadImport(w, item, fold).value.rules[j].name != LoadImport(w, item, fold).value.rules[k].name
  {
    hide FromSet, FirstFault, Mihomo, Decimal, ImportFault, Lower, RenderableAt;
    MihomoYieldsOne(w, item, w.read(item).value);
    var decoded := w.singBox(w.read(item).value).value;
    var at := RenderableAt(decoded);
    RuleSetKeeps(item, decoded);
    RenderableAtMeaning(decoded);
    var a, b := Decimal(at[j] + 1), Decimal(at[k] + 1);
    if item.name + "-" + a == item.name + "-" + b {
      assert a == (item.name + "-" + a)[|item.name| + 1..] && b == (item.name + "-" + b)[|item.name| + 1..];
      DecimalInjective(at[j] + 1, at[k] + 1);
    }
  }

  lemma MihomoYieldsOne(w: World, item: Import, data: string)
    ensures Mihomo(w, item, data).Success? ==> |Mihomo(w, item, data).value.rules| <= 1
  {
  }
}
