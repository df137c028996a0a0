/**
  The compiled rule index: an exact map, a suffix trie and a rank-ordered list of the remaining
  matchers, filled rule by rule. It answers with the first gateway rule that matches.
  */
module CompiledRules {
  import opened Text
  import opened Rules
  import opened Hosts
  import opened SuffixTrie

  datatype CompileError =
    EmptyDomain(rule: string) | EmptySuffix(rule: string) | BadRegex(rule: string, pattern: string)

  datatype Complex = Complex(rank: nat, keywords: seq<string>, regexps: seq<string>)

  // ---------------------------------------------------------------- what a rule means to the index

  /** The keys under which a list of exact values, or of suffix values, is stored. */
  ghost function Keys(values: seq<string>): set<string> {
    set v | v in values :: Norm(v)
  }

  ghost function Paths(values: seq<string>): set<Path> {
    set v | v in values :: HostPath(Norm(v))
  }

  predicate Mentions(re: Regexps, rule: Rule, host: string) {
    || (exists v :: v in rule.domainKeyword && Contains(host, Lower(v)))
    || (exists v :: v in rule.domainRegex && re.matches(v, host))
  }

  ghost predicate HasPrefix(paths: set<Path>, path: Path) {
    exists p :: p in paths && p <= path
  }

  ghost predicate Indexes(re: Regexps, rule: Rule, host: string) {
    host in Keys(rule.domain) || HasPrefix(Paths(rule.domainSuffix), HostPath(host)) || Mentions(re, rule, host)
  }

  ghost function FirstIndexed(re: Regexps, rules: seq<Rule>, host: string): Option<Rule> {
    if rules == [] then None
    else if Indexes(re, rules[0], host) then Some(rules[0])
    else FirstIndexed(re, rules[1..], host)
  }

  lemma {:induction false} FirstIndexedAt(re: Regexps, rules: seq<Rule>, host: string, at: nat)
    requires at <= |rules| && forall i :: 0 <= i < at ==> !Indexes(re, rules[i], host)
    requires at < |rules| ==> Indexes(re, rules[at], host)
    ensures FirstIndexed(re, rules, host) == if at < |rules| then Some(rules[at]) else None
  {
    if at == 0 {
    } else {
      FirstIndexedAt(re, rules[1..], host, at - 1);
    }
  }

  // ---------------------------------------------------------------- which lists compile

  function FirstBad(re: Regexps, patterns: seq<string>): Option<string> {
    if patterns == [] then None
    else if !re.compiles(patterns[0]) then Some(patterns[0])
    else FirstBad(re, patterns[1..])
  }

  ghost function RuleError(re: Regexps, rule: Rule): Option<CompileError> {
    if "" in Keys(rule.domain) then Some(EmptyDomain(rule.name))
    else if "" in Keys(rule.domainSuffix) then Some(EmptySuffix(rule.name))
    else match FirstBad(re, rule.domainRegex)
      case Some(pattern) => Some(BadRegex(rule.name, pattern))
      case None => None
  }

  ghost function FirstError(re: Regexps, rules: seq<Rule>): Option<CompileError> {
    if rules == [] then None
    else if RuleError(re, rules[0]).Some? then RuleError(re, rules[0])
    else FirstError(re, rules[1..])
  }

  lemma {:induction false} FirstErrorAppend(re: Regexps, rules: seq<Rule>, more: seq<Rule>)
    ensures FirstError(re, rules + more) == if FirstError(re, rules).Some? then FirstError(re, rules)
              else FirstError(re, more)
  {
    if rules == [] {
      assert rules + more == more;
    } else {
      assert (rules + more)[1..] == rules[1..] + more;
      FirstErrorAppend(re, rules[1..], more);
    }
  }

  lemma {:induction false} GatewayRulesConcat(front: seq<Rule>, back: seq<Rule>)
    ensures GatewayRules(front + back) == GatewayRules(front) + GatewayRules(back)
  {
    if front == [] {
      assert front + back == back;
    } else {
      assert (front + back)[1..] == front[1..] + back;
      GatewayRulesConcat(front[1..], back);
    }
  }

  // ---------------------------------------------------------------- least ranks

  /** Each key of `keys` is held with the least index that mentions it; negative means none yet. */
  ghost predicate LeastRanks<K(!new)>(ranks: map<K, int>, keys: seq<set<K>>) {
    && (forall k :: k in ranks && ranks[k] >= 0 ==> ranks[k] < |keys| && k in keys[ranks[k]])
    && (forall i, k :: 0 <= i < |keys| && k in keys[i] ==> k in ranks && 0 <= ranks[k] <= i)
  }

  ghost function RankOf<K(!new)>(ranks: map<K, int>, key: K): int {
    if key in ranks then ranks[key] else -1
  }

  lemma AddKey<K(!new)>(ranks: map<K, int>, grown: map<K, int>, done: seq<set<K>>, last: set<K>, key: K)
    requires LeastRanks(ranks, done + [last])
    requires key in grown && ranks.Keys <= grown.Keys
    requires forall k :: k in grown ==>
               grown[k] == if k == key then Least(RankOf(ranks, k), |done|) else RankOf(ranks, k)
    ensures LeastRanks(grown, done + [last + {key}])
  {
    var before, after := done + [last], done + [last + {key}];
    forall i, k | 0 <= i < |after| && k in after[i] ensures k in grown && 0 <= grown[k] <= i {
      if k in before[i] {
        assert 0 <= ranks[k] <= i;
      } else {
        assert k == key && i == |done|;
      }
    }
    forall k | k in grown && grown[k] >= 0 ensures grown[k] < |after| && k in after[grown[k]] {
      if k in ranks && ranks[k] >= 0 {
        assert k in before[ranks[k]] && k in after[ranks[k]];
      }
    }
  }

  lemma AddNone<K(!new)>(ranks: map<K, int>, done: seq<set<K>>)
    requires LeastRanks(ranks, done)
    ensures LeastRanks(ranks, done + [{}])
  {
    var after := done + [{}];
    assert forall i :: 0 <= i < |done| ==> after[i] == done[i];
  }

  ghost function ExactKeys(rules: seq<Rule>): seq<set<string>> {
    seq(|rules|, i requires 0 <= i < |rules| => Keys(rules[i].domain))
  }

  ghost function SuffixPaths(rules: seq<Rule>): seq<set<Path>> {
    seq(|rules|, i requires 0 <= i < |rules| => Paths(rules[i].domainSuffix))
  }

  lemma OneMoreKey(values: seq<string>, n: nat)
    requires n < |values|
    ensures Keys(values[..n + 1]) == Keys(values[..n]) + {Norm(values[n])}
    ensures Paths(values[..n + 1]) == Paths(values[..n]) + {HostPath(Norm(values[n]))}
    ensures Norm(values[n]) in Keys(values)
  {
    hide Norm, HostPath;
    assert values[..n + 1] == values[..n] + [values[n]];
  }

  /** The trie walk finds the least rank of a rule with a suffix of the host. */
  lemma BestRankFindsFirst(ranks: map<Path, int>, keys: seq<set<Path>>, path: Path)
    requires LeastRanks(ranks, keys)
    requires forall i :: 0 <= i < |keys| ==> [] !in keys[i]
    ensures -1 <= BestRank(ranks, path) < |keys|
    ensures BestRank(ranks, path) >= 0 ==> HasPrefix(keys[BestRank(ranks, path)], path)
    ensures forall i :: 0 <= i < |keys| && HasPrefix(keys[i], path) ==> 0 <= BestRank(ranks, path) <= i
  {
    var best := BestRank(ranks, path);
    BestRankIsLeast(ranks, path);
    if best >= 0 {
      var p :| p != [] && p <= path && RankAt(ranks, p) == best;
      assert p in keys[best];
    }
    forall i | 0 <= i < |keys| && HasPrefix(keys[i], path) ensures 0 <= best <= i {
      var p :| p in keys[i] && p <= path;
      assert RankAt(ranks, p) == ranks[p];
    }
  }

  // ---------------------------------------------------------------- the complex entries

  function LowerAll(values: seq<string>): seq<string> {
    seq(|values|, i requires 0 <= i < |values| => Lower(values[i]))
  }

  predicate NeedsComplex(rule: Rule) {
    rule.domainKeyword != [] || rule.domainRegex != []
  }

  function EntryFor(rule: Rule, rank: nat): Complex {
    Complex(rank, LowerAll(rule.domainKeyword), rule.domainRegex)
  }

  function ComplexFor(done: seq<Rule>): seq<Complex> {
    if done == [] then []
    else
      var last := done[|done| - 1];
      ComplexFor(done[..|done| - 1]) + if NeedsComplex(last) then [EntryFor(last, |done| - 1)] else []
  }

  ghost predicate EntryAt(entries: seq<Complex>, k: nat, done: seq<Rule>)
    requires k < |entries|
  {
    && entries[k].rank < |done| && entries[k] == EntryFor(done[entries[k].rank], entries[k].rank)
    && forall j :: 0 <= j < k ==> entries[j].rank < entries[k].rank
  }

  lemma {:induction false} EntryInOrder(done: seq<Rule>, k: nat)
    requires k < |ComplexFor(done)|
    ensures EntryAt(ComplexFor(done), k, done)
  {
    hide EntryFor, NeedsComplex;
    var front := done[..|done| - 1];
    var entries, before := ComplexFor(done), ComplexFor(front);
    assert entries[..|before|] == before;
    if k < |before| {
      EntryInOrder(front, k);
      assert entries[k] == before[k] && done[before[k].rank] == front[before[k].rank];
    } else {
      RankOfEntry(done[|done| - 1], |done| - 1);
      assert entries[k] == EntryFor(done[|done| - 1], |done| - 1);
    }
    forall j | 0 <= j < k ensures entries[j].rank < entries[k].rank {
      assert entries[j] == before[j];
      EntryInOrder(front, j);
    }
  }

  lemma {:induction false} EntryOf(done: seq<Rule>, i: nat) returns (k: nat)
    requires i < |done| && NeedsComplex(done[i])
    ensures k < |ComplexFor(done)| && ComplexFor(done)[k].rank == i
  {
    hide EntryFor, NeedsComplex;
    var front, last := done[..|done| - 1], |done| - 1;
    if i == last {
      k := |ComplexFor(front)|;
      assert ComplexFor(done)[k] == EntryFor(done[last], last);
      RankOfEntry(done[last], last);
    } else {
      assert front[i] == done[i];
      k := EntryOf(front, i);
      assert ComplexFor(done)[k] == ComplexFor(front)[k];
    }
  }

  lemma RankOfEntry(rule: Rule, rank: nat)
    ensures EntryFor(rule, rank).rank == rank
  {
  }

  /** In rank order, one entry for each rule that needs one, each saying what its rule says. */
  lemma ComplexInOrder(done: seq<Rule>)
    ensures forall k :: 0 <= k < |ComplexFor(done)| ==> EntryAt(ComplexFor(done), k, done)
    ensures forall i :: 0 <= i < |done| && NeedsComplex(done[i]) ==>
              exists k :: 0 <= k < |ComplexFor(done)| && ComplexFor(done)[k].rank == i
  {
    hide ComplexFor, EntryAt, NeedsComplex;
    forall k | 0 <= k < |ComplexFor(done)| ensures EntryAt(ComplexFor(done), k, done) {
      EntryInOrder(done, k);
    }
    forall i | 0 <= i < |done| && NeedsComplex(done[i])
      ensures exists k :: 0 <= k < |ComplexFor(done)| && ComplexFor(done)[k].rank == i
    {
      var k := EntryOf(done, i);
      assert ComplexFor(done)[k].rank == i;
    }
  }

  // ---------------------------------------------------------------- the index

  class Compiled {
    var rules: seq<Rule>
    var exact: map<string, int>
    var suffix: SuffixNode
    var complex: seq<Complex>
    ghost var nodes: map<Path, SuffixNode>

    constructor ()
      ensures Valid() && rules == [] && fresh(nodes.Values)
    {
      var root := new SuffixNode();
      rules, exact, suffix, complex := [], map[], root, [];
      nodes := map[[] := root];
    }

    /** The three structures index the rules. */
    ghost predicate Valid()
      reads this, nodes.Values
    {
      && Spans(suffix, nodes)
      && LeastRanks(Ranks(nodes), SuffixPaths(rules))
      && LeastRanks(exact, ExactKeys(rules)) && (forall h :: h in exact ==> exact[h] >= 0)
      && complex == ComplexFor(rules)
      && (forall i :: 0 <= i < |rules| ==> [] !in Paths(rules[i].domainSuffix))
    }

    /** Compiled.MatchGatewayDomain: the least rank over the three structures, leaving the last early. */
    method MatchGatewayDomain(re: Regexps, value: string) returns (r: Option<Rule>)
      requires Valid()
      ensures r == FirstIndexed(re, rules, Norm(value))
    {
      hide Norm, HostPath, Mentions, ComplexFor;
      var host := Norm(value);
      NormHasNoDotFirst(value);
      var best := |rules|;
      if host in exact {
        best := exact[host];
      }
      var rank := Match(suffix, host, nodes);
      BestRankFindsFirst(Ranks(nodes), SuffixPaths(rules), HostPath(host));
      if rank >= 0 && rank < best {
        best := rank;
      }
      best := FirstComplex(re, host, best);
      forall i | 0 <= i <= best && i < |rules| ensures Indexes(re, rules[i], host) <==> i == best {
        assert host in ExactKeys(rules)[i] <==> host in Keys(rules[i].domain);
        assert HasPrefix(SuffixPaths(rules)[i], HostPath(host)) <==>
            HasPrefix(Paths(rules[i].domainSuffix), HostPath(host));
      }
      FirstIndexedAt(re, rules, host, best);
      r := if best == |rules| then None else Some(rules[best]);
    }

    /** The last loop of MatchGatewayDomain. */
    method FirstComplex(re: Regexps, host: string, bound: nat) returns (best: nat)
      requires complex == ComplexFor(rules) && bound <= |rules|
      ensures best <= bound && forall i :: 0 <= i < best ==> !Mentions(re, rules[i], host)
      ensures best < bound ==> Mentions(re, rules[best], host)
    {
      ComplexInOrder(rules);
      best := bound;
      var k := 0;
      while k < |complex|
        invariant 0 <= k <= |complex| && best == bound
        invariant forall j :: 0 <= j < k ==> EntryAt(complex, j, rules) && !Mentions(re, rules[complex[j].rank], host)
      {
        assert EntryAt(complex, k, rules);
        if complex[k].rank >= best {
          break;
        }
        var matched := MatchComplex(re, rules[complex[k].rank], complex[k], host);
        if matched {
          best := complex[k].rank;
          break;
        }
        k := k + 1;
      }
      forall i | 0 <= i < best ensures !Mentions(re, rules[i], host) {
        if NeedsComplex(rules[i]) {
          var e :| 0 <= e < |complex| && complex[e].rank == i;
          assert EntryAt(complex, e, rules);
        }
      }
    }

    /** The part of Compile that enters the exact values of the rule just appended. */
    method AddDomains(rule: Rule, ghost done: seq<set<string>>) returns (ok: bool)
      requires |rules| == |done| + 1
      requires LeastRanks(exact, done) && forall h :: h in exact ==> exact[h] >= 0
      modifies this`exact
      ensures ok == ("" !in Keys(rule.domain))
      ensures ok ==> LeastRanks(exact, done + [Keys(rule.domain)]) && forall h :: h in exact ==> exact[h] >= 0
    {
      hide Norm;
      var rank := |rules| - 1;
      AddNone(exact, done);
      assert Keys(rule.domain[..0]) == {};
      for n := 0 to |rule.domain|
        invariant LeastRanks(exact, done + [Keys(rule.domain[..n])])
        invariant forall h :: h in exact ==> exact[h] >= 0
        invariant "" !in Keys(rule.domain[..n])
      {
        var host := Norm(rule.domain[n]);
        OneMoreKey(rule.domain, n);
        if host == "" {
          return false;
        }
        ghost var was := exact;
        if host !in exact || rank < exact[host] {
          exact := exact[host := rank];
        }
        AddKey(was, exact, done, Keys(rule.domain[..n]), host);
      }
      assert rule.domain[..|rule.domain|] == rule.domain;
      ok := true;
    }

    /** The part of Compile that enters the suffix values of the rule just appended. */
    method AddSuffixes(rule: Rule, ghost done: seq<set<Path>>) returns (ok: bool)
      requires |rules| == |done| + 1
      requires Spans(suffix, nodes) && LeastRanks(Ranks(nodes), done)
      modifies this`nodes, nodes.Values
      ensures ok == ("" !in Keys(rule.domainSuffix))
      ensures ok ==> Spans(suffix, nodes) && LeastRanks(Ranks(nodes), done + [Paths(rule.domainSuffix)])
      ensures ok ==> [] !in Paths(rule.domainSuffix)
      ensures fresh(nodes.Values - old(nodes.Values))
    {
      hide Norm, HostPath, LeastRanks, Spans;
      AddNone(Ranks(nodes), done);
      assert Paths(rule.domainSuffix[..0]) == {};
      for n := 0 to |rule.domainSuffix|
        invariant Spans(suffix, nodes) && LeastRanks(Ranks(nodes), done + [Paths(rule.domainSuffix[..n])])
        invariant "" !in Keys(rule.domainSuffix[..n]) && [] !in Paths(rule.domainSuffix[..n])
        invariant fresh(nodes.Values - old(nodes.Values))
      {
        OneMoreKey(rule.domainSuffix, n);
        if Norm(rule.domainSuffix[n]) == "" {
          return false;
        }
        AddSuffix(rule.domainSuffix[n], done, Paths(rule.domainSuffix[..n]));
      }
      assert rule.domainSuffix[..|rule.domainSuffix|] == rule.domainSuffix;
      ok := true;
    }

    method AddSuffix(value: string, ghost done: seq<set<Path>>, ghost last: set<Path>)
      requires |rules| == |done| + 1 && Norm(value) != ""
      requires Spans(suffix, nodes) && LeastRanks(Ranks(nodes), done + [last])
      modifies this`nodes, nodes.Values
      ensures Spans(suffix, nodes) && LeastRanks(Ranks(nodes), done + [last + {HostPath(Norm(value))}])
      ensures HostPath(Norm(value)) != []
      ensures fresh(nodes.Values - old(nodes.Values))
    {
      hide Norm, LeastRanks, Spans;
      NormHasNoDotFirst(value);
      ghost var was := Ranks(nodes);
      nodes := Insert(suffix, Norm(value), |rules| - 1, nodes);
      AddKey(was, Ranks(nodes), done, last, HostPath(Norm(value)));
    }
  }

  lemma NormHasNoDotFirst(value: string)
    ensures Norm(value) == "" || Norm(value)[0] != '.'
  {
    var t := Trim(TrimSpace(value), DOT);
    TrimKeeps(TrimSpace(value), DOT);
    if t != [] {
      assert Norm(value)[0] == LowerChar(t[0]);
    }
  }

  /** matchComplex. */
  method MatchComplex(re: Regexps, rule: Rule, entry: Complex, host: string) returns (matched: bool)
    requires entry == EntryFor(rule, entry.rank)
    ensures matched == Mentions(re, rule, host)
  {
    for k := 0 to |entry.keywords|
      invariant forall j :: 0 <= j < k ==> !Contains(host, Lower(rule.domainKeyword[j]))
    {
      if Contains(host, entry.keywords[k]) {
        assert rule.domainKeyword[k] in rule.domainKeyword;
        return true;
      }
    }
    for k := 0 to |entry.regexps|
      invariant forall j :: 0 <= j < k ==> !re.matches(rule.domainRegex[j], host)
    {
      if re.matches(entry.regexps[k], host) {
        assert rule.domainRegex[k] in rule.domainRegex;
        return true;
      }
    }
    matched := false;
  }

  /** The part of Compile that compiles one rule's patterns. */
  method CompileRegexps(re: Regexps, rule: Rule) returns (r: Result<seq<string>, CompileError>)
    ensures match FirstBad(re, rule.domainRegex)
            case Some(pattern) => r == Failure(BadRegex(rule.name, pattern))
            case None => r == Success(rule.domainRegex)
  {
    var regexps := [];
    for n := 0 to |rule.domainRegex|
      invariant regexps == rule.domainRegex[..n]
      invariant FirstBad(re, rule.domainRegex) == FirstBad(re, rule.domainRegex[n..])
    {
      if !re.compiles(rule.domainRegex[n]) {
        return Failure(BadRegex(rule.name, rule.domainRegex[n]));
      }
      regexps := regexps + [rule.domainRegex[n]];
    }
    assert regexps == rule.domainRegex;
    r := Success(regexps);
  }

  /** One turn of the loop of Compile, for a gateway rule. */
  method AddRule(re: Regexps, c: Compiled, rule: Rule) returns (error: Option<CompileError>)
    requires c.Valid()
    modifies c, c.nodes.Values
    ensures error == RuleError(re, rule)
    ensures error.None? ==> c.Valid() && c.rules == old(c.rules) + [rule]
    ensures fresh(c.nodes.Values - old(c.nodes.Values))
  {
    hide Keys, Paths, LeastRanks, Norm, FirstBad, Spans, NeedsComplex, EntryFor, Ranks;
    ghost var done := c.rules;
    c.rules := c.rules + [rule];
    KeysAppend(done, rule);
    var ok := c.AddDomains(rule, ExactKeys(done));
    if !ok {
      return Some(EmptyDomain(rule.name));
    }
    ok := c.AddSuffixes(rule, SuffixPaths(done));
    if !ok {
      return Some(EmptySuffix(rule.name));
    }
    error := AddComplex(re, c, rule, done);
  }

  lemma {:induction false} KeysAppend(done: seq<Rule>, rule: Rule)
    ensures ExactKeys(done + [rule]) == ExactKeys(done) + [Keys(rule.domain)]
    ensures SuffixPaths(done + [rule]) == SuffixPaths(done) + [Paths(rule.domainSuffix)]
    ensures ComplexFor(done + [rule]) == ComplexFor(done) + if NeedsComplex(rule) then [EntryFor(rule, |done|)] else []
  {
    hide Keys, Paths, EntryFor;
    assert (done + [rule])[..|done|] == done;
  }

  /** The part of Compile that enters the remaining matchers of the rule just appended. */
  method AddComplex(re: Regexps, c: Compiled, rule: Rule, ghost done: seq<Rule>) returns (error: Option<CompileError>)
    requires c.rules == done + [rule] && c.complex == ComplexFor(done)
    modifies c`complex
    ensures match FirstBad(re, rule.domainRegex)
            case Some(pattern) => error == Some(BadRegex(rule.name, pattern))
            case None => error == None && c.complex == ComplexFor(c.rules)
  {
    KeysAppend(done, rule);
    var keywords := LowerAll(rule.domainKeyword);
    var regexps := CompileRegexps(re, rule);
    if regexps.Failure? {
      return Some(regexps.error);
    }
    if keywords != [] || regexps.value != [] {
      c.complex := c.complex + [Complex(|c.rules| - 1, keywords, regexps.value)];
    }
    error := None;
  }

  lemma CompileStep(re: Regexps, norm: seq<Rule>, n: nat)
    requires n < |norm|
    ensures GatewayRules(norm[..n + 1]) == GatewayRules(norm[..n]) + if norm[n].Gateway() then [norm[n]] else []
    ensures FirstError(re, GatewayRules(norm[n..])) ==
            if norm[n].Gateway() && RuleError(re, norm[n]).Some? then RuleError(re, norm[n])
            else FirstError(re, GatewayRules(norm[n + 1..]))
  {
    var rule := norm[n];
    assert norm[..n + 1] == norm[..n] + [rule] && norm[n..] == [rule] + norm[n + 1..];
    GatewayRulesConcat(norm[..n], [rule]);
    GatewayRulesConcat([rule], norm[n + 1..]);
    assert GatewayRules([rule]) == if rule.Gateway() then [rule] else [];
    FirstErrorAppend(re, GatewayRules([rule]), GatewayRules(norm[n + 1..]));
    assert FirstError(re, [rule]) == RuleError(re, rule);
  }

  /** Compile: an index of the gateway rules, or the first error in rule order. */
  method Compile(re: Regexps, norm: seq<Rule>) returns (r: Result<Compiled, CompileError>)
    ensures match FirstError(re, GatewayRules(norm))
            case Some(error) => r == Failure(error)
            case None => r.Success? && r.value.Valid() && r.value.rules == GatewayRules(norm)
    ensures r.Success? ==> fresh(r.value) && fresh(r.value.nodes.Values)
  {
    var c := new Compiled();
    for n := 0 to |norm|
      invariant c.Valid() && fresh(c) && fresh(c.nodes.Values)
      invariant c.rules == GatewayRules(norm[..n])
      invariant FirstError(re, GatewayRules(norm)) == FirstError(re, GatewayRules(norm[n..]))
    {
      hide Compiled.Valid, RuleError, FirstError, GatewayRules;
      CompileStep(re, norm, n);
      if norm[n].Gateway() {
        var error := AddRule(re, c, norm[n]);
        if error.Some? {
          return Failure(error.value);
        }
      }
    }
    assert norm[..|norm|] == norm;
    r := Success(c);
  }

  // ---------------------------------------------------------------- agreement with the simple meaning

  lemma ExactAgrees(rule: Rule, host: string)
    requires CanonicalRule(rule) && Lower(host) == host
    ensures host in Keys(rule.domain) <==> exists v :: v in rule.domain && MatchesExact(v, host)
  {
    forall v | v in rule.domain ensures Norm(v) == host <==> MatchesExact(v, host) {
      NormalisersAgreeIff(v);
    }
  }

  lemma SuffixValueAgrees(value: string, host: string)
    requires CanonicalSuffix(value) && Norm(value) != ""
    ensures HostPath(Norm(value)) <= HostPath(host) <==> MatchesSuffix(value, host)
  {
    SuffixNormalisersAgreeIff(value);
    LabelPrefixIsSuffix(host, Norm(value));
  }

  lemma SuffixAgrees(rule: Rule, host: string)
    requires CanonicalRule(rule) && "" !in Keys(rule.domainSuffix)
    ensures HasPrefix(Paths(rule.domainSuffix), HostPath(host)) <==>
              exists v :: v in rule.domainSuffix && MatchesSuffix(v, host)
  {
    hide Norm, MatchesSuffix, HostPath, CanonicalSuffix;
    forall v | v in rule.domainSuffix ensures HostPath(Norm(v)) <= HostPath(host) <==> MatchesSuffix(v, host) {
      assert Norm(v) in Keys(rule.domainSuffix);
      SuffixValueAgrees(v, host);
    }
    if HasPrefix(Paths(rule.domainSuffix), HostPath(host)) {
      var p :| p in Paths(rule.domainSuffix) && p <= HostPath(host);
    }
    forall v | v in rule.domainSuffix ensures HostPath(Norm(v)) in Paths(rule.domainSuffix) {
    }
  }

  lemma RuleAgrees(re: Regexps, rule: Rule, host: string)
    requires CanonicalRule(rule) && Canonical(host) && RuleError(re, rule) == None
    ensures Indexes(re, rule, Norm(host)) <==> MatchesRule(re, rule, Lower(DropLastDot(host)))
  {
    NormalisersAgreeIff(host);
    LowerIdempotent(DropLastDot(host));
    hide Norm, HostPath, Keys, Paths, HasPrefix, MatchesExact, MatchesSuffix, Canonical, DropLastDot;
    ExactAgrees(rule, Norm(host));
    SuffixAgrees(rule, Norm(host));
  }

  /**
    The compiled index and the simple first match return the same rule, for every rule list that
    compiles and every host, all in canonical form.
    */
  lemma {:induction false} CompiledAgrees(re: Regexps, rules: seq<Rule>, host: string)
    requires FirstError(re, rules) == None && Canonical(host)
    requires forall rule :: rule in rules ==> CanonicalRule(rule)
    ensures FirstIndexed(re, rules, Norm(host)) == FirstMatch(re, rules, Lower(DropLastDot(host)))
  {
    if rules == [] {
    } else {
      RuleAgrees(re, rules[0], host);
      CompiledAgrees(re, rules[1..], host);
    }
  }

  /** Compile and match, against the simple meaning of the same list. */
  method CompileAndMatch(re: Regexps, norm: seq<Rule>, host: string) returns (r: Option<Option<Rule>>)
    requires Canonical(host) && forall rule :: rule in norm ==> CanonicalRule(rule)
    ensures r == if FirstError(re, GatewayRules(norm)).Some? then None
              else Some(Rules.MatchGatewayDomain(re, norm, host))
  {
    var c := Compile(re, norm);
    if c.Failure? {
      return None;
    }
    var rule := c.value.MatchGatewayDomain(re, host);
    CompiledAgrees(re, GatewayRules(norm), host);
    r := Some(rule);
  }
}
