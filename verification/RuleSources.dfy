/**
  From a rules file to the normalised rule list: local rules and imports are sources, sorted by the
  source comparator and flattened. `Normalize` loads imports one by one; the resolver loads them
  concurrently and collects the results by index, in whatever order they arrive.
  */
module RuleSources {
  import opened Text
  import opened Rules
  import opened Ordering
  import opened Imports

  datatype File = File(rules: seq<Rule>, imports: seq<Import>)

  datatype Error = BadRule(fault: Fault) | BadImport(index: nat, cause: Cause)

  /** What the comparator looks at. */
  datatype Key = Key(priority: int, defaulted: bool, index: nat)

  datatype Source = Source(key: Key, rules: seq<Rule>, warnings: seq<Warning>)

  datatype Normalized = Normalized(rules: seq<Rule>, warnings: seq<Warning>)

  const MANAGED_NAMES: set<string> := {"ip-check", "speedtest", "cn", "gfw"}
  const DEFAULT_NAMES: set<string> := MANAGED_NAMES + {"netease-music", "china-unicom-app"}

  /** The comparator of sortNormalizedSources. */
  predicate Before(left: Key, right: Key) {
    if left.defaulted != right.defaulted then !left.defaulted
    else if left.defaulted then left.index < right.index
    else if left.priority != right.priority then
      if left.priority == 0 then false
      else if right.priority == 0 then true
      else left.priority < right.priority
    else left.index < right.index
  }

  predicate SourceBefore(left: Source, right: Source) {
    Before(left.key, right.key)
  }

  ghost predicate DistinctIndexes(sources: seq<Source>) {
    forall i, j :: 0 <= i < j < |sources| ==> sources[i].key.index != sources[j].key.index
  }

  /** On distinct indexes the comparator is a strict total order. */
  lemma ComparatorIsStrictTotal(keys: set<Key>)
    requires forall a, b :: a in keys && b in keys && a != b ==> a.index != b.index
    ensures StrictTotal(Before, keys)
  {
  }

  /** What the order means: user sources first, then by positive priority, zero last, ties as declared. */
  lemma ComparatorMeaning(a: Key, b: Key)
    requires a.priority >= 0 && b.priority >= 0 && a.index != b.index
    ensures Before(a, b) <==>
            || (!a.defaulted && b.defaulted)
            || (a.defaulted && b.defaulted && a.index < b.index)
            || (!a.defaulted && !b.defaulted && 0 < a.priority && (b.priority == 0 || a.priority < b.priority))
            || (!a.defaulted && !b.defaulted && a.priority == b.priority && a.index < b.index)
  {
  }

  lemma SourcesAreStrictTotal(sources: seq<Source>)
    requires DistinctIndexes(sources)
    ensures StrictTotal(SourceBefore, Elements(sources)) && Distinct(sources)
  {
    forall a, b | a in Elements(sources) && b in Elements(sources) && a != b
      ensures SourceBefore(a, b) || SourceBefore(b, a)
    {
      var i :| 0 <= i < |sources| && sources[i] == a;
      var j :| 0 <= j < |sources| && sources[j] == b;
      assert i < j || j < i;
    }
  }

  // ---------------------------------------------------------------- the specification

  function RuleKey(rule: Rule, index: nat): Key {
    Key(rule.priority, rule.name in DEFAULT_NAMES, index)
  }

  function ImportKey(item: Import, index: nat): Key {
    Key(item.priority, item.name in DEFAULT_NAMES, index)
  }

  /** One key for each source of a file, rules first. */
  function Keys(file: File): (r: seq<Key>) {
    seq(|file.rules| + |file.imports|, i requires 0 <= i < |file.rules| + |file.imports| =>
        if i < |file.rules| then RuleKey(file.rules[i], i) else ImportKey(file.imports[i - |file.rules|], i))
  }

  /** A source is a default when its entry has the name of one; its priority is the entry's, its index its place. */
  lemma KeysAre(file: File, i: nat)
    requires i < |file.rules| + |file.imports|
    ensures var name, priority := if i < |file.rules| then file.rules[i].name else file.imports[i - |file.rules|].name,
                if i < |file.rules| then file.rules[i].priority else file.imports[i - |file.rules|].priority;
            Keys(file)[i] ==
            Key(priority, name in {"ip-check", "speedtest", "cn", "gfw", "netease-music", "china-unicom-app"}, i)
  {
    hide DEFAULT_NAMES;
    SixDefaults();
  }

  lemma SixDefaults()
    ensures DEFAULT_NAMES == {"ip-check", "speedtest", "cn", "gfw", "netease-music", "china-unicom-app"}
  {
  }

  function RuleSourcesOf(rules: seq<Rule>): (r: seq<Source>)
    ensures |r| == |rules|
  {
    seq(|rules|, i requires 0 <= i < |rules| => Source(RuleKey(rules[i], i), [rules[i]], []))
  }

  /** The sources of the imports from number `n` on, or the first that fails. */
  function ImportSources(w: World, fold: bool, file: File, n: nat): Result<seq<Source>, Error>
    requires n <= |file.imports|
    decreases |file.imports| - n
  {
    if n == |file.imports| then Success([])
    else match LoadImport(w, file.imports[n], fold)
      case Failure(cause) => Failure(BadImport(n, cause))
      case Success(loaded) =>
        match ImportSources(w, fold, file, n + 1)
        case Failure(error) => Failure(error)
        case Success(rest) =>
          Success([Source(ImportKey(file.imports[n], |file.rules| + n), loaded.rules, loaded.warnings)] + rest)
  }

  function AllSources(w: World, fold: bool, file: File): Result<seq<Source>, Error> {
    match FirstFault(w.re, file.rules)
    case Some(fault) => Failure(BadRule(fault))
    case None =>
      match ImportSources(w, fold, file, 0)
      case Failure(error) => Failure(error)
      case Success(imported) => Success(RuleSourcesOf(file.rules) + imported)
  }

  function FlatRules(sources: seq<Source>): seq<Rule> {
    if sources == [] then [] else sources[0].rules + FlatRules(sources[1..])
  }

  function FlatWarnings(sources: seq<Source>): seq<Warning> {
    if sources == [] then [] else sources[0].warnings + FlatWarnings(sources[1..])
  }

  function Flat(sources: seq<Source>): Normalized {
    Normalized(FlatRules(sources), FlatWarnings(sources))
  }

  /** The normalised list of a file. */
  function NormalizeSpec(w: World, fold: bool, file: File): Result<Normalized, Error> {
    match AllSources(w, fold, file)
    case Failure(error) => Failure(error)
    case Success(sources) => Success(Flat(SortBy(SourceBefore, sources)))
  }

  lemma {:induction false} ImportSourcesSize(w: World, fold: bool, file: File, n: nat)
    requires n <= |file.imports|
    ensures ImportSources(w, fold, file, n).Success? ==> |ImportSources(w, fold, file, n).value| == |file.imports| - n
    decreases |file.imports| - n
  {
    hide LoadImport, ImportKey;
    if n == |file.imports| {
    } else {
      ImportSourcesSize(w, fold, file, n + 1);
    }
  }

  lemma {:induction false} ImportSourceAt(w: World, fold: bool, file: File, n: nat, k: nat)
    requires n <= |file.imports| && ImportSources(w, fold, file, n).Success? && n + k < |file.imports|
    ensures k < |ImportSources(w, fold, file, n).value|
    ensures ImportSources(w, fold, file, n).value[k].key == ImportKey(file.imports[n + k], |file.rules| + n + k)
    decreases |file.imports| - n
  {
    hide LoadImport, ImportKey;
    ImportSourcesSize(w, fold, file, n);
    var sources := ImportSources(w, fold, file, n).value;
    if k == 0 {
    } else {
      ImportSourceAt(w, fold, file, n + 1, k - 1);
      assert sources[k] == ImportSources(w, fold, file, n + 1).value[k - 1];
    }
  }

  lemma SourceAt(w: World, fold: bool, file: File, k: nat)
    requires AllSources(w, fold, file).Success? && k < |Keys(file)|
    ensures |AllSources(w, fold, file).value| == |Keys(file)| && Keys(file)[k].index == k
    ensures AllSources(w, fold, file).value[k].key == Keys(file)[k]
  {
    hide ImportSources, FirstFault;
    ImportSourcesSize(w, fold, file, 0);
    if k >= |file.rules| {
      ImportSourceAt(w, fold, file, 0, k - |file.rules|);
    }
  }

  lemma AllSourcesShape(w: World, fold: bool, file: File)
    requires AllSources(w, fold, file).Success?
    ensures |AllSources(w, fold, file).value| == |Keys(file)| && DistinctIndexes(AllSources(w, fold, file).value)
  {
    hide AllSources, Keys;
    AllSourcesSize(w, fold, file);
    var sources := AllSources(w, fold, file).value;
    forall i, j | 0 <= i < j < |sources| ensures sources[i].key.index != sources[j].key.index {
      SourceAt(w, fold, file, i);
      SourceAt(w, fold, file, j);
    }
  }

  lemma AllSourcesSize(w: World, fold: bool, file: File)
    requires AllSources(w, fold, file).Success?
    ensures |AllSources(w, fold, file).value| == |Keys(file)|
  {
    hide ImportSources, FirstFault;
    ImportSourcesSize(w, fold, file, 0);
  }

  /** The normalised list is one determined permutation of the sources, however they are arranged first. */
  lemma NormalizedIsDetermined(w: World, fold: bool, file: File, arranged: seq<Source>)
    requires AllSources(w, fold, file).Success?
    requires multiset(arranged) == multiset(AllSources(w, fold, file).value)
    ensures NormalizeSpec(w, fold, file) == Success(Flat(SortBy(SourceBefore, arranged)))
    ensures multiset(SortBy(SourceBefore, arranged)) == multiset(AllSources(w, fold, file).value)
    ensures Sorted(SourceBefore, SortBy(SourceBefore, arranged))
  {
    var sources := AllSources(w, fold, file).value;
    AllSourcesShape(w, fold, file);
    SourcesAreStrictTotal(sources);
    SameElements(arranged, sources);
    StillDistinct(arranged, sources);
    SortDetermined(SourceBefore, sources, arranged);
    SortSorts(SourceBefore, arranged);
    SortKeeps(SourceBefore, arranged);
  }

  lemma StillDistinct<T(!new)>(a: seq<T>, b: seq<T>)
    requires multiset(a) == multiset(b) && Distinct(b)
    ensures Distinct(a)
  {
    OnceEach(b);
    forall i, j | 0 <= i < j < |a| ensures a[i] != a[j] {
      TwoCopies(a, i, j);
      assert a[i] in multiset(b);
    }
  }

  lemma TwoCopies<T(!new)>(a: seq<T>, i: nat, j: nat)
    requires i < j < |a|
    ensures a[i] == a[j] ==> multiset(a)[a[i]] >= 2
  {
    assert a == a[..i] + [a[i]] + a[i + 1..j] + [a[j]] + a[j + 1..];
  }

  lemma {:induction false} OnceEach<T(!new)>(s: seq<T>)
    requires Distinct(s)
    ensures forall x :: x in s ==> multiset(s)[x] == 1
  {
    if s == [] {
    } else {
      OnceEach(s[1..]);
      assert s == [s[0]] + s[1..];
      assert s[0] !in multiset(s[1..]);
    }
  }

  /** The import is read, and only the case of its type keeps the resolver from decoding it. */
  predicate CaseMatters(w: World, item: Import) {
    && ImportFault(item).None? && w.read(item).Success?
    && item.kind !in SING_BOX_KINDS + MIHOMO_KINDS && Lower(item.kind) in SING_BOX_KINDS + MIHOMO_KINDS
  }

  lemma KnownKindsAreLower(kind: string)
    requires kind in SING_BOX_KINDS + MIHOMO_KINDS
    ensures Lower(kind) == kind
  {
  }

  lemma LoadersDiffer(w: World, item: Import)
    ensures LoadImport(w, item, true) != LoadImport(w, item, false) <==> CaseMatters(w, item)
    ensures CaseMatters(w, item) ==> LoadImport(w, item, false) == Failure(Unsupported(item.kind))
    ensures CaseMatters(w, item) ==> LoadImport(w, item, true) != Failure(Unsupported(item.kind))
  {
    hide ImportFault, Lower, SingBox, Mihomo;
    if w.read(item).Success? {
      NoCodecRefusesType(w, item, w.read(item).value, item.kind);
    }
    if item.kind in SING_BOX_KINDS + MIHOMO_KINDS {
      KnownKindsAreLower(item.kind);
    }
  }

  /** An import whose type's case matters is reached: everything before it loads. */
  ghost predicate CaseMattersFrom(w: World, file: File, n: nat) {
    exists k :: n <= k < |file.imports| && CaseMatters(w, file.imports[k])
                && forall j :: n <= j < k ==> LoadImport(w, file.imports[j], false).Success?
  }

  lemma CaseMattersStep(w: World, file: File, n: nat)
    requires n < |file.imports|
    ensures CaseMattersFrom(w, file, n) <==>
            CaseMatters(w, file.imports[n]) ||
                (LoadImport(w, file.imports[n], false).Success? && CaseMattersFrom(w, file, n + 1))
  {
    hide CaseMatters, LoadImport;
    if CaseMattersFrom(w, file, n) {
      var k :| n <= k < |file.imports| && CaseMatters(w, file.imports[k])
               && forall j :: n <= j < k ==> LoadImport(w, file.imports[j], false).Success?;
      assert k > n ==> CaseMattersFrom(w, file, n + 1);
    }
    if LoadImport(w, file.imports[n], false).Success? && CaseMattersFrom(w, file, n + 1) {
      var k :| n + 1 <= k < |file.imports| && CaseMatters(w, file.imports[k])
               && forall j :: n + 1 <= j < k ==> LoadImport(w, file.imports[j], false).Success?;
    }
  }

  /** Failures are named by their import, so that of import `n` is none of a later one. */
  lemma {:induction false} FailuresAreLater(w: World, fold: bool, file: File, n: nat)
    requires n <= |file.imports|
    ensures var r := ImportSources(w, fold, file, n); r.Failure? ==> r.error.BadImport? && n <= r.error.index
    decreases |file.imports| - n
  {
    hide LoadImport;
    if n == |file.imports| {
    } else {
      FailuresAreLater(w, fold, file, n + 1);
    }
  }

  lemma {:induction false} SourcesDifferIff(w: World, file: File, n: nat)
    requires n <= |file.imports|
    ensures ImportSources(w, true, file, n) != ImportSources(w, false, file, n) <==> CaseMattersFrom(w, file, n)
    ensures CaseMattersFrom(w, file, n) ==> ImportSources(w, false, file, n).Failure?
    decreases |file.imports| - n
  {
    hide LoadImport, CaseMattersFrom, CaseMatters;
    if n == |file.imports| {
      NoneFrom(w, file);
    } else {
      LoadersDiffer(w, file.imports[n]);
      CaseMattersStep(w, file, n);
      SourcesDifferIff(w, file, n + 1);
      FailuresAreLater(w, true, file, n + 1);
    }
  }

  lemma NoneFrom(w: World, file: File)
    ensures !CaseMattersFrom(w, file, |file.imports|)
  {
  }

  /**
    The two normalisers give different results exactly when the local rules are good and an import is reached that
    differs only in the case of its type; then the resolver refuses it. Lower-case types always agree.
    */
  lemma NormalisersDifferIff(w: World, file: File)
    ensures NormalizeSpec(w, true, file) != NormalizeSpec(w, false, file) <==>
            FirstFault(w.re, file.rules).None? && CaseMattersFrom(w, file, 0)
    ensures (forall k :: 0 <= k < |file.imports| ==> Lower(file.imports[k].kind) == file.imports[k].kind) ==>
              NormalizeSpec(w, true, file) == NormalizeSpec(w, false, file)
  {
    hide ImportSources, FirstFault, SortBy, FlatRules, FlatWarnings, Lower;
    SourcesDifferIff(w, file, 0);
  }

  // ---------------------------------------------------------------- every local rule survives

  lemma {:induction false} FlatInsert(x: Source, s: seq<Source>)
    ensures multiset(FlatRules(Insert(SourceBefore, x, s))) == multiset(FlatRules(s)) + multiset(x.rules)
  {
    if s == [] || SourceBefore(x, s[0]) {
    } else {
      FlatInsert(x, s[1..]);
    }
  }

  lemma {:induction false} FlatSnoc(s: seq<Source>, x: Source)
    ensures FlatRules(s + [x]) == FlatRules(s) + x.rules
  {
    if s != [] {
      assert (s + [x])[1..] == s[1..] + [x];
      FlatSnoc(s[1..], x);
    } else {
      assert s + [x] == [x] && [x][1..] == [];
    }
  }

  lemma FlatSnocBag(s: seq<Source>, x: Source)
    ensures multiset(FlatRules(s + [x])) == multiset(FlatRules(s)) + multiset(x.rules)
  {
    hide FlatRules;
    FlatSnoc(s, x);
  }

  lemma {:induction false} FlatSort(s: seq<Source>)
    ensures multiset(FlatRules(SortBy(SourceBefore, s))) == multiset(FlatRules(s))
  {
    hide SourceBefore, Insert, FlatRules;
    if s == [] {
      assert SortBy(SourceBefore, s) == s;
    } else {
      var front, last := s[..|s| - 1], s[|s| - 1];
      FlatSort(front);
      FlatInsert(last, SortBy(SourceBefore, front));
      FlatSnocBag(front, last);
      assert s == front + [last];
    }
  }

  lemma {:induction false} FlatLocal(rules: seq<Rule>)
    ensures FlatRules(RuleSourcesOf(rules)) == rules
  {
    if rules == [] {
    } else {
      var front, last := rules[..|rules| - 1], rules[|rules| - 1];
      FlatLocal(front);
      assert RuleSourcesOf(rules) == RuleSourcesOf(front) + [Source(RuleKey(last, |rules| - 1), [last], [])];
      FlatSnoc(RuleSourcesOf(front), Source(RuleKey(last, |rules| - 1), [last], []));
    }
  }

  lemma {:induction false} FlatConcat(a: seq<Source>, b: seq<Source>)
    ensures FlatRules(a + b) == FlatRules(a) + FlatRules(b)
  {
    if a == [] {
      assert a + b == b;
    } else {
      assert (a + b)[1..] == a[1..] + b;
      FlatConcat(a[1..], b);
    }
  }

  /** Every local rule is in the normalised list, as often as it is in the file. */
  lemma LocalRulesSurvive(w: World, fold: bool, file: File)
    requires NormalizeSpec(w, fold, file).Success?
    ensures multiset(file.rules) <= multiset(NormalizeSpec(w, fold, file).value.rules)
  {
    var imported := ImportSources(w, fold, file, 0).value;
    var sources := RuleSourcesOf(file.rules) + imported;
    FlatSort(sources);
    FlatConcat(RuleSourcesOf(file.rules), imported);
    FlatLocal(file.rules);
  }

  // ---------------------------------------------------------------- where rules come from

  predicate Yields(w: World, fold: bool, item: Import, rule: Rule) {
    LoadImport(w, item, fold).Success? && rule in LoadImport(w, item, fold).value.rules
  }

  lemma {:induction false} ImportedFrom(w: World, fold: bool, file: File, n: nat, rule: Rule)
    requires n <= |file.imports| && ImportSources(w, fold, file, n).Success?
    requires rule in FlatRules(ImportSources(w, fold, file, n).value)
    ensures exists item :: item in file.imports && Yields(w, fold, item, rule)
    decreases |file.imports| - n
  {
    hide LoadImport, ImportKey;
    if n == |file.imports| {
    } else {
      var source := ImportSources(w, fold, file, n).value[0];
      assert ImportSources(w, fold, file, n).value[1..] == ImportSources(w, fold, file, n + 1).value;
      if rule in source.rules {
        assert Yields(w, fold, file.imports[n], rule);
      } else {
        ImportedFrom(w, fold, file, n + 1, rule);
      }
    }
  }

  /**
    Every rule of a normalised list is valid. It is in the file or an import yields it, and then it has the
    import's target and nothing that SmartDNS cannot render.
    */
  lemma NormalizedRule(w: World, fold: bool, file: File, rule: Rule)
    requires NormalizeSpec(w, fold, file).Success? && rule in NormalizeSpec(w, fold, file).value.rules
    ensures RuleFault(w.re, rule).None?
    ensures rule in file.rules || exists item :: item in file.imports && Fits(w.re, item, rule)
  {
    hide ImportSources, FlatRules, SortBy, RuleFault, FirstFault, LoadImport, Stripped;
    var imported := ImportSources(w, fold, file, 0).value;
    var sources := RuleSourcesOf(file.rules) + imported;
    FlatSort(sources);
    FlatConcat(RuleSourcesOf(file.rules), imported);
    FlatLocal(file.rules);
    NoFaultIff(w.re, file.rules);
    assert rule in multiset(FlatRules(sources));
    if rule !in file.rules {
      ImportedFrom(w, fold, file, 0, rule);
      var item :| item in file.imports && Yields(w, fold, item, rule);
      LoadedFits(w, item, fold);
    }
  }

  // ---------------------------------------------------------------- the two programs

  method LocalSources(w: World, rules: seq<Rule>) returns (r: Result<seq<Source>, Error>)
    ensures r == match FirstFault(w.re, rules)
                 case Some(fault) => Failure(BadRule(fault))
                 case None => Success(RuleSourcesOf(rules))
  {
    var sources: seq<Source> := [];
    for n := 0 to |rules|
      invariant sources == RuleSourcesOf(rules[..n])
      invariant FirstFault(w.re, rules) == FirstFault(w.re, rules[n..])
    {
      var fault := RuleFault(w.re, rules[n]);
      if fault.Some? {
        return Failure(BadRule(Fault(rules[n].name, fault.value)));
      }
      sources := sources + [Source(RuleKey(rules[n], |sources|), [rules[n]], [])];
    }
    assert rules[..|rules|] == rules;
    r := Success(sources);
  }

  method Flatten(sources: seq<Source>) returns (norm: Normalized)
    ensures norm == Flat(sources)
  {
    hide FlatRules, FlatWarnings;
    var rules: seq<Rule>, warnings: seq<Warning> := [], [];
    NothingFlat();
    for n := 0 to |sources|
      invariant rules == FlatRules(sources[..n]) && warnings == FlatWarnings(sources[..n])
    {
      assert sources[..n + 1] == sources[..n] + [sources[n]];
      FlatSnoc(sources[..n], sources[n]);
      FlatWarningsSnoc(sources[..n], sources[n]);
      rules := rules + sources[n].rules;
      warnings := warnings + sources[n].warnings;
    }
    assert sources[..|sources|] == sources;
    norm := Normalized(rules, warnings);
  }

  lemma NothingFlat()
    ensures FlatRules([]) == [] && FlatWarnings([]) == []
  {
  }

  lemma {:induction false} FlatWarningsSnoc(s: seq<Source>, x: Source)
    ensures FlatWarnings(s + [x]) == FlatWarnings(s) + x.warnings
  {
    if s == [] {
      assert s + [x] == [x] && [x][1..] == [];
    } else {
      assert (s + [x])[1..] == s[1..] + [x];
      FlatWarningsSnoc(s[1..], x);
    }
  }

  /** The sources collected before import `n` and those from there on are all of them. */
  ghost predicate Partway(w: World, fold: bool, file: File, n: nat, sources: seq<Source>)
    requires n <= |file.imports|
  {
    AllSources(w, fold, file) == match ImportSources(w, fold, file, n)
      case Failure(error) => Failure(error)
      case Success(rest) => Success(sources + rest)
  }

  lemma PartwayStep(w: World, fold: bool, file: File, n: nat, sources: seq<Source>)
    requires n < |file.imports| && Partway(w, fold, file, n, sources)
    ensures match LoadImport(w, file.imports[n], fold)
            case Failure(cause) => AllSources(w, fold, file) == Failure(BadImport(n, cause))
            case Success(loaded) =>
              Partway(w, fold, file, n + 1,
                  sources + [Source(ImportKey(file.imports[n], |file.rules| + n), loaded.rules, loaded.warnings)])
  {
    hide LoadImport, ImportKey, FirstFault;
    var loaded, rest := LoadImport(w, file.imports[n], fold), ImportSources(w, fold, file, n + 1);
    if loaded.Success? && rest.Success? {
      var source := Source(ImportKey(file.imports[n], |file.rules| + n), loaded.value.rules, loaded.value.warnings);
      assert sources + ([source] + rest.value) == (sources + [source]) + rest.value;
    }
  }

  lemma PartwayEnds(w: World, fold: bool, file: File)
    ensures match FirstFault(w.re, file.rules)
            case Some(fault) => AllSources(w, fold, file) == Failure(BadRule(fault))
            case None => Partway(w, fold, file, 0, RuleSourcesOf(file.rules))
    ensures forall sources :: Partway(w, fold, file, |file.imports|, sources) ==>
                                AllSources(w, fold, file) == Success(sources)
  {
    hide FirstFault, LoadImport;
    forall sources | Partway(w, fold, file, |file.imports|, sources)
      ensures AllSources(w, fold, file) == Success(sources)
    {
      assert sources + [] == sources;
    }
  }

  /** rules.Normalize. */
  method Normalize(w: World, file: File) returns (r: Result<Normalized, Error>)
    ensures r == NormalizeSpec(w, true, file)
  {
    hide FirstFault, LoadImport, ImportSources, AllSources, Partway, FlatRules, FlatWarnings, SortBy;
    PartwayEnds(w, true, file);
    var local := LocalSources(w, file.rules);
    if local.Failure? {
      return Failure(local.error);
    }
    var sources := local.value;
    for n := 0 to |file.imports|
      invariant |sources| == |file.rules| + n
      invariant Partway(w, true, file, n, sources)
    {
      PartwayStep(w, true, file, n, sources);
      var loaded := Load(w, file.imports[n], true);
      if loaded.Failure? {
        return Failure(BadImport(n, loaded.error));
      }
      sources := sources + [Source(ImportKey(file.imports[n], |sources|), loaded.value.rules, loaded.value.warnings)];
    }
    var norm := Flatten(SortBy(SourceBefore, sources));
    r := Success(norm);
  }

  /** Each import's result arrives once. */
  ghost predicate ArrivesOnce(arrival: seq<nat>, n: nat) {
    && |arrival| == n && Distinct(arrival)
    && forall k :: 0 <= k < n ==> arrival[k] < n
  }

  lemma {:induction false} EveryoneArrives(arrival: seq<nat>, n: nat, want: nat)
    requires ArrivesOnce(arrival, n) && want < n
    ensures want in arrival
  {
    if want !in arrival {
      CardOfDistinct(arrival);
      SubsetCard(Elements(arrival), Below(n) - {want});
    }
  }

  ghost function Below(n: nat): (r: set<nat>)
    ensures |r| == n && forall k: nat :: k in r <==> k < n
  {
    if n == 0 then {} else Below(n - 1) + {n - 1}
  }

  lemma {:induction false} CardOfDistinct(s: seq<nat>)
    requires Distinct(s)
    ensures |Elements(s)| == |s|
  {
    if s == [] {
    } else {
      CardOfDistinct(s[1..]);
      assert Elements(s) == Elements(s[1..]) + {s[0]};
    }
  }

  lemma {:induction false} SubsetCard<T>(a: set<T>, b: set<T>)
    requires a <= b
    ensures |a| <= |b|
  {
    assert b == a + (b - a);
  }

  /** The results that arrive on the channel, each put where its import stands. */
  method Collect(w: World, file: File, arrival: seq<nat>) returns (ordered: array<Result<Loaded, Cause>>)
    requires ArrivesOnce(arrival, |file.imports|)
    ensures fresh(ordered) && ordered.Length == |file.imports|
    ensures forall k :: 0 <= k < |file.imports| ==> ordered[k] == LoadImport(w, file.imports[k], false)
  {
    hide LoadImport;
    ordered := new Result<Loaded, Cause>[|file.imports|](_ => Failure(NameRequired));
    for k := 0 to |arrival|
      invariant forall j :: 0 <= j < k ==> ordered[arrival[j]] == LoadImport(w, file.imports[arrival[j]], false)
    {
      var loaded := Load(w, file.imports[arrival[k]], false);
      ordered[arrival[k]] := loaded;
    }
    forall n | 0 <= n < |file.imports| ensures ordered[n] == LoadImport(w, file.imports[n], false) {
      EveryoneArrives(arrival, |file.imports|, n);
    }
  }

  /** Resolver.Normalize: the imports load concurrently; `arrival` is the order in which they finish. */
  method ResolverNormalize(w: World, file: File, arrival: seq<nat>) returns (r: Result<Normalized, Error>)
    requires ArrivesOnce(arrival, |file.imports|)
    ensures r == NormalizeSpec(w, false, file)
  {
    hide FirstFault, LoadImport, ImportSources, AllSources, Partway, FlatRules, FlatWarnings, SortBy;
    PartwayEnds(w, false, file);
    var local := LocalSources(w, file.rules);
    if local.Failure? {
      return Failure(local.error);
    }
    var sources := local.value;
    var ordered := Collect(w, file, arrival);
    for n := 0 to |file.imports|
      invariant |sources| == |file.rules| + n
      invariant Partway(w, false, file, n, sources)
      invariant forall k :: 0 <= k < |file.imports| ==> ordered[k] == LoadImport(w, file.imports[k], false)
    {
      PartwayStep(w, false, file, n, sources);
      var loaded := ordered[n];
      if loaded.Failure? {
        return Failure(BadImport(n, loaded.error));
      }
      sources := sources + [Source(ImportKey(file.imports[n], |sources|), loaded.value.rules, loaded.value.warnings)];
    }
    var norm := Flatten(SortBy(SourceBefore, sources));
    r := Success(norm);
  }
}
