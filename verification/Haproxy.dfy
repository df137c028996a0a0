/**
  The generated HAProxy configuration: named ACLs over pattern files, one use_backend line for every
  gateway rule, a default backend, and a section for every backend. Template text is kept as values; the
  decision is HAProxy's: ACL lines of one name are alternatives, and the first use_backend line wins.
  */
module Haproxy {
  import opened Text
  import opened Rules
  import opened Hosts
  import opened CompiledRules
  import opened Ordering
  import opened ExitIds
  import opened ExitSelection
  import Config
  import SmartDns
  import SuffixTrie

  datatype Match = Str | End | Sub | Reg

  datatype Patterns = FromFile(path: string) | Inline(value: string)

  datatype Acl = Acl(name: string, how: Match, patterns: Patterns)

  datatype Use = Use(backend: string, names: seq<string>)

  datatype Frontend = Frontend(acls: seq<Acl>, deny: Option<string>, uses: seq<Use>, fallback: string)

  datatype View = View(id: string, exit: string, exactFile: string, suffixFile: string, suffixRootFile: string,
      rule: Rule)

  type Files = map<string, seq<string>>

  const ENCRYPTED_DNS: seq<string> := [
    "cloudflare-dns.com", "dns.google", "dns.google.com", "dns.quad9.net", "dns.adguard-dns.com", "dns.nextdns.io",
    "one.one.one.one", "1dot1dot1dot1.cloudflare-dns.com"]

  // ---------------------------------------------------------------- what the configuration decides

  datatype Decision = Deny | Backend(name: string)

  /** One pattern against a host that the fetch has put in lower case; all but regular expressions ignore case. */
  predicate PatternHolds(re: Regexps, how: Match, pattern: string, host: string) {
    match how
    case Str => host == Lower(pattern)
    case End => HasSuffix(host, Lower(pattern))
    case Sub => Contains(host, Lower(pattern))
    case Reg => re.matches(pattern, host)
  }

  function PatternsOf(files: Files, patterns: Patterns): seq<string> {
    match patterns
    case FromFile(path) => if path in files then files[path] else []
    case Inline(value) => [value]
  }

  predicate AclHolds(re: Regexps, files: Files, acl: Acl, host: string) {
    exists p :: p in PatternsOf(files, acl.patterns) && PatternHolds(re, acl.how, p, host)
  }

  predicate NameHolds(re: Regexps, files: Files, acls: seq<Acl>, name: string, host: string) {
    exists acl :: acl in acls && acl.name == name && AclHolds(re, files, acl, host)
  }

  /** The expression of a use_backend line: the names joined by ||, or FALSE when there are none. */
  predicate AnyHolds(re: Regexps, files: Files, acls: seq<Acl>, names: seq<string>, host: string) {
    exists n :: n in names && NameHolds(re, files, acls, n, host)
  }

  function FirstUse(re: Regexps, files: Files, acls: seq<Acl>, uses: seq<Use>, fallback: string, host: string): string {
    if uses == [] then fallback
    else if AnyHolds(re, files, acls, uses[0].names, host) then uses[0].backend
    else FirstUse(re, files, acls, uses[1..], fallback, host)
  }

  function Decide(re: Regexps, files: Files, f: Frontend, host: string): Decision {
    if f.deny.Some? && NameHolds(re, files, f.acls, f.deny.value, host) then Deny
    else Backend(FirstUse(re, files, f.acls, f.uses, f.fallback, host))
  }

  // ---------------------------------------------------------------- generated names

  function Id(i: nat): string { "r" + Decimal(i + 1) }

  function AclName(prefix: string, id: string, kind: string): string {
    prefix + "_" + id + "_" + kind
  }

  function ListPath(id: string, kind: string): string {
    "haproxy/rules/" + id + "_" + kind + ".lst"
  }

  lemma SameTail(prefix: string, a: string, b: string)
    requires prefix + a == prefix + b
    ensures a == b
  {
    assert a == (prefix + a)[|prefix|..] && b == (prefix + b)[|prefix|..];
  }

  /** An ACL name tells its rule and its kind apart from every other. */
  lemma NamesApart(prefix: string, i: nat, kind: string, j: nat, other: string)
    requires AclName(prefix, Id(i), kind) == AclName(prefix, Id(j), other)
    ensures i == j && kind == other
  {
    hide Decimal;
    var a, b := Decimal(i + 1), Decimal(j + 1);
    assert AclName(prefix, Id(i), kind) == (prefix + "_r") + (a + "_" + kind);
    assert AclName(prefix, Id(j), other) == (prefix + "_r") + (b + "_" + other);
    SameTail(prefix + "_r", a + "_" + kind, b + "_" + other);
    DecimalDigits(i + 1);
    DecimalDigits(j + 1);
    SeparatorSplits('_', a, kind, b, other);
    DecimalInjective(i + 1, j + 1);
  }

  /** And so does a list file. */
  lemma PathsApart(i: nat, kind: string, j: nat, other: string)
    requires ListPath(Id(i), kind) == ListPath(Id(j), other)
    ensures i == j && kind == other
  {
    hide Decimal;
    var x, y := kind + ".lst", other + ".lst";
    assert ListPath(Id(i), kind) == "haproxy/rules/" + (Id(i) + "_" + x);
    assert ListPath(Id(j), other) == "haproxy/rules/" + (Id(j) + "_" + y);
    SameTail("haproxy/rules/", Id(i) + "_" + x, Id(j) + "_" + y);
    DecimalDigits(i + 1);
    DecimalDigits(j + 1);
    SeparatorSplits('_', Id(i), x, Id(j), y);
    SameTail("r", Decimal(i + 1), Decimal(j + 1));
    DecimalInjective(i + 1, j + 1);
    assert kind == x[..|x| - 4] && other == y[..|y| - 4];
  }

  // ---------------------------------------------------------------- buildRuleViews

  function Dotted(domains: seq<string>): (r: seq<string>)
    ensures |r| == |domains|
  {
    seq(|domains|, i requires 0 <= i < |domains| => "." + domains[i])
  }

  function ViewOf(sha: Sha256, rule: Rule, i: nat): View {
    View(Id(i), ExitID(sha, rule.exit),
         if rule.domain != [] then ListPath(Id(i), "exact") else "",
         if rule.domainSuffix != [] then ListPath(Id(i), "suffix") else "",
         if rule.domainSuffix != [] then ListPath(Id(i), "suffix_root") else "",
         rule)
  }

  /** The list files of rule `i` hold its values, whatever was written for other rules. */
  predicate FilesHold(files: Files, rule: Rule, i: nat) {
    && (rule.domain != [] ==> ListPath(Id(i), "exact") in files && files[ListPath(Id(i), "exact")] == rule.domain)
    && (rule.domainSuffix != [] ==>
          && ListPath(Id(i), "suffix") in files && files[ListPath(Id(i), "suffix")] == Dotted(rule.domainSuffix)
          && ListPath(Id(i), "suffix_root") in files && files[ListPath(Id(i), "suffix_root")] == rule.domainSuffix)
  }

  method BuildRuleViews(sha: Sha256, src: seq<Rule>) returns (views: seq<View>, files: Files)
    ensures |views| == |src| && forall i :: 0 <= i < |src| ==>
              views[i] == ViewOf(sha, src[i], i) && FilesHold(files, src[i], i)
  {
    hide ListPath, Id, ExitID, Dotted;
    views, files := [], map[];
    for n := 0 to |src|
      invariant |views| == n
      invariant forall i :: 0 <= i < n ==> views[i] == ViewOf(sha, src[i], i) && FilesHold(files, src[i], i)
    {
      var view, grown := AddRule(sha, src, n, files);
      views, files := views + [view], grown;
    }
  }

  method AddRule(sha: Sha256, src: seq<Rule>, n: nat, files: Files) returns (view: View, grown: Files)
    requires n < |src| && forall i :: 0 <= i < n ==> FilesHold(files, src[i], i)
    ensures view == ViewOf(sha, src[n], n) && forall i :: 0 <= i <= n ==> FilesHold(grown, src[i], i)
  {
    hide ListPath, Id, ExitID;
    var rule, id := src[n], Id(n);
    view, grown := View(id, ExitID(sha, rule.exit), "", "", "", rule), files;
    if |rule.domain| > 0 {
      view := view.(exactFile := ListPath(id, "exact"));
      grown := grown[ListPath(id, "exact") := rule.domain];
    }
    if |rule.domainSuffix| > 0 {
      view := view.(suffixFile := ListPath(id, "suffix"), suffixRootFile := ListPath(id, "suffix_root"));
      var suffixes := new string[|rule.domainSuffix|](_ => "");
      for i := 0 to |rule.domainSuffix|
        invariant forall k :: 0 <= k < i ==> suffixes[k] == "." + rule.domainSuffix[k]
      {
        suffixes[i] := "." + rule.domainSuffix[i];
      }
      assert suffixes[..] == Dotted(rule.domainSuffix);
      grown := grown[ListPath(id, "suffix") := suffixes[..]];
      grown := grown[ListPath(id, "suffix_root") := rule.domainSuffix];
    }
    OthersKept(src, n, files, grown);
    KindsApart(n);
  }

  lemma KindsApart(n: nat)
    ensures ListPath(Id(n), "exact") != ListPath(Id(n), "suffix")
    ensures ListPath(Id(n), "exact") != ListPath(Id(n), "suffix_root")
    ensures ListPath(Id(n), "suffix") != ListPath(Id(n), "suffix_root")
  {
    hide ListPath, Id;
    assert "exact"[0] != "suffix"[0] && "exact"[0] != "suffix_root"[0] && |"suffix"| != |"suffix_root"|;
    if ListPath(Id(n), "exact") == ListPath(Id(n), "suffix") {
      PathsApart(n, "exact", n, "suffix");
    }
    if ListPath(Id(n), "exact") == ListPath(Id(n), "suffix_root") {
      PathsApart(n, "exact", n, "suffix_root");
    }
    if ListPath(Id(n), "suffix") == ListPath(Id(n), "suffix_root") {
      PathsApart(n, "suffix", n, "suffix_root");
    }
  }

  lemma OthersKept(src: seq<Rule>, n: nat, files: Files, grown: Files)
    requires n < |src| && forall i :: 0 <= i < n ==> FilesHold(files, src[i], i)
    requires forall p :: p in files ==>
               || p in {ListPath(Id(n), "exact"), ListPath(Id(n), "suffix"), ListPath(Id(n), "suffix_root")}
               || (p in grown && grown[p] == files[p])
    ensures forall i :: 0 <= i < n ==> FilesHold(grown, src[i], i)
  {
    hide ListPath, Id, Dotted;
    forall i, kind, other | 0 <= i < n && ListPath(Id(i), kind) == ListPath(Id(n), other) ensures false {
      PathsApart(i, kind, n, other);
    }
  }

  // ---------------------------------------------------------------- the template

  function KindsOf(rule: Rule): seq<string> {
    (if rule.domain != [] then ["exact"] else []) +
    (if rule.domainKeyword != [] then ["keyword"] else []) +
    (if rule.domainRegex != [] then ["regex"] else []) +
    (if rule.domainSuffix != [] then ["suffix", "root"] else [])
  }

  function NamesFor(prefix: string, id: string, kinds: seq<string>): (r: seq<string>) {
    seq(|kinds|, i requires 0 <= i < |kinds| => AclName(prefix, id, kinds[i]))
  }

  function AclNames(prefix: string, view: View): seq<string> {
    NamesFor(prefix, view.id, KindsOf(view.rule))
  }

  /** The closure of aclAny: a name that was seen is not appended again. */
  method AppendName(prefix: string, id: string, kind: string, names: seq<string>, seen: set<string>,
      ghost kinds: seq<string>)
    returns (more: seq<string>, grown: set<string>)
    requires names == NamesFor(prefix, id, kinds) && kind !in kinds && forall n :: n in seen <==> n in names
    ensures more == NamesFor(prefix, id, kinds + [kind]) && forall n :: n in grown <==> n in more
  {
    var name := AclName(prefix, id, kind);
    forall j | 0 <= j < |names| ensures names[j] != name {
      KindShows(prefix, id, kinds[j], kind);
    }
    more, grown := names, seen;
    if name !in seen {
      more, grown := names + [name], seen + {name};
    }
  }

  lemma KindShows(prefix: string, id: string, a: string, b: string)
    requires a != b
    ensures AclName(prefix, id, a) != AclName(prefix, id, b)
  {
    if AclName(prefix, id, a) == AclName(prefix, id, b) {
      SameTail(prefix + "_" + id + "_", a, b);
    }
  }

  /** aclAny: each kind of matcher that the rule has gives its name once, in this order. */
  method AclAny(prefix: string, view: View) returns (names: seq<string>)
    ensures names == AclNames(prefix, view)
  {
    hide NamesFor;
    KindsDiffer();
    var seen: set<string>;
    ghost var kinds: seq<string> := [];
    names, seen := [], {};
    StartsEmpty(prefix, view.id);
    if |view.rule.domain| > 0 {
      names, seen := AppendName(prefix, view.id, "exact", names, seen, kinds);
      kinds := kinds + ["exact"];
    }
    if |view.rule.domainKeyword| > 0 {
      names, seen := AppendName(prefix, view.id, "keyword", names, seen, kinds);
      kinds := kinds + ["keyword"];
    }
    if |view.rule.domainRegex| > 0 {
      names, seen := AppendName(prefix, view.id, "regex", names, seen, kinds);
      kinds := kinds + ["regex"];
    }
    if |view.rule.domainSuffix| > 0 {
      names, seen := AppendName(prefix, view.id, "suffix", names, seen, kinds);
      kinds := kinds + ["suffix"];
      names, seen := AppendName(prefix, view.id, "root", names, seen, kinds);
      kinds := kinds + ["root"];
    }
    assert kinds == KindsOf(view.rule);
  }

  lemma StartsEmpty(prefix: string, id: string)
    ensures NamesFor(prefix, id, []) == []
  {
  }

  lemma KindsDiffer()
    ensures "exact" !in ["keyword", "regex", "suffix", "root"] && "keyword" !in ["regex", "suffix", "root"]
    ensures "regex" !in ["suffix", "root"] && "suffix" != "root"
  {
    assert "exact"[0] == 'e' && "keyword"[0] == 'k' && "regex"[..2] == "re" && "suffix"[0] == 's' &&
        "root"[..2] == "ro";
    assert "re"[1] != "ro"[1];
  }

  function InlineAcls(name: string, how: Match, values: seq<string>): (r: seq<Acl>) {
    seq(|values|, i requires 0 <= i < |values| => Acl(name, how, Inline(values[i])))
  }

  /** The acl lines of one rule. */
  function AclLines(prefix: string, view: View): seq<Acl> {
    (if view.exactFile != "" then [Acl(AclName(prefix, view.id, "exact"), Str, FromFile(view.exactFile))] else []) +
    (if view.suffixFile != "" then
       [Acl(AclName(prefix, view.id, "suffix"), End, FromFile(view.suffixFile)),
        Acl(AclName(prefix, view.id, "root"), Str, FromFile(view.suffixRootFile))] else []) +
    InlineAcls(AclName(prefix, view.id, "keyword"), Sub, view.rule.domainKeyword) +
    InlineAcls(AclName(prefix, view.id, "regex"), Reg, view.rule.domainRegex)
  }

  function AllAcls(prefix: string, views: seq<View>): seq<Acl> {
    if views == [] then [] else AclLines(prefix, views[0]) + AllAcls(prefix, views[1..])
  }

  function EncryptedName(prefix: string): string { "encrypted_dns_" + prefix }

  function EncryptedAcls(prefix: string, domains: seq<string>): seq<Acl> {
    if domains == [] then []
    else [Acl(EncryptedName(prefix), Str, Inline(domains[0])),
        Acl(EncryptedName(prefix), End, Inline("." + domains[0]))] +
         EncryptedAcls(prefix, domains[1..])
  }

  function FrontendOf(sha: Sha256, prefix: string, proto: string, views: seq<View>, reject: bool,
      fallback: string): Frontend {
    Frontend(
      (if reject then EncryptedAcls(prefix, ENCRYPTED_DNS) else []) + AllAcls(prefix, views),
      if reject then Some(EncryptedName(prefix)) else None,
      seq(|views|, i requires 0 <= i < |views| => Use(proto + ExitID(sha, views[i].exit), AclNames(prefix, views[i]))),
      proto + fallback)
  }

  datatype Generated = Generated(http: Frontend, tls: Frontend, exits: seq<string>, sections: seq<string>, files: Files)

  function Views(sha: Sha256, rules: seq<Rule>): (r: seq<View>) {
    seq(|rules|, i requires 0 <= i < |rules| => ViewOf(sha, rules[i], i))
  }

  predicate Rejects(cfg: Config.Config) { cfg.network.encryptedDnsPolicy == "reject" }

  /** The exits that hosts can be sent to. */
  ghost predicate Reachable(cfg: Config.Config, norm: seq<Rule>, name: string) {
    name == cfg.fallbackExit || exists rule :: rule in GatewayRules(norm) && rule.exit == name
  }

  ghost predicate Rendered(sha: Sha256, cfg: Config.Config, norm: seq<Rule>, g: Generated) {
    var rules, reject := GatewayRules(norm), cfg.network.encryptedDnsPolicy == "reject";
    && g.http == FrontendOf(sha, "host", "http_", Views(sha, rules), reject, ExitID(sha, cfg.fallbackExit))
    && g.tls == FrontendOf(sha, "sni", "tls_", Views(sha, rules), reject, ExitID(sha, cfg.fallbackExit))
    && (forall i :: 0 <= i < |rules| ==> FilesHold(g.files, rules[i], i))
    && Sorted(StringBefore, g.exits) && (forall name :: name in g.exits <==> Reachable(cfg, norm, name))
    && g.sections == SectionsOf(sha, g.exits)
  }

  /** The backend sections of the template, two for each exit. */
  function SectionsOf(sha: Sha256, exits: seq<string>): seq<string> {
    if exits == [] then []
    else
      var last := ExitID(sha, exits[|exits| - 1]);
      SectionsOf(sha, exits[..|exits| - 1]) + ["http_" + last, "tls_" + last]
  }

  lemma {:induction false} SectionAt(sha: Sha256, exits: seq<string>, i: nat)
    requires i < |exits|
    ensures |SectionsOf(sha, exits)| == 2 * |exits|
    ensures SectionsOf(sha, exits)[2 * i] == "http_" + ExitID(sha, exits[i]) &&
              SectionsOf(sha, exits)[2 * i + 1] == "tls_" + ExitID(sha, exits[i])
  {
    hide ExitID;
    var front := exits[..|exits| - 1];
    if |exits| == 1 {
      assert SectionsOf(sha, front) == [];
    } else {
      SectionAt(sha, front, if i < |front| then i else 0);
    }
  }

  lemma {:induction false} InSections(sha: Sha256, exits: seq<string>, b: string)
    ensures b in SectionsOf(sha, exits) <==>
            exists name :: name in exits && (b == "http_" + ExitID(sha, name) || b == "tls_" + ExitID(sha, name))
  {
    hide ExitID;
    if exits == [] {
    } else {
      var front, last := exits[..|exits| - 1], exits[|exits| - 1];
      InSections(sha, front, b);
      assert forall name :: name in exits <==> name in front || name == last;
    }
  }

  /** exitsForHAProxy: every exit in use once, in order. */
  method ExitsForHAProxy(cfg: Config.Config, norm: seq<Rule>) returns (exits: seq<string>)
    ensures Sorted(StringBefore, exits) && forall name :: name in exits <==> Reachable(cfg, norm, name)
  {
    hide StringBefore, SortBy;
    var used: set<string> := {};
    var rules := GatewayRules(norm);
    for n := 0 to |rules|
      invariant forall name :: name in used <==> exists i :: 0 <= i < n && rules[i].exit == name
    {
      used := used + {rules[n].exit};
    }
    used := used + {cfg.fallbackExit};
    var listed := RangeOver(used);
    exits := SortBy(StringBefore, listed);
    StringsOrdered(Elements(listed));
    SortSorts(StringBefore, listed);
    SortKeeps(StringBefore, listed);
    SameElements(exits, listed);
    assert forall name :: name in exits <==> name in Elements(exits);
    forall name ensures name in used <==> Reachable(cfg, norm, name) {
      if rule :| rule in rules && rule.exit == name {
        var i :| 0 <= i < |rules| && rules[i] == rule;
      }
    }
  }

  /** The loop of the template over the exits. */
  method Sections(sha: Sha256, exits: seq<string>) returns (sections: seq<string>)
    ensures sections == SectionsOf(sha, exits)
  {
    hide ExitID;
    sections := [];
    for n := 0 to |exits|
      invariant sections == SectionsOf(sha, exits[..n])
    {
      assert exits[..n + 1][..n] == exits[..n];
      sections := sections + ["http_" + ExitID(sha, exits[n]), "tls_" + ExitID(sha, exits[n])];
    }
    assert exits[..|exits|] == exits;
  }

  method HAProxyAt(sha: Sha256, cfg: Config.Config, norm: seq<Rule>) returns (g: Generated)
    ensures Rendered(sha, cfg, norm, g)
    ensures g.http.deny == if cfg.network.encryptedDnsPolicy == "reject" then Some("encrypted_dns_host") else None
    ensures g.tls.deny == if cfg.network.encryptedDnsPolicy == "reject" then Some("encrypted_dns_sni") else None
  {
    hide ExitID, FrontendOf, ViewOf, FilesHold, StringBefore, SectionsOf;
    var rules := GatewayRules(norm);
    var exits := ExitsForHAProxy(cfg, norm);
    var views, files := BuildRuleViews(sha, rules);
    assert views == Views(sha, rules);
    var sections := Sections(sha, exits);
    var fallback := ExitID(sha, cfg.fallbackExit);
    g := Generated(
      FrontendOf(sha, "host", "http_", views, Rejects(cfg), fallback),
          FrontendOf(sha, "sni", "tls_", views, Rejects(cfg), fallback),
      exits, sections, files);
    DenyNames(sha, "http_", "tls_", views, Rejects(cfg), fallback);
  }

  lemma DenyNames(sha: Sha256, http: string, tls: string, views: seq<View>, reject: bool, fallback: string)
    ensures FrontendOf(sha, "host", http, views, reject, fallback).deny ==
            if reject then Some("encrypted_dns_host") else None
    ensures FrontendOf(sha, "sni", tls, views, reject, fallback).deny ==
            if reject then Some("encrypted_dns_sni") else None
  {
    hide ExitID, AllAcls, EncryptedAcls, AclNames;
    assert "encrypted_dns_" + "host" == "encrypted_dns_host" && "encrypted_dns_" + "sni" == "encrypted_dns_sni";
  }

  /**
    Every backend that a use_backend line names, through the identifier taken twice, or the default line
    names, has a section; and every section is named by one of these lines.
    */
  lemma BackendsAreSections(sha: Sha256, cfg: Config.Config, norm: seq<Rule>, g: Generated)
    requires Rendered(sha, cfg, norm, g)
    ensures forall b :: b in g.sections <==> Names(g.http, b) || Names(g.tls, b)
  {
    hide ExitID, FilesHold, FrontendOf, SectionsOf, Names;
    forall b ensures b in g.sections <==> Names(g.http, b) || Names(g.tls, b) {
      InSections(sha, g.exits, b);
      NamesReachable(sha, cfg, norm, "host", "http_", b);
      NamesReachable(sha, cfg, norm, "sni", "tls_", b);
    }
  }

  /** Each section names one exit in use, once, if and only if no two exits in use share an identifier. */
  lemma SectionsOnceIff(sha: Sha256, cfg: Config.Config, norm: seq<Rule>, g: Generated)
    requires Rendered(sha, cfg, norm, g)
    ensures Distinct(g.sections) <==>
              forall a, b :: Reachable(cfg, norm, a) && Reachable(cfg, norm, b) && ExitID(sha, a) == ExitID(sha, b) ==>
              a == b
  {
    hide ExitID, FilesHold, FrontendOf, SectionsOf, Reachable, StringBefore;
    SectionsApartIff(sha, g.exits);
  }

  lemma SectionsApartIff(sha: Sha256, exits: seq<string>)
    requires Sorted(StringBefore, exits)
    ensures Distinct(SectionsOf(sha, exits)) <==>
              forall a, b :: a in exits && b in exits && ExitID(sha, a) == ExitID(sha, b) ==> a == b
  {
    hide ExitID, SectionsOf, StringBefore;
    var sections := SectionsOf(sha, exits);
    if Distinct(sections) {
      forall a, b | a in exits && b in exits && ExitID(sha, a) == ExitID(sha, b) ensures a == b {
        OneSectionOneExit(sha, exits, a, b);
      }
    }
    if forall a, b :: a in exits && b in exits && ExitID(sha, a) == ExitID(sha, b) ==> a == b {
      StringsOrdered(Elements(exits));
      forall p, q | 0 <= p < q < |sections| ensures sections[p] != sections[q] {
        SectionsDiffer(sha, exits, p, q);
      }
    }
  }

  lemma OneSectionOneExit(sha: Sha256, exits: seq<string>, a: string, b: string)
    requires Distinct(SectionsOf(sha, exits)) && a in exits && b in exits && ExitID(sha, a) == ExitID(sha, b)
    ensures a == b
  {
    hide ExitID, SectionsOf;
    var i :| 0 <= i < |exits| && exits[i] == a;
    var j :| 0 <= j < |exits| && exits[j] == b;
    SectionAt(sha, exits, i);
    SectionAt(sha, exits, j);
    assert SectionsOf(sha, exits)[2 * i] == SectionsOf(sha, exits)[2 * j];
  }

  lemma SectionsDiffer(sha: Sha256, exits: seq<string>, p: nat, q: nat)
    requires p < q < |SectionsOf(sha, exits)| && Sorted(StringBefore, exits) &&
               StrictTotal(StringBefore, Elements(exits))
    requires forall a, b :: a in exits && b in exits && ExitID(sha, a) == ExitID(sha, b) ==> a == b
    ensures SectionsOf(sha, exits)[p] != SectionsOf(sha, exits)[q]
  {
    hide ExitID, StringBefore, SectionsOf;
    SectionsSize(sha, exits);
    var i, j := p / 2, q / 2;
    SectionAt(sha, exits, i);
    SectionAt(sha, exits, j);
    assert p == 2 * i || p == 2 * i + 1;
    assert q == 2 * j || q == 2 * j + 1;
    var x, y := ExitID(sha, exits[i]), ExitID(sha, exits[j]);
    assert ("http_" + x)[0] == 'h' && ("tls_" + x)[0] == 't' && ("http_" + y)[0] == 'h' && ("tls_" + y)[0] == 't';
    if i < j {
      assert StringBefore(exits[i], exits[j]) && exits[i] in Elements(exits);
      SameTailIff("http_", x, y);
      SameTailIff("tls_", x, y);
    }
  }

  lemma SectionsSize(sha: Sha256, exits: seq<string>)
    ensures |SectionsOf(sha, exits)| == 2 * |exits|
  {
    if exits == [] {
    } else {
      SectionAt(sha, exits, 0);
    }
  }

  lemma SameTailIff(prefix: string, a: string, b: string)
    ensures prefix + a == prefix + b <==> a == b
  {
    if prefix + a == prefix + b {
      SameTail(prefix, a, b);
    }
  }

  /** It is enough that the names of the exits in use are safe. */
  lemma SafeNamesGiveOneSectionEach(sha: Sha256, cfg: Config.Config, norm: seq<Rule>, g: Generated)
    requires Rendered(sha, cfg, norm, g) && forall name :: Reachable(cfg, norm, name) ==> Safe(name)
    ensures Distinct(g.sections)
  {
    hide ExitID, Rendered, Reachable;
    forall a, b | Reachable(cfg, norm, a) && Reachable(cfg, norm, b) && ExitID(sha, a) == ExitID(sha, b)
      ensures a == b
    {
      SameIdIff(sha, a, b);
    }
    SectionsOnceIff(sha, cfg, norm, g);
  }

  ghost predicate Names(f: Frontend, backend: string) {
    backend == f.fallback || exists i :: 0 <= i < |f.uses| && f.uses[i].backend == backend
  }

  lemma NamesReachable(sha: Sha256, cfg: Config.Config, norm: seq<Rule>, prefix: string, proto: string, b: string)
    ensures Names(FrontendOf(sha, prefix, proto, Views(sha, GatewayRules(norm)), Rejects(cfg),
              ExitID(sha, cfg.fallbackExit)), b) <==>
            exists name :: Reachable(cfg, norm, name) && b == proto + ExitID(sha, name)
  {
    hide ExitID, AllAcls, EncryptedAcls, AclNames;
    var rules := GatewayRules(norm);
    var f := FrontendOf(sha, prefix, proto, Views(sha, rules), Rejects(cfg), ExitID(sha, cfg.fallbackExit));
    forall i | 0 <= i < |rules| ensures f.uses[i].backend == proto + ExitID(sha, rules[i].exit) {
      IdIsSafe(sha, rules[i].exit);
    }
    if name :| Reachable(cfg, norm, name) && b == proto + ExitID(sha, name) {
      if rule :| rule in rules && rule.exit == name {
        var i :| 0 <= i < |rules| && rules[i] == rule;
        assert f.uses[i].backend == b;
      }
    }
    if i :| 0 <= i < |f.uses| && f.uses[i].backend == b {
      assert rules[i] in rules;
      assert Reachable(cfg, norm, rules[i].exit);
    }
    assert Reachable(cfg, norm, cfg.fallbackExit);
  }

  // ---------------------------------------------------------------- what the lines mean

  /** The rule's own alternatives, as HAProxy reads them. */
  predicate Matched(re: Regexps, rule: Rule, host: string) {
    || (exists v :: v in rule.domain && host == Lower(v))
    || (exists v :: v in rule.domainSuffix && (host == Lower(v) || HasSuffix(host, "." + Lower(v))))
    || (exists v :: v in rule.domainKeyword && Contains(host, Lower(v)))
    || (exists v :: v in rule.domainRegex && re.matches(v, host))
  }

  predicate Encrypted(domains: seq<string>, host: string) {
    exists d :: d in domains && (host == Lower(d) || HasSuffix(host, "." + Lower(d)))
  }

  /** The host is one of the domains, or ends in one behind a dot. */
  ghost predicate IsOrBelow(host: string, domains: set<string>) {
    exists d :: d in domains && (host == d || exists front :: host == front + "." + d)
  }

  /** The encrypted DNS servers, and every name below one of them. */
  lemma EncryptedIff(host: string)
    ensures Encrypted(ENCRYPTED_DNS, host) <==>
            IsOrBelow(host, {"cloudflare-dns.com", "dns.google", "dns.google.com", "dns.quad9.net",
                             "dns.adguard-dns.com", "dns.nextdns.io", "one.one.one.one",
                             "1dot1dot1dot1.cloudflare-dns.com"})
  {
    hide Lower, Encrypted, IsOrBelow;
    ListedDomains();
    forall d | d in ENCRYPTED_DNS ensures Lower(d) == d {
      SmallAlready(d);
    }
    ListedHosts(ENCRYPTED_DNS, {"cloudflare-dns.com", "dns.google", "dns.google.com", "dns.quad9.net",
                                "dns.adguard-dns.com", "dns.nextdns.io", "one.one.one.one",
                                "1dot1dot1dot1.cloudflare-dns.com"}, host);
  }

  lemma ListedHosts(listed: seq<string>, domains: set<string>, host: string)
    requires forall d :: d in listed <==> d in domains
    requires forall d :: d in listed ==> Lower(d) == d
    ensures Encrypted(listed, host) <==> IsOrBelow(host, domains)
  {
    hide Lower, HasSuffix;
    forall d | d in listed
      ensures HasSuffix(host, "." + Lower(d)) <==> exists front :: host == front + "." + d
    {
      PartsMean(host, "." + d);
      assert forall front :: front + "." + d == front + ("." + d);
    }
  }

  lemma ListedDomains()
    ensures forall d :: d in ENCRYPTED_DNS <==>
              d in {"cloudflare-dns.com", "dns.google", "dns.google.com", "dns.quad9.net", "dns.adguard-dns.com",
                    "dns.nextdns.io", "one.one.one.one", "1dot1dot1dot1.cloudflare-dns.com"}
  {
  }

  lemma SmallAlready(d: string)
    requires d in ENCRYPTED_DNS
    ensures Lower(d) == d
  {
    assert forall i :: 0 <= i < |d| ==> !('A' <= d[i] <= 'Z');
  }

  function FirstMatched(re: Regexps, rules: seq<Rule>, host: string): Option<Rule> {
    if rules == [] then None
    else if Matched(re, rules[0], host) then Some(rules[0])
    else FirstMatched(re, rules[1..], host)
  }

  lemma LowerDot(v: string)
    ensures Lower("." + v) == "." + Lower(v)
  {
  }

  lemma {:induction false} InAllAcls(prefix: string, views: seq<View>, acl: Acl)
    ensures acl in AllAcls(prefix, views) <==> exists i :: 0 <= i < |views| && acl in AclLines(prefix, views[i])
  {
    hide AclLines;
    if views == [] {
    } else {
      InAllAcls(prefix, views[1..], acl);
      if i :| 0 <= i < |views| && acl in AclLines(prefix, views[i]) {
        assert i > 0 ==> views[1..][i - 1] == views[i];
      }
      if i :| 0 <= i < |views[1..]| && acl in AclLines(prefix, views[1..][i]) {
        assert views[i + 1] == views[1..][i];
      }
    }
  }

  lemma {:induction false} EncryptedNamed(prefix: string, domains: seq<string>, acl: Acl)
    requires acl in EncryptedAcls(prefix, domains)
    ensures acl.name == EncryptedName(prefix)
  {
    if acl in EncryptedAcls(prefix, domains[1..]) {
      EncryptedNamed(prefix, domains[1..], acl);
    }
  }

  predicate AnyLine(re: Regexps, files: Files, acls: seq<Acl>, host: string) {
    exists acl :: acl in acls && AclHolds(re, files, acl, host)
  }

  lemma AnyLineConcat(re: Regexps, files: Files, a: seq<Acl>, b: seq<Acl>, host: string)
    ensures AnyLine(re, files, a + b, host) <==> AnyLine(re, files, a, host) || AnyLine(re, files, b, host)
  {
    hide AclHolds;
  }

  lemma InlineHolds(re: Regexps, files: Files, name: string, how: Match, value: string, host: string)
    ensures AclHolds(re, files, Acl(name, how, Inline(value)), host) <==> PatternHolds(re, how, value, host)
  {
    hide PatternHolds;
    assert value in PatternsOf(files, Inline(value));
  }

  lemma {:induction false} EncryptedLines(re: Regexps, files: Files, prefix: string, domains: seq<string>, host: string)
    ensures AnyLine(re, files, EncryptedAcls(prefix, domains), host) <==> Encrypted(domains, host)
  {
    hide AclHolds, HasSuffix, Lower;
    if domains == [] {
    } else {
      var name, d := EncryptedName(prefix), domains[0];
      var own := [Acl(name, Str, Inline(d)), Acl(name, End, Inline("." + d))];
      EncryptedLines(re, files, prefix, domains[1..], host);
      AnyLineConcat(re, files, own, EncryptedAcls(prefix, domains[1..]), host);
      InlineHolds(re, files, name, Str, d, host);
      InlineHolds(re, files, name, End, "." + d, host);
      LowerDot(d);
      assert own[0] in own && own[1] in own;
      assert AnyLine(re, files, own, host) <==> host == Lower(d) || HasSuffix(host, "." + Lower(d));
      assert Encrypted(domains, host) <==>
          host == Lower(d) || HasSuffix(host, "." + Lower(d)) || Encrypted(domains[1..], host) by {
        assert domains == [d] + domains[1..];
      }
    }
  }

  /** Every line of a rule carries one of the names that its use_backend line lists. */
  lemma LinesAreNamed(sha: Sha256, prefix: string, rule: Rule, i: nat, acl: Acl)
    requires acl in AclLines(prefix, ViewOf(sha, rule, i))
    ensures acl.name in AclNames(prefix, ViewOf(sha, rule, i))
    ensures exists kind :: acl.name == AclName(prefix, Id(i), kind)
  {
    hide Id, ListPath, ExitID, AclName;
    var view := ViewOf(sha, rule, i);
    var kind := KindOfLine(sha, prefix, rule, i, acl);
    var k :| 0 <= k < |KindsOf(rule)| && KindsOf(rule)[k] == kind;
    assert AclNames(prefix, view)[k] == acl.name;
  }

  lemma KindOfLine(sha: Sha256, prefix: string, rule: Rule, i: nat, acl: Acl) returns (kind: string)
    requires acl in AclLines(prefix, ViewOf(sha, rule, i))
    ensures kind in KindsOf(rule) && acl.name == AclName(prefix, Id(i), kind)
  {
    hide Id, ListPath, ExitID, AclName;
    var view := ViewOf(sha, rule, i);
    if acl.name == AclName(prefix, view.id, "exact") && rule.domain != [] {
      kind := "exact";
    } else if acl.name == AclName(prefix, view.id, "suffix") && rule.domainSuffix != [] {
      kind := "suffix";
    } else if acl.name == AclName(prefix, view.id, "root") && rule.domainSuffix != [] {
      kind := "root";
    } else if acl in InlineAcls(AclName(prefix, view.id, "keyword"), Sub, rule.domainKeyword) {
      kind := "keyword";
    } else {
      kind := "regex";
    }
  }

  lemma InlineLines(re: Regexps, files: Files, name: string, how: Match, values: seq<string>, host: string)
    ensures AnyLine(re, files, InlineAcls(name, how, values), host) <==>
              exists v :: v in values && PatternHolds(re, how, v, host)
  {
    hide AclHolds, PatternHolds;
    var lines := InlineAcls(name, how, values);
    forall v ensures AclHolds(re, files, Acl(name, how, Inline(v)), host) <==> PatternHolds(re, how, v, host) {
      InlineHolds(re, files, name, how, v, host);
    }
    if v :| v in values && PatternHolds(re, how, v, host) {
      var k :| 0 <= k < |values| && values[k] == v;
      assert lines[k] in lines;
    }
  }

  lemma FileLine(re: Regexps, files: Files, name: string, how: Match, path: string, host: string)
    requires path in files
    ensures AnyLine(re, files, [Acl(name, how, FromFile(path))], host) <==>
              exists v :: v in files[path] && PatternHolds(re, how, v, host)
  {
    hide PatternHolds;
    var line := Acl(name, how, FromFile(path));
    assert line in [line];
    assert PatternsOf(files, line.patterns) == files[path];
  }

  lemma DottedHolds(re: Regexps, values: seq<string>, host: string)
    ensures (exists p :: p in Dotted(values) && PatternHolds(re, End, p, host)) <==>
              exists v :: v in values && HasSuffix(host, "." + Lower(v))
  {
    hide HasSuffix, Lower;
    forall v ensures PatternHolds(re, End, "." + v, host) <==> HasSuffix(host, "." + Lower(v)) {
      LowerDot(v);
    }
    if v :| v in values && HasSuffix(host, "." + Lower(v)) {
      var k :| 0 <= k < |values| && values[k] == v;
      assert Dotted(values)[k] == "." + v;
    }
  }

  lemma SuffixLines(sha: Sha256, re: Regexps, files: Files, prefix: string, rule: Rule, i: nat, host: string)
    requires FilesHold(files, rule, i) && rule.domainSuffix != []
    ensures var id := Id(i);
            AnyLine(re, files, [Acl(AclName(prefix, id, "suffix"), End, FromFile(ListPath(id, "suffix"))),
                                Acl(AclName(prefix, id, "root"), Str, FromFile(ListPath(id, "suffix_root")))],
                                    host) <==>
            exists v :: v in rule.domainSuffix && (host == Lower(v) || HasSuffix(host, "." + Lower(v)))
  {
    hide Id, ListPath, AclName, Lower, HasSuffix, Dotted, AnyLine;
    var id := Id(i);
    var end, root := Acl(AclName(prefix, id, "suffix"), End, FromFile(ListPath(id, "suffix"))),
        Acl(AclName(prefix, id, "root"), Str, FromFile(ListPath(id, "suffix_root")));
    assert [end, root] == [end] + [root];
    AnyLineConcat(re, files, [end], [root], host);
    FileLine(re, files, end.name, End, ListPath(id, "suffix"), host);
    FileLine(re, files, root.name, Str, ListPath(id, "suffix_root"), host);
    DottedHolds(re, rule.domainSuffix, host);
  }

  /** The lines of rule `i` hold for a host exactly when the rule matches it. */
  lemma LinesMeanRule(sha: Sha256, re: Regexps, files: Files, prefix: string, rule: Rule, i: nat, host: string)
    requires FilesHold(files, rule, i)
    ensures AnyLine(re, files, AclLines(prefix, ViewOf(sha, rule, i)), host) <==> Matched(re, rule, host)
  {
    hide Id, AclName, Lower, HasSuffix, Dotted, AnyLine, InlineAcls, Contains, ExitID;
    var id := Id(i);
    assert ListPath(id, "exact")[0] == ListPath(id, "suffix")[0] == 'h';
    var exact := if rule.domain != [] then [Acl(AclName(prefix, id, "exact"), Str, FromFile(ListPath(id, "exact")))]
        else [];
    var suffix := if rule.domainSuffix != [] then
                    [Acl(AclName(prefix, id, "suffix"), End, FromFile(ListPath(id, "suffix"))),
                     Acl(AclName(prefix, id, "root"), Str, FromFile(ListPath(id, "suffix_root")))] else [];
    var keyword := InlineAcls(AclName(prefix, id, "keyword"), Sub, rule.domainKeyword);
    var regex := InlineAcls(AclName(prefix, id, "regex"), Reg, rule.domainRegex);
    assert AclLines(prefix, ViewOf(sha, rule, i)) == exact + suffix + keyword + regex;
    AnyLineConcat(re, files, exact + suffix + keyword, regex, host);
    AnyLineConcat(re, files, exact + suffix, keyword, host);
    AnyLineConcat(re, files, exact, suffix, host);
    InlineLines(re, files, AclName(prefix, id, "keyword"), Sub, rule.domainKeyword, host);
    InlineLines(re, files, AclName(prefix, id, "regex"), Reg, rule.domainRegex, host);
    NoLines(re, files, host);
    if rule.domain != [] {
      FileLine(re, files, AclName(prefix, id, "exact"), Str, ListPath(id, "exact"), host);
    }
    if rule.domainSuffix != [] {
      SuffixLines(sha, re, files, prefix, rule, i, host);
    }
  }

  lemma NoLines(re: Regexps, files: Files, host: string)
    ensures !AnyLine(re, files, [], host)
  {
  }

  predicate Prefix(prefix: string) { prefix == "host" || prefix == "sni" }

  lemma NotEncrypted(prefix: string, id: string, kind: string)
    requires Prefix(prefix)
    ensures AclName(prefix, id, kind) != EncryptedName(prefix)
  {
    assert AclName(prefix, id, kind)[0] == prefix[0] && EncryptedName(prefix)[0] == 'e';
  }

  function AclsOf(sha: Sha256, prefix: string, rules: seq<Rule>, reject: bool): seq<Acl> {
    (if reject then EncryptedAcls(prefix, ENCRYPTED_DNS) else []) + AllAcls(prefix, Views(sha, rules))
  }

  /** An acl line is of the encrypted DNS names, or of exactly one rule. */
  lemma LineOrigin(sha: Sha256, prefix: string, rules: seq<Rule>, reject: bool, acl: Acl)
    requires acl in AclsOf(sha, prefix, rules, reject)
    ensures || (reject && acl in EncryptedAcls(prefix, ENCRYPTED_DNS) && acl.name == EncryptedName(prefix))
            || (exists j :: 0 <= j < |rules| && acl in AclLines(prefix, ViewOf(sha, rules[j], j)))
  {
    hide AclLines, ViewOf, AllAcls, EncryptedAcls;
    if acl in AllAcls(prefix, Views(sha, rules)) {
      InAllAcls(prefix, Views(sha, rules), acl);
      var j :| 0 <= j < |rules| && acl in AclLines(prefix, Views(sha, rules)[j]);
      assert Views(sha, rules)[j] == ViewOf(sha, rules[j], j);
    } else {
      EncryptedNamed(prefix, ENCRYPTED_DNS, acl);
    }
  }

  lemma RuleLineIn(sha: Sha256, prefix: string, rules: seq<Rule>, reject: bool, i: nat, acl: Acl)
    requires i < |rules| && acl in AclLines(prefix, ViewOf(sha, rules[i], i))
    ensures acl in AclsOf(sha, prefix, rules, reject)
  {
    hide AclLines, ViewOf, AllAcls, EncryptedAcls;
    assert Views(sha, rules)[i] == ViewOf(sha, rules[i], i);
    InAllAcls(prefix, Views(sha, rules), acl);
  }

  /** Lines of other rules never make a rule's own expression hold. */
  lemma OwnLinesOnly(sha: Sha256, prefix: string, rules: seq<Rule>, reject: bool, i: nat, acl: Acl)
    requires Prefix(prefix) && i < |rules| && acl in AclsOf(sha, prefix, rules, reject) &&
               acl.name in AclNames(prefix, ViewOf(sha, rules[i], i))
    ensures acl in AclLines(prefix, ViewOf(sha, rules[i], i))
  {
    hide AclLines, ViewOf, AclsOf, Id, AclName, EncryptedName, KindsOf, AclNames, Prefix;
    var kind := NameKind(sha, prefix, rules[i], i, acl.name);
    NotEncrypted(prefix, Id(i), kind);
    LineOrigin(sha, prefix, rules, reject, acl);
    var j :| 0 <= j < |rules| && acl in AclLines(prefix, ViewOf(sha, rules[j], j));
    LinesAreNamed(sha, prefix, rules[j], j, acl);
    var other :| acl.name == AclName(prefix, Id(j), other);
    NamesApart(prefix, i, kind, j, other);
  }

  lemma NameKind(sha: Sha256, prefix: string, rule: Rule, i: nat, name: string) returns (kind: string)
    requires name in AclNames(prefix, ViewOf(sha, rule, i))
    ensures name == AclName(prefix, Id(i), kind)
  {
    hide Id, AclName, ListPath, ExitID;
    var view := ViewOf(sha, rule, i);
    var k :| 0 <= k < |AclNames(prefix, view)| && AclNames(prefix, view)[k] == name;
    kind := KindsOf(rule)[k];
  }

  /** The expression of the i-th use_backend line holds exactly when the i-th rule matches. */
  lemma UseHolds(sha: Sha256, re: Regexps, files: Files, prefix: string, rules: seq<Rule>, reject: bool, i: nat,
      host: string)
    requires Prefix(prefix) && i < |rules| && FilesHold(files, rules[i], i)
    ensures var acls, names := AclsOf(sha, prefix, rules, reject), AclNames(prefix, ViewOf(sha, rules[i], i));
            AnyHolds(re, files, acls, names, host) <==> Matched(re, rules[i], host)
  {
    hide AclLines, ViewOf, AclsOf, AclNames, AclHolds, Matched, FilesHold, Prefix;
    var acls, view := AclsOf(sha, prefix, rules, reject), ViewOf(sha, rules[i], i);
    LinesMeanRule(sha, re, files, prefix, rules[i], i, host);
    if AnyHolds(re, files, acls, AclNames(prefix, view), host) {
      var n :| n in AclNames(prefix, view) && NameHolds(re, files, acls, n, host);
      var acl :| acl in acls && acl.name == n && AclHolds(re, files, acl, host);
      OwnLinesOnly(sha, prefix, rules, reject, i, acl);
    }
    if AnyLine(re, files, AclLines(prefix, view), host) {
      var acl :| acl in AclLines(prefix, view) && AclHolds(re, files, acl, host);
      LinesAreNamed(sha, prefix, rules[i], i, acl);
      RuleLineIn(sha, prefix, rules, reject, i, acl);
      assert NameHolds(re, files, acls, acl.name, host);
    }
  }

  lemma DenyHolds(sha: Sha256, re: Regexps, files: Files, prefix: string, rules: seq<Rule>, host: string)
    requires Prefix(prefix)
    ensures NameHolds(re, files, AclsOf(sha, prefix, rules, true), EncryptedName(prefix), host) <==>
              Encrypted(ENCRYPTED_DNS, host)
  {
    hide AclLines, ViewOf, AllAcls, EncryptedAcls, AclHolds, Encrypted, AclName, EncryptedName, Prefix;
    var acls, own := AclsOf(sha, prefix, rules, true), EncryptedAcls(prefix, ENCRYPTED_DNS);
    EncryptedLines(re, files, prefix, ENCRYPTED_DNS, host);
    if AnyLine(re, files, own, host) {
      var acl :| acl in own && AclHolds(re, files, acl, host);
      EncryptedNamed(prefix, ENCRYPTED_DNS, acl);
      assert acl in acls;
    }
    if NameHolds(re, files, acls, EncryptedName(prefix), host) {
      var acl :| acl in acls && acl.name == EncryptedName(prefix) && AclHolds(re, files, acl, host);
      LineOrigin(sha, prefix, rules, true, acl);
      if acl !in own {
        var j :| 0 <= j < |rules| && acl in AclLines(prefix, ViewOf(sha, rules[j], j));
        LinesAreNamed(sha, prefix, rules[j], j, acl);
        var kind :| acl.name == AclName(prefix, Id(j), kind);
        NotEncrypted(prefix, Id(j), kind);
      }
    }
  }

  /** The exit of the first rule that HAProxy finds matching, else the fallback. */
  function FirstExit(re: Regexps, rules: seq<Rule>, fallback: string, host: string): string {
    match FirstMatched(re, rules, host)
    case Some(rule) => rule.exit
    case None => fallback
  }

  lemma {:induction false} FirstUseMeans(sha: Sha256, re: Regexps, files: Files, prefix: string, proto: string,
      rules: seq<Rule>, reject: bool,
                                         fallback: string, host: string, k: nat)
    requires Prefix(prefix) && k <= |rules| && forall i :: 0 <= i < |rules| ==> FilesHold(files, rules[i], i)
    ensures var f := FrontendOf(sha, prefix, proto, Views(sha, rules), reject, ExitID(sha, fallback));
            FirstUse(re, files, f.acls, f.uses[k..], f.fallback, host) ==
            proto + ExitID(sha, FirstExit(re, rules[k..], fallback, host))
    decreases |rules| - k
  {
    hide AllAcls, EncryptedAcls, AclNames, ViewOf, Matched, FilesHold, AnyHolds, ExitID, Prefix;
    var f := FrontendOf(sha, prefix, proto, Views(sha, rules), reject, ExitID(sha, fallback));
    if k == |rules| {
    } else {
      UseHolds(sha, re, files, prefix, rules, reject, k, host);
      UseAt(sha, prefix, proto, rules, reject, fallback, k);
      FirstUseMeans(sha, re, files, prefix, proto, rules, reject, fallback, host, k + 1);
      assert f.uses[k..][0] == f.uses[k] && f.uses[k..][1..] == f.uses[k + 1..];
      assert rules[k..][0] == rules[k] && rules[k..][1..] == rules[k + 1..];
    }
  }

  lemma UseAt(sha: Sha256, prefix: string, proto: string, rules: seq<Rule>, reject: bool, fallback: string, k: nat)
    requires k < |rules|
    ensures FrontendOf(sha, prefix, proto, Views(sha, rules), reject, fallback).uses[k] ==
            Use(proto + ExitID(sha, rules[k].exit), AclNames(prefix, ViewOf(sha, rules[k], k)))
  {
    hide ExitID, AclNames, AllAcls, EncryptedAcls;
    IdIsSafe(sha, rules[k].exit);
  }

  /** What a rendered frontend decides, in terms of the rules. */
  lemma DecisionMeans(sha: Sha256, re: Regexps, files: Files, prefix: string, proto: string, rules: seq<Rule>,
      reject: bool,
                      fallback: string, host: string)
    requires Prefix(prefix) && forall i :: 0 <= i < |rules| ==> FilesHold(files, rules[i], i)
    ensures Decide(re, files, FrontendOf(sha, prefix, proto, Views(sha, rules), reject, ExitID(sha, fallback)), host) ==
            if reject && Encrypted(ENCRYPTED_DNS, host) then Deny
                else Backend(proto + ExitID(sha, FirstExit(re, rules, fallback, host)))
  {
    hide AllAcls, EncryptedAcls, AclNames, ViewOf, FilesHold, ExitID, FirstExit, FirstUse, NameHolds, Encrypted, Prefix;
    var f := FrontendOf(sha, prefix, proto, Views(sha, rules), reject, ExitID(sha, fallback));
    FirstUseMeans(sha, re, files, prefix, proto, rules, reject, fallback, host, 0);
    assert f.uses[0..] == f.uses && rules[0..] == rules;
    DenyHolds(sha, re, files, prefix, rules, host);
  }

  // ---------------------------------------------------------------- agreement with the gateway's own choice

  /** Nothing that the index trims: HAProxy gets the values of the rules as they are written. */
  predicate Plain(value: string) {
    NoEdge(value, SPACES) && NoEdge(value, DOT)
  }

  ghost predicate PlainRule(rule: Rule) {
    forall v :: v in rule.domain || v in rule.domainSuffix ==> Plain(v)
  }

  lemma PlainIff(value: string)
    ensures Plain(value) <==> Norm(value) == Lower(value)
    ensures !Plain(value) ==> |Norm(value)| < |value|
    ensures Plain(value) ==> NormalForms(value)
  {
    hide Trim;
    TrimKeeps(value, SPACES);
    TrimKeeps(TrimSpace(value), DOT);
    assert |Norm(value)| == |Trim(TrimSpace(value), DOT)| && |Lower(value)| == |value|;
  }

  /** All normalisers leave such a value alone, but for its case. */
  predicate NormalForms(value: string) {
    && Canonical(value) && CanonicalSuffix(value) && DropLastDot(value) == value
    && SuffixOf(value) == Lower(value) && SmartDns.NormalizeDomain(value) == Lower(value)
  }

  /**
    An exact value means the same in its pattern file and in the index, on every canonical host, exactly when it is
    plain, or is normalised to something with a space at an end, which neither finds in any canonical host.
    */
  lemma ExactPatternAgreesIff(value: string)
    requires Norm(value) != ""
    ensures (forall h :: Norm(h) == h ==> (h == Lower(value) <==> IndexedExact(value, h)))
            <==> Plain(value) || !NoEdge(Norm(value), SPACES)
  {
    hide Norm, Plain, NoEdge;
    PlainIff(value);
    if NoEdge(Norm(value), SPACES) {
      NormIsCanonical(value);
      assert IndexedExact(value, Norm(value));
    } else {
      forall h | Norm(h) == h ensures h != Lower(value) && h != Norm(value) {
        EdgeNeverCanonical(value, h);
      }
    }
  }

  lemma EdgeNeverCanonical(value: string, host: string)
    requires Norm(host) == host && !NoEdge(Norm(value), SPACES)
    ensures host != Lower(value) && host != Norm(value) && NoEdge(host, SPACES)
  {
    hide Norm, NoEdge;
    HostIsPlain(host);
    PlainIff(value);
    LowerKeepsEdges(value);
  }

  lemma HostIsPlain(host: string)
    requires Norm(host) == host
    ensures Plain(host) && Lower(host) == host
  {
    hide NoEdge, Trim;
    LowerIdempotent(Trim(TrimSpace(host), DOT));
    PlainIff(host);
  }

  /** The same for a suffix value and its two pattern files; there only a space behind makes both miss every host. */
  lemma SuffixPatternAgreesIff(value: string)
    requires Norm(value) != ""
    ensures (forall h :: Norm(h) == h ==>
              (h == Lower(value) || HasSuffix(h, "." + Lower(value)) <==> IndexedSuffix(value, h)))
            <==> Plain(value) || Norm(value)[|Norm(value)| - 1] in SPACES
  {
    hide Norm, Plain, NoEdge, Labels, HasSuffix;
    PlainIff(value);
    var own := Norm(value);
    forall h ensures IndexedSuffix(value, h) <==> h == own || HasSuffix(h, "." + own) {
      LabelPrefixIsSuffix(h, own);
    }
    if own[|own| - 1] in SPACES {
      forall h | Norm(h) == h
        ensures !(h == Lower(value) || HasSuffix(h, "." + Lower(value))) && !IndexedSuffix(value, h)
      {
        SpaceBehindNeverFound(value, h);
      }
    } else {
      BelowIsHost(value, 'a');
      BelowIsHost(value, 'b');
      var a, b := Below(own, 'a'), Below(own, 'b');
      assert IndexedSuffix(value, a) && IndexedSuffix(value, b);
      assert a[0] != b[0];
    }
  }

  lemma SpaceBehindNeverFound(value: string, host: string)
    requires Norm(host) == host && Norm(value) != "" && Norm(value)[|Norm(value)| - 1] in SPACES
    ensures !(host == Lower(value) || HasSuffix(host, "." + Lower(value))) &&
              !(host == Norm(value) || HasSuffix(host, "." + Norm(value)))
  {
    hide Norm;
    HostIsPlain(host);
    SpaceBehind(value);
    LastOfSuffix(host, Lower(value));
    LastOfSuffix(host, Norm(value));
  }

  lemma LastOfSuffix(host: string, tail: string)
    requires tail != ""
    ensures host == tail || HasSuffix(host, "." + tail) ==> host != "" && host[|host| - 1] == tail[|tail| - 1]
  {
  }

  /** What is normalised to something with a space behind ends in a dot or a space itself. */
  lemma SpaceBehind(value: string)
    requires Norm(value) != "" && Norm(value)[|Norm(value)| - 1] in SPACES
    ensures value != "" && Lower(value)[|value| - 1] in SPACES + DOT
  {
    var inner := TrimSpace(value);
    TrimKeeps(value, SPACES);
    TrimKeeps(inner, DOT);
    var t := Trim(inner, DOT);
    assert Norm(value)[|t| - 1] == LowerChar(t[|t| - 1]);
  }

  lemma BelowIsHost(value: string, c: char)
    requires Norm(value) != "" && Norm(value)[|Norm(value)| - 1] !in SPACES && (c == 'a' || c == 'b')
    ensures var host := Below(Norm(value), c); Norm(host) == host && HasSuffix(host, "." + Norm(value))
    ensures |value| > |Norm(value)| ==> !HasSuffix(Below(Norm(value), c), "." + Lower(value))
  {
    hide Norm, HasSuffix;
    NormEdges(value);
    BelowShape(Norm(value), c);
    var host := Below(Norm(value), c);
    PlainIff(host);
    if |value| > |Norm(value)| {
      NothingLongerBelow(Norm(value), c, Lower(value));
    }
  }

  /** For a list of one rule, both sides send a host to different exits exactly when only one of them matches. */
  lemma OneRule(re: Regexps, cfg: Config.Config, rule: Rule, h: string)
    requires Norm(h) == h
    ensures FirstExit(re, [rule], cfg.fallbackExit, h) == if Matched(re, rule, h) then rule.exit else cfg.fallbackExit
    ensures Chosen(re, cfg, [rule], h) == if Indexes(re, rule, h) then rule.exit else cfg.fallbackExit
  {
    hide Norm, Matched, Indexes;
    assert FirstMatched(re, [rule][1..], h) == None;
    assert FirstIndexed(re, [rule][1..], h) == None;
  }

  /**
    For a list of one exact value with its own exit: HAProxy and the gateway send every canonical host the same way
    exactly when the value is plain, or is normalised to something with a space at an end.
    */
  lemma OneValueAgreesIff(re: Regexps, cfg: Config.Config, rule: Rule, value: string)
    requires Norm(value) != "" && rule.exit != cfg.fallbackExit
    requires rule.domain == [value] && rule.domainSuffix == [] && rule.domainKeyword == [] && rule.domainRegex == []
    ensures (forall h :: Norm(h) == h ==> FirstExit(re, [rule], cfg.fallbackExit, h) == Chosen(re, cfg, [rule], h))
            <==> Plain(value) || !NoEdge(Norm(value), SPACES)
  {
    hide Norm, Plain, NoEdge;
    ExactPatternAgreesIff(value);
    forall h | Norm(h) == h
      ensures Matched(re, rule, h) <==> h == Lower(value)
      ensures Indexes(re, rule, h) <==> IndexedExact(value, h)
    {
      assert value in rule.domain;
      assert Keys(rule.domain) == {Norm(value)};
    }
    forall h | Norm(h) == h
      ensures FirstExit(re, [rule], cfg.fallbackExit, h) == Chosen(re, cfg, [rule], h) <==>
                (h == Lower(value) <==> IndexedExact(value, h))
    {
      OneRule(re, cfg, rule, h);
    }
  }

  /** The same for a list of one suffix, where the exception is a space behind. */
  lemma OneSuffixAgreesIff(re: Regexps, cfg: Config.Config, rule: Rule, value: string)
    requires Norm(value) != "" && rule.exit != cfg.fallbackExit
    requires rule.domain == [] && rule.domainSuffix == [value] && rule.domainKeyword == [] && rule.domainRegex == []
    ensures (forall h :: Norm(h) == h ==> FirstExit(re, [rule], cfg.fallbackExit, h) == Chosen(re, cfg, [rule], h))
            <==> Plain(value) || Norm(value)[|Norm(value)| - 1] in SPACES
  {
    hide Norm, Plain, HasSuffix, Labels;
    SuffixPatternAgreesIff(value);
    forall h | Norm(h) == h
      ensures FirstExit(re, [rule], cfg.fallbackExit, h) == Chosen(re, cfg, [rule], h) <==>
              (h == Lower(value) || HasSuffix(h, "." + Lower(value)) <==> IndexedSuffix(value, h))
    {
      OneRule(re, cfg, rule, h);
      OneSuffixMatches(re, rule, value, h);
    }
  }

  lemma OneSuffixMatches(re: Regexps, rule: Rule, value: string, host: string)
    requires rule.domain == [] && rule.domainSuffix == [value] && rule.domainKeyword == [] && rule.domainRegex == []
    requires Norm(value) != ""
    ensures Matched(re, rule, host) <==> host == Lower(value) || HasSuffix(host, "." + Lower(value))
    ensures Indexes(re, rule, host) <==> IndexedSuffix(value, host)
  {
    hide Norm, HasSuffix, Labels;
    assert value in rule.domainSuffix;
    var path := SuffixTrie.HostPath(Norm(value));
    assert Paths(rule.domainSuffix) == {path};
    assert HasPrefix({path}, SuffixTrie.HostPath(host)) <==> path <= SuffixTrie.HostPath(host);
    if host == "" {
      LabelPrefixIsSuffix(host, Norm(value));
      NoSuffixOfNothing("." + Norm(value));
    }
  }

  lemma NoSuffixOfNothing(tail: string)
    requires tail != ""
    ensures !HasSuffix("", tail)
  {
  }

  /** A value with a trailing dot, say: its pattern never matches the host that the index has for it. */
  lemma TrailingDotMissed()
    ensures !Plain("a.") && Norm("a.") == "a" && Lower("a.") != "a"
  {
    TrimKeeps("a.", SPACES);
    assert TrimLeft("a.", DOT) == "a." && TrimRight("a.", DOT) == TrimRight("a", DOT) == "a" by {
      assert "a."[..1] == "a";
    }
  }

  lemma MatchedIsSimple(re: Regexps, rule: Rule, host: string)
    requires PlainRule(rule) && Lower(host) == host
    ensures Matched(re, rule, host) <==> MatchesRule(re, rule, host) && CanonicalRule(rule)
  {
    hide Norm, Canonical, CanonicalSuffix, Plain, HasSuffix, Contains, Lower, DropLastDot;
    forall v | v in rule.domain || v in rule.domainSuffix ensures NormalForms(v) {
      PlainIff(v);
    }
    assert forall v :: v in rule.domain ==> (MatchesExact(v, host) <==> host == Lower(v));
    assert forall v :: v in rule.domainSuffix ==>
        (MatchesSuffix(v, host) <==> host == Lower(v) || HasSuffix(host, "." + Lower(v)));
  }

  lemma {:induction false} NoPlanErrors(norm: seq<Rule>, rule: Rule)
    requires SmartDns.FirstError(norm) == None && rule in norm
    ensures SmartDns.Representable(rule) && !SmartDns.Mentions(rule, "")
  {
    hide SmartDns.Mentions, SmartDns.Representable;
    if rule == norm[0] {
    } else {
      NoPlanErrors(norm[1..], rule);
    }
  }

  /** What SmartDNS could plan, the index can compile. */
  lemma NoCompileError(re: Regexps, rule: Rule)
    requires PlainRule(rule) && SmartDns.Representable(rule) && !SmartDns.Mentions(rule, "")
    ensures RuleError(re, rule) == None
  {
    hide Norm, Plain, SmartDns.NormalizeDomain;
    forall v | v in rule.domain || v in rule.domainSuffix ensures Norm(v) != "" {
      PlainIff(v);
      assert v in rule.domain + rule.domainSuffix;
    }
  }

  lemma {:induction false} AgreesWithIndex(re: Regexps, rules: seq<Rule>, host: string)
    requires Norm(host) == host && forall rule :: rule in rules ==> PlainRule(rule) && RuleError(re, rule) == None
    ensures FirstError(re, rules) == None && FirstMatched(re, rules, host) == FirstIndexed(re, rules, host)
  {
    hide Norm, Matched, Indexes, RuleError, PlainRule;
    if rules == [] {
    } else {
      AgreesWithIndex(re, rules[1..], host);
      RuleAgreesWithIndex(re, rules[0], host);
    }
  }

  lemma RuleAgreesWithIndex(re: Regexps, rule: Rule, host: string)
    requires Norm(host) == host && PlainRule(rule) && RuleError(re, rule) == None
    ensures Matched(re, rule, host) <==> Indexes(re, rule, host)
  {
    hide Matched, Indexes, RuleError, Trim, DropLastDot, MatchesRule, CanonicalRule, NoEdge;
    LowerIdempotent(Trim(TrimSpace(host), DOT));
    PlainIff(host);
    NormalisersAgreeIff(host);
    forall v | v in rule.domain || v in rule.domainSuffix ensures NormalForms(v) {
      PlainIff(v);
    }
    PlainIsCanonical(rule);
    MatchedIsSimple(re, rule, host);
    RuleAgrees(re, rule, host);
  }

  lemma PlainIsCanonical(rule: Rule)
    requires PlainRule(rule)
    ensures CanonicalRule(rule)
  {
    hide Plain, Canonical, CanonicalSuffix;
    forall v | v in rule.domain || v in rule.domainSuffix ensures NormalForms(v) {
      PlainIff(v);
    }
  }

  /**
    For every generated configuration whose rules are plain and every canonical host without a port: unless
    the host is denied as an encrypted DNS server, both frontends name the exit that the gateway picks.
    */
  lemma DecisionAgrees(sha: Sha256, re: Regexps, cfg: Config.Config, norm: seq<Rule>, g: Generated, host: string)
    requires Rendered(sha, cfg, norm, g) && SmartDns.FirstError(norm) == None && Norm(host) == host
    requires forall rule :: rule in GatewayRules(norm) ==> PlainRule(rule)
    ensures FirstError(re, GatewayRules(norm)) == None
    ensures var id := ExitID(sha, Chosen(re, cfg, GatewayRules(norm), host));
            var denied := cfg.network.encryptedDnsPolicy == "reject" &&
                          IsOrBelow(host, {"cloudflare-dns.com", "dns.google", "dns.google.com", "dns.quad9.net",
                                           "dns.adguard-dns.com", "dns.nextdns.io", "one.one.one.one",
                                           "1dot1dot1dot1.cloudflare-dns.com"});
            && Decide(re, g.files, g.http, host) == (if denied then Deny else Backend("http_" + id))
            && Decide(re, g.files, g.tls, host) == (if denied then Deny else Backend("tls_" + id))
  {
    hide Norm, ExitID, PlainRule, FrontendOf, Encrypted, IsOrBelow, Decide, FirstMatched, FirstIndexed, FirstError,
        SmartDns.FirstError;
    EncryptedIff(host);
    var rules := GatewayRules(norm);
    forall rule | rule in rules ensures RuleError(re, rule) == None {
      NoPlanErrors(norm, rule);
      NoCompileError(re, rule);
    }
    AgreesWithIndex(re, rules, host);
    DecisionMeans(sha, re, g.files, "host", "http_", rules, Rejects(cfg), cfg.fallbackExit, host);
    DecisionMeans(sha, re, g.files, "sni", "tls_", rules, Rejects(cfg), cfg.fallbackExit, host);
  }

  datatype GenerateError = BadExit(exit: ExitError) | BadPlan(plan: SmartDns.PlanError)

  /** The parts of GenerateAt that can fail, and the HAProxy configuration. */
  method GenerateAt(sha: Sha256, cfg: Config.Config, norm: seq<Rule>)
      returns (r: Result<(Generated, SmartDns.Output), GenerateError>)
    ensures r.Success? ==>
              ExitsValid(cfg, norm) && SmartDns.FirstError(norm) == None && Rendered(sha, cfg, norm, r.value.0)
    ensures r.Success? ==> SmartDns.FilesFollow(norm, r.value.1.files, SmartDns.KeysApart(norm))
    ensures !ExitsValid(cfg, norm) <==> r.Failure? && r.error.BadExit?
    ensures ExitsValid(cfg, norm) && SmartDns.KeysApart(norm) && SmartDns.FirstError(norm) == None ==>
              (r.Success? <==> forall e :: SmartDns.ForPool(norm, e) ==> e.pool in cfg.PoolNames())
  {
    hide Rendered, ExitsValid, SmartDns.FirstError, SmartDns.KeysApart, SmartDns.FilesFollow;
    var exitError := ValidateExits(cfg, norm);
    if exitError.Some? {
      return Failure(BadExit(exitError.value));
    }
    var dns := SmartDns.GenerateAt(cfg, norm);
    if dns.Failure? {
      return Failure(BadPlan(dns.error));
    }
    var g := HAProxyAt(sha, cfg, norm);
    r := Success((g, dns.value));
  }

  /** One configuration, generated for HAProxy and compiled for the gateway: one exit for every host. */
  method RouteBothWays(sha: Sha256, re: Regexps, cfg: Config.Config, norm: seq<Rule>, host: string)
    returns (generated: bool, exit: Option<Config.Exit>, http: Decision, tls: Decision)
    requires Norm(host) == host && forall rule :: rule in GatewayRules(norm) ==> PlainRule(rule)
    ensures generated ==> ExitsValid(cfg, norm) && SmartDns.FirstError(norm) == None
    ensures ExitsValid(cfg, norm) && SmartDns.KeysApart(norm) && SmartDns.FirstError(norm) == None ==>
              (generated <==> forall e :: SmartDns.ForPool(norm, e) ==> e.pool in cfg.PoolNames())
    ensures generated ==> exit.Some? && exit.value in cfg.exits && CarriesTCP(exit.value)
    ensures generated ==>
              var id := ExitID(sha, exit.value.name);
              if cfg.network.encryptedDnsPolicy == "reject" &&
                 IsOrBelow(host, {"cloudflare-dns.com", "dns.google", "dns.google.com", "dns.quad9.net",
                                  "dns.adguard-dns.com", "dns.nextdns.io", "one.one.one.one",
                                  "1dot1dot1dot1.cloudflare-dns.com"})
              then http == tls == Deny
              else http == Backend("http_" + id) && tls == Backend("tls_" + id)
  {
    hide Norm, ExitID, PlainRule, Rendered, IsOrBelow, Decide, FirstIndexed, FirstError, SmartDns.FirstError, Chosen,
        ExitsValid, Compiled.Valid, SmartDns.KeysApart, SmartDns.ForPool, SmartDns.FilesFollow;
    exit, http, tls := None, Deny, Deny;
    var g := GenerateAt(sha, cfg, norm);
    generated := g.Success?;
    if generated {
      DecisionAgrees(sha, re, cfg, norm, g.value.0, host);
      ValidExitsServeEveryHost(re, cfg, norm, host);
      var compiled := Compile(re, norm);
      var selected := SelectTCPExit(re, cfg, compiled.value, host);
      exit := Some(selected.value.0);
      http, tls := Decide(re, g.value.0.files, g.value.0.http, host), Decide(re, g.value.0.files, g.value.0.tls, host);
    }
  }
}
