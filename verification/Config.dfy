/** The configuration and its defaults, with the migrations of the domestic DNS upstreams. */
module Config {
  import opened Text

  datatype System = System(configDir: string, stateDir: string, runDir: string, user: string)

  datatype Panel = Panel(listen: string, allowedCidrs: seq<string>)

  datatype Network = Network(
    gatewayIp: string, internalCidr: string, ingressIface: string,
    httpPort: int, httpsPort: int, quicPort: int, tcpPort: int,
    maxConnections: Option<int>, quicPolicy: string, encryptedDnsPolicy: string)

  datatype Pool = Pool(name: string, probeDomain: string, upstreams: seq<string>)

  datatype Dns = Dns(
    binary: string, dotDomain: string, listenUdp: string, listenTcp: string, listenDot: string, listenPublicDot: string,
    backendResolvers: seq<string>, certDir: string, certFile: string, keyFile: string, cacheSize: int,
    upstreamsCn: seq<string>, upstreamsPrivate: seq<string>, upstreamsPublic: seq<string>,
        customPools: Option<seq<Pool>>)

  datatype Logging = Logging(level: string, access: Option<bool>)

  datatype Ios = Ios(enabled: bool, listen: string, baseUrl: string, organization: string, profileIdentifier: string)

  datatype Exit = Exit(
    name: string, kind: string, fwmark: int, server: string, serverPort: int, cipher: string, password: string,
    username: string, listenAddress: string, listenPort: int, tcp: Option<bool>, udp: Option<bool>, timeoutSeconds: int)
  {
    predicate TCPEnabled() { tcp.None? || tcp.value }
  }

  datatype Config = Config(
    system: System, panel: Panel, network: Network, fallbackExit: string, dns: Dns, logging: Logging, ios: Ios,
        exits: seq<Exit>)
  {
    /** ExitByName. */
    function ExitByName(name: string): Option<Exit> { FindExit(exits, name) }

    /** The pool names of DNSConfig.Pools: the built-in ones first. */
    function PoolNames(): seq<string> {
      ["cn", "overseas_private", "overseas_public"] + if dns.customPools.None? then []
          else NamesOf(dns.customPools.value)
    }
  }

  function FindExit(exits: seq<Exit>, name: string): (r: Option<Exit>)
    ensures r.Some? <==> exists e :: e in exits && e.name == name
    ensures r.Some? ==> r.value in exits && r.value.name == name
  {
    if exits == [] then None else if exits[0].name == name then Some(exits[0]) else FindExit(exits[1..], name)
  }

  function NamesOf(pools: seq<Pool>): seq<string> {
    seq(|pools|, i requires 0 <= i < |pools| => pools[i].name)
  }

  // ---------------------------------------------------------------- upstream lists

  const OLD_UPSTREAM := "tls://dot.pub"
  const NEW_UPSTREAM := "tls://1.12.12.12"

  const DEFAULT_CN: seq<string> := [
    "223.5.5.5", "223.6.6.6", "119.29.29.29", "180.76.76.76", "https://dns.alidns.com/dns-query",
        "tls://dns.alidns.com"]

  const LEGACY_SHORT: seq<string> := ["180.76.76.76", "101.226.4.6", "218.30.118.6"]

  const LEGACY_LONG: seq<string> := [
    "180.76.76.76", "101.226.4.6", "218.30.118.6", "114.114.114.114", "114.114.115.115", "117.50.10.10", "52.80.66.66"]

  const LEGACY_EXPANDED: seq<string> := [
    "180.76.76.76", "101.226.4.6", "218.30.118.6", "114.114.114.114", "114.114.115.115", "117.50.10.10", "52.80.66.66",
    "223.5.5.5", "223.6.6.6", "https://dns.alidns.com/dns-query", "tls://dns.alidns.com", "119.29.29.29",
    "https://doh.pub/dns-query", "tls://1.12.12.12", "180.184.1.1", "180.184.2.2", "https://doh.360.cn/dns-query",
    "tls://dot.360.cn", "https://doh-pure.onedns.net/dns-query", "tls://dot-pure.onedns.net", "1.2.4.8", "210.2.4.8"]

  /** usesLegacyCNUpstreams. */
  predicate UsesLegacy(values: seq<string>) {
    values == LEGACY_SHORT || values == LEGACY_LONG
  }

  /** The old entry becomes the new one, once, and only when the new one is not there yet. */
  function Migrated(values: seq<string>, present: bool): seq<string> {
    if values == [] then []
    else if values[0] != OLD_UPSTREAM then [values[0]] + Migrated(values[1..], present)
    else if present then Migrated(values[1..], true)
    else [NEW_UPSTREAM] + Migrated(values[1..], true)
  }

  /** migrateDOTPubUpstream. */
  function Migrate(values: seq<string>): seq<string> {
    Migrated(values, NEW_UPSTREAM in values)
  }

  method MigrateDOTPubUpstream(values: seq<string>) returns (out: seq<string>)
    ensures out == Migrate(values)
  {
    var present := NEW_UPSTREAM in values;
    out := [];
    for n := 0 to |values|
      invariant out + Migrated(values[n..], present) == Migrate(values)
    {
      if values[n] != OLD_UPSTREAM {
        out := out + [values[n]];
      } else if !present {
        out := out + [NEW_UPSTREAM];
        present := true;
      }
    }
  }

  /** The entries that the migration has nothing to do with, in their order. */
  function Others(values: seq<string>): seq<string> {
    if values == [] then []
    else if values[0] == OLD_UPSTREAM || values[0] == NEW_UPSTREAM then Others(values[1..])
    else [values[0]] + Others(values[1..])
  }

  /** One entry after the other is kept, unless it is the old one or its successor. */
  lemma {:induction false} OthersMean(front: seq<string>, value: string)
    ensures Others(front + [value]) ==
            Others(front) + if value in {"tls://dot.pub", "tls://1.12.12.12"} then [] else [value]
  {
    if front == [] {
      assert Others([value][1..]) == [];
    } else {
      OthersMean(front[1..], value);
      assert (front + [value])[1..] == front[1..] + [value];
    }
  }

  lemma {:induction false} MigratedMeaning(values: seq<string>, present: bool)
    ensures OLD_UPSTREAM !in Migrated(values, present)
    ensures Others(Migrated(values, present)) == Others(values)
    ensures NEW_UPSTREAM in Migrated(values, present) <==>
              NEW_UPSTREAM in values || (!present && OLD_UPSTREAM in values)
    ensures OLD_UPSTREAM !in values ==> Migrated(values, present) == values
  {
    if values == [] {
    } else {
      MigratedMeaning(values[1..], present);
      MigratedMeaning(values[1..], true);
    }
  }

  /**
    A migrated list holds the old entry nowhere, keeps the other entries in order, holds the new entry
    when it held either, is empty only when it was, and is migrated for good.
    */
  lemma MigrateMeaning(values: seq<string>)
    ensures OLD_UPSTREAM !in Migrate(values)
    ensures Others(Migrate(values)) == Others(values)
    ensures NEW_UPSTREAM in Migrate(values) <==> NEW_UPSTREAM in values || OLD_UPSTREAM in values
    ensures Migrate(values) == [] <==> values == []
    ensures Migrate(Migrate(values)) == Migrate(values)
  {
    MigratedMeaning(values, NEW_UPSTREAM in values);
    MigratedMeaning(Migrate(values), NEW_UPSTREAM in Migrate(values));
    if values != [] && values[0] == OLD_UPSTREAM && NEW_UPSTREAM !in values {
      assert OLD_UPSTREAM in values;
    }
  }

  /** The additions that are not in the list yet, each once. */
  function Missing(seen: set<string>, additions: seq<string>): seq<string>
    decreases |additions|
  {
    if additions == [] then []
    else if additions[0] in seen then Missing(seen, additions[1..])
    else [additions[0]] + Missing(seen + {additions[0]}, additions[1..])
  }

  function Members(values: seq<string>): set<string> {
    set v | v in values
  }

  method AppendMissing(values: seq<string>, additions: seq<string>) returns (out: seq<string>)
    ensures out == values + Missing(Members(values), additions)
  {
    out := values;
    var seen := {};
    for n := 0 to |values|
      invariant seen == Members(values[..n])
    {
      assert values[..n + 1] == values[..n] + [values[n]];
      seen := seen + {values[n]};
    }
    assert values[..|values|] == values;
    for n := 0 to |additions|
      invariant out + Missing(seen, additions[n..]) == values + Missing(Members(values), additions)
    {
      if additions[n] !in seen {
        out := out + [additions[n]];
        seen := seen + {additions[n]};
      }
    }
  }

  lemma {:induction false} MissingMeaning(seen: set<string>, additions: seq<string>)
    ensures forall v :: v in Missing(seen, additions) <==> v in additions && v !in seen
    ensures forall i, j :: 0 <= i < j < |Missing(seen, additions)| ==>
              Missing(seen, additions)[i] != Missing(seen, additions)[j]
    decreases |additions|
  {
    if additions == [] {
    } else {
      MissingMeaning(seen, additions[1..]);
      MissingMeaning(seen + {additions[0]}, additions[1..]);
    }
  }

  /** The domestic upstreams after ApplyDefaults. */
  function SettledCn(values: seq<string>): seq<string> {
    Migrate(if values == [] then DEFAULT_CN
            else if UsesLegacy(values) then values + Missing(Members(values), LEGACY_EXPANDED)
            else values)
  }

  lemma NoDots(values: seq<string>)
    requires OLD_UPSTREAM !in values
    ensures Migrate(values) == values
  {
    MigratedMeaning(values, NEW_UPSTREAM in values);
  }

  const ALI := "223.5.5.5"

  lemma ExpandedHasAli()
    ensures ALI in LEGACY_EXPANDED
  {
    assert LEGACY_EXPANDED[7] == ALI;
  }

  lemma LegacyLacksAli(values: seq<string>)
    requires UsesLegacy(values)
    ensures ALI !in values && OLD_UPSTREAM !in values
  {
    forall i | 0 <= i < |values| ensures values[i] != ALI && values[i] != OLD_UPSTREAM {
      assert values[i][0] == '1' || values[i][2] == '8' || values[i][0] == '5';
    }
  }

  lemma ExpandedLacksOld()
    ensures OLD_UPSTREAM !in LEGACY_EXPANDED
  {
    forall i | 0 <= i < |LEGACY_EXPANDED| ensures LEGACY_EXPANDED[i] != OLD_UPSTREAM {
    }
  }

  lemma AppendStays(values: seq<string>, additions: seq<string>)
    requires OLD_UPSTREAM !in values && OLD_UPSTREAM !in additions
    ensures Migrate(values + Missing(Members(values), additions)) == values + Missing(Members(values), additions)
    ensures forall v :: v in additions ==> v in values + Missing(Members(values), additions)
  {
    MissingMeaning(Members(values), additions);
    NoDots(values + Missing(Members(values), additions));
  }

  /** A legacy list migrated in full: its own entries first, then every other expanded one. */
  lemma LegacyExpands(values: seq<string>)
    requires UsesLegacy(values)
    ensures SettledCn(values) == values + Missing(Members(values), LEGACY_EXPANDED)
    ensures forall v :: v in LEGACY_EXPANDED ==> v in SettledCn(values)
    ensures !UsesLegacy(SettledCn(values))
  {
    hide Missing, Migrate, Members;
    LegacyLacksAli(values);
    ExpandedLacksOld();
    ExpandedHasAli();
    AppendStays(values, LEGACY_EXPANDED);
    assert values != [];
    if UsesLegacy(SettledCn(values)) {
      LegacyLacksAli(SettledCn(values));
    }
  }

  /** The migrated upstreams are never empty, never legacy again, never hold the old entry, and stay put. */
  lemma SettledForGood(values: seq<string>)
    ensures SettledCn(values) != [] && !UsesLegacy(SettledCn(values)) && OLD_UPSTREAM !in SettledCn(values)
    ensures values != [] && !UsesLegacy(values) ==> Others(SettledCn(values)) == Others(values)
    ensures SettledCn(SettledCn(values)) == SettledCn(values)
  {
    if values == [] {
      assert OLD_UPSTREAM !in DEFAULT_CN;
      NoDots(DEFAULT_CN);
    } else if UsesLegacy(values) {
      LegacyExpands(values);
      MigrateMeaning(values + Missing(Members(values), LEGACY_EXPANDED));
    } else {
      MigrateMeaning(values);
      if OLD_UPSTREAM in values {
        assert NEW_UPSTREAM !in LEGACY_LONG && NEW_UPSTREAM !in LEGACY_SHORT;
      } else {
        NoDots(values);
      }
    }
  }

  // ---------------------------------------------------------------- defaults

  function Or(value: string, default_: string): string {
    if value == "" then default_ else value
  }

  function OrPort(value: int, default_: int): int {
    if value == 0 then default_ else value
  }

  function OrList(value: seq<string>, default_: seq<string>): seq<string> {
    if value == [] then default_ else value
  }

  function DefaultSystem(s: System): System {
    System(Or(s.configDir, "/etc/5gws"), Or(s.stateDir, "/var/lib/5gws"), Or(s.runDir, "/run/5gws"), Or(s.user, "5gws"))
  }

  function DefaultPanel(p: Panel, cidr: string): Panel {
    Panel(Or(p.listen, "127.0.0.1:19443"),
          if p.allowedCidrs == [] && cidr != "" then ["127.0.0.0/8", "::1/128", cidr] else p.allowedCidrs)
  }

  function DefaultNetwork(n: Network): Network {
    n.(httpPort := OrPort(n.httpPort, 18080), httpsPort := OrPort(n.httpsPort, 18443),
       quicPort := OrPort(n.quicPort, 18443), tcpPort := OrPort(n.tcpPort, 18082),
       maxConnections := if n.maxConnections.None? then Some(16384) else n.maxConnections,
       quicPolicy := Or(n.quicPolicy, "reject"), encryptedDnsPolicy := Or(n.encryptedDnsPolicy, "reject"))
  }

  const DEFAULT_POOLS: seq<Pool> := [
    Pool("cn_netease", "music.163.com", ["117.50.10.10", "52.80.66.66", "210.2.4.8"]),
    Pool("cn_unicom", "img.client.10010.com", ["180.76.76.76", "1.2.4.8"])]

  function DefaultDns(d: Dns, s: System): Dns {
    d.(binary := Or(d.binary, "smartdns"),
       listenUdp := Or(d.listenUdp, "0.0.0.0:1053"), listenTcp := Or(d.listenTcp, "0.0.0.0:1053"),
       listenDot := Or(d.listenDot, "0.0.0.0:1853"), listenPublicDot := Or(d.listenPublicDot, "0.0.0.0:853"),
       backendResolvers := OrList(d.backendResolvers,
                                  ["1.1.1.1:53", "1.0.0.1:53", "8.8.8.8:53", "8.8.4.4:53", "9.9.9.9:53",
                                      "22.22.22.22:53"]),
       certDir := Or(d.certDir, s.stateDir + "/ios"),
       certFile := Or(d.certFile, s.configDir + "/certs/fullchain.pem"),
       keyFile := Or(d.keyFile, s.configDir + "/certs/privkey.pem"),
       cacheSize := OrPort(d.cacheSize, 8192),
       upstreamsCn := SettledCn(d.upstreamsCn),
       upstreamsPrivate := OrList(d.upstreamsPrivate, ["22.22.22.22"]),
       upstreamsPublic := OrList(d.upstreamsPublic,
                                 ["1.1.1.1", "8.8.8.8", "9.9.9.9", "https://cloudflare-dns.com/dns-query",
                                     "https://dns.quad9.net/dns-query"]),
       customPools := if d.customPools.None? then Some(DEFAULT_POOLS) else d.customPools)
  }

  function DefaultIos(i: Ios, gatewayIp: string, dotDomain: string): Ios {
    i.(baseUrl := if (i.baseUrl == "" || i.baseUrl == "http://" + gatewayIp + ":8088") && dotDomain != ""
                  then "https://" + dotDomain else i.baseUrl,
       organization := Or(i.organization, "5gws"), profileIdentifier := Or(i.profileIdentifier, "dev.5gws.dot"))
  }

  function DefaultExit(e: Exit): Exit {
    if e.kind != "shadowsocks-rust" then e
    else e.(cipher := Or(e.cipher, "2022-blake3-aes-128-gcm"), timeoutSeconds := OrPort(e.timeoutSeconds, 300))
  }

  function DefaultExits(exits: seq<Exit>): seq<Exit> {
    seq(|exits|, i requires 0 <= i < |exits| => DefaultExit(exits[i]))
  }

  /** Config.ApplyDefaults. */
  function ApplyDefaults(c: Config): Config {
    var s := DefaultSystem(c.system);
    Config(s, DefaultPanel(c.panel, c.network.internalCidr), DefaultNetwork(c.network), Or(c.fallbackExit, "direct"),
           DefaultDns(c.dns, s), c.logging.(level := Or(c.logging.level, "info")),
           DefaultIos(c.ios, c.network.gatewayIp, c.dns.dotDomain), DefaultExits(c.exits))
  }

  lemma DnsDefaultsIdempotent(d: Dns, s: System)
    requires s.stateDir != "" && s.configDir != ""
    ensures DefaultDns(DefaultDns(d, s), s) == DefaultDns(d, s)
  {
    hide SettledCn;
    SettledForGood(d.upstreamsCn);
  }

  lemma IosDefaultsIdempotent(i: Ios, gatewayIp: string, dotDomain: string)
    ensures DefaultIos(DefaultIos(i, gatewayIp, dotDomain), gatewayIp, dotDomain) == DefaultIos(i, gatewayIp, dotDomain)
  {
    assert ("https://" + dotDomain)[4] == 's';
    assert ("http://" + gatewayIp + ":8088")[4] == ':';
  }

  /** Config.ApplyDefaults is idempotent on every input. */
  lemma DefaultsIdempotent(c: Config)
    ensures ApplyDefaults(ApplyDefaults(c)) == ApplyDefaults(c)
  {
    hide DefaultDns, DefaultIos;
    var s := DefaultSystem(c.system);
    DnsDefaultsIdempotent(c.dns, s);
    IosDefaultsIdempotent(c.ios, c.network.gatewayIp, c.dns.dotDomain);
    DnsKeeps(c.dns, s);
    assert DefaultSystem(s) == s;
    assert DefaultExits(DefaultExits(c.exits)) == DefaultExits(c.exits);
    assert DefaultNetwork(DefaultNetwork(c.network)) == DefaultNetwork(c.network);
  }

  lemma DnsKeeps(d: Dns, s: System)
    ensures DefaultDns(d, s).dotDomain == d.dotDomain
    ensures DefaultDns(d, s).customPools.Some?
  {
  }

  // ---------------------------------------------------------------- what the defaults are

  /** A field that was unset takes its value, one that was set keeps it. */
  ghost predicate Fills<T(!new)>(before: T, unset: T, value: T, after: T) {
    (before == unset ==> after == value) && (before != unset ==> after == before)
  }

  lemma SystemAndPanelFilled(c: Config)
    ensures var d := ApplyDefaults(c);
            && Fills(c.system.configDir, "", "/etc/5gws", d.system.configDir)
            && Fills(c.system.stateDir, "", "/var/lib/5gws", d.system.stateDir)
            && Fills(c.system.runDir, "", "/run/5gws", d.system.runDir)
            && Fills(c.system.user, "", "5gws", d.system.user)
            && Fills(c.panel.listen, "", "127.0.0.1:19443", d.panel.listen)
            && (if c.network.internalCidr == "" then d.panel.allowedCidrs == c.panel.allowedCidrs
                else Fills(c.panel.allowedCidrs, [], ["127.0.0.0/8", "::1/128", c.network.internalCidr],
                           d.panel.allowedCidrs))
            && Fills(c.fallbackExit, "", "direct", d.fallbackExit)
            && Fills(c.logging.level, "", "info", d.logging.level)
            && d.logging.access == c.logging.access
  {
    hide DefaultDns, DefaultIos, DefaultNetwork;
  }

  lemma NetworkFilled(c: Config)
    ensures var n, d := c.network, ApplyDefaults(c).network;
            && Fills(n.httpPort, 0, 18080, d.httpPort) && Fills(n.httpsPort, 0, 18443, d.httpsPort)
            && Fills(n.quicPort, 0, 18443, d.quicPort) && Fills(n.tcpPort, 0, 18082, d.tcpPort)
            && Fills(n.maxConnections, None, Some(16384), d.maxConnections)
            && Fills(n.quicPolicy, "", "reject", d.quicPolicy)
            && Fills(n.encryptedDnsPolicy, "", "reject", d.encryptedDnsPolicy)
            && d.gatewayIp == n.gatewayIp && d.internalCidr == n.internalCidr && d.ingressIface == n.ingressIface
  {
    hide DefaultDns, DefaultIos, DefaultPanel;
  }

  lemma DnsFilled(c: Config)
    ensures var n, d, s := c.dns, ApplyDefaults(c).dns, ApplyDefaults(c).system;
            && Fills(n.binary, "", "smartdns", d.binary)
            && Fills(n.listenUdp, "", "0.0.0.0:1053", d.listenUdp)
            && Fills(n.listenTcp, "", "0.0.0.0:1053", d.listenTcp)
            && Fills(n.listenDot, "", "0.0.0.0:1853", d.listenDot)
            && Fills(n.listenPublicDot, "", "0.0.0.0:853", d.listenPublicDot)
            && Fills(n.backendResolvers, [],
                     ["1.1.1.1:53", "1.0.0.1:53", "8.8.8.8:53", "8.8.4.4:53", "9.9.9.9:53", "22.22.22.22:53"],
                     d.backendResolvers)
            && Fills(n.certDir, "", s.stateDir + "/ios", d.certDir)
            && Fills(n.certFile, "", s.configDir + "/certs/fullchain.pem", d.certFile)
            && Fills(n.keyFile, "", s.configDir + "/certs/privkey.pem", d.keyFile)
            && Fills(n.cacheSize, 0, 8192, d.cacheSize)
            && d.dotDomain == n.dotDomain
  {
    hide SettledCn, DefaultIos, DefaultPanel, DefaultNetwork;
  }

  lemma UpstreamsFilled(c: Config)
    ensures var n, d := c.dns, ApplyDefaults(c).dns;
            && (n.upstreamsCn == [] ==>
                  d.upstreamsCn == ["223.5.5.5", "223.6.6.6", "119.29.29.29", "180.76.76.76",
                                    "https://dns.alidns.com/dns-query", "tls://dns.alidns.com"])
            && d.upstreamsCn == SettledCn(n.upstreamsCn)
            && Fills(n.upstreamsPrivate, [], ["22.22.22.22"], d.upstreamsPrivate)
            && Fills(n.upstreamsPublic, [],
                     ["1.1.1.1", "8.8.8.8", "9.9.9.9", "https://cloudflare-dns.com/dns-query",
                      "https://dns.quad9.net/dns-query"], d.upstreamsPublic)
            && Fills(n.customPools, None,
                     Some([Pool("cn_netease", "music.163.com", ["117.50.10.10", "52.80.66.66", "210.2.4.8"]),
                           Pool("cn_unicom", "img.client.10010.com", ["180.76.76.76", "1.2.4.8"])]), d.customPools)
  {
    hide DefaultIos, DefaultPanel, DefaultNetwork, Migrate;
    NoDots(DEFAULT_CN);
  }

  /** The two lists of old, and what each becomes. */
  lemma LegacyLists(values: seq<string>)
    requires || values == ["180.76.76.76", "101.226.4.6", "218.30.118.6"]
             || values == ["180.76.76.76", "101.226.4.6", "218.30.118.6", "114.114.114.114", "114.114.115.115",
                           "117.50.10.10", "52.80.66.66"]
    ensures values <= SettledCn(values)
    ensures forall v :: v in SettledCn(values) <==>
              v in ["180.76.76.76", "101.226.4.6", "218.30.118.6", "114.114.114.114", "114.114.115.115",
                    "117.50.10.10", "52.80.66.66", "223.5.5.5", "223.6.6.6", "https://dns.alidns.com/dns-query",
                    "tls://dns.alidns.com", "119.29.29.29", "https://doh.pub/dns-query", "tls://1.12.12.12",
                    "180.184.1.1", "180.184.2.2", "https://doh.360.cn/dns-query", "tls://dot.360.cn",
                    "https://doh-pure.onedns.net/dns-query", "tls://dot-pure.onedns.net", "1.2.4.8", "210.2.4.8"]
  {
    hide Missing, Members, SettledCn;
    LegacyExpands(values);
    MissingMeaning(Members(values), LEGACY_EXPANDED);
    MembersMean(values);
    LegacyIsExpanded(values);
  }

  lemma MembersMean(values: seq<string>)
    ensures forall v :: v in Members(values) <==> v in values
  {
  }

  lemma LegacyIsExpanded(values: seq<string>)
    requires UsesLegacy(values)
    ensures forall v :: v in values ==> v in LEGACY_EXPANDED
  {
    assert LEGACY_SHORT == LEGACY_EXPANDED[..3] && LEGACY_LONG == LEGACY_EXPANDED[..7];
  }

  /** The upstream that went away gives its place to its successor. */
  lemma OldUpstreamReplaced(front: seq<string>, back: seq<string>)
    requires "tls://dot.pub" !in front + back && "tls://1.12.12.12" !in front + back
    ensures SettledCn(front + ["tls://dot.pub"] + back) == front + ["tls://1.12.12.12"] + back
  {
    var values := front + ["tls://dot.pub"] + back;
    assert values[|front|] == OLD_UPSTREAM;
    assert forall v :: v in values ==> v in front + back || v == OLD_UPSTREAM;
    assert OLD_UPSTREAM !in LEGACY_LONG && OLD_UPSTREAM !in LEGACY_SHORT;
    assert forall v :: v in front ==> v in front + back;
    assert forall v :: v in back ==> v in front + back;
    ReplacedAt(front, back);
  }

  lemma {:induction false} ReplacedAt(front: seq<string>, back: seq<string>)
    requires OLD_UPSTREAM !in front && OLD_UPSTREAM !in back
    ensures Migrated(front + [OLD_UPSTREAM] + back, false) == front + [NEW_UPSTREAM] + back
  {
    hide OLD_UPSTREAM, NEW_UPSTREAM;
    var values := front + [OLD_UPSTREAM] + back;
    if front == [] {
      MigratedMeaning(back, true);
      assert values[0] == OLD_UPSTREAM && values[1..] == back;
    } else {
      ReplacedAt(front[1..], back);
      assert values[0] == front[0] && values[1..] == front[1..] + [OLD_UPSTREAM] + back;
    }
  }

  /** The address of the profile is the DOT domain's unless another one was set; the old default counts as unset. */
  lemma IosFilled(c: Config)
    ensures var n, d := c.ios, ApplyDefaults(c).ios;
            && (n.baseUrl in {"", "http://" + c.network.gatewayIp + ":8088"} && c.dns.dotDomain != "" ==>
                  d.baseUrl == "https://" + c.dns.dotDomain)
            && (n.baseUrl !in {"", "http://" + c.network.gatewayIp + ":8088"} || c.dns.dotDomain == "" ==>
                  d.baseUrl == n.baseUrl)
            && Fills(n.organization, "", "5gws", d.organization)
            && Fills(n.profileIdentifier, "", "dev.5gws.dot", d.profileIdentifier)
            && d.enabled == n.enabled && d.listen == n.listen
  {
    hide DefaultDns, DefaultPanel, DefaultNetwork;
  }

  /** No exit is added, dropped or moved; only Shadowsocks ones change, in cipher and timeout alone. */
  lemma ExitsFilled(c: Config)
    ensures var d := ApplyDefaults(c).exits;
            && |d| == |c.exits|
            && forall i :: 0 <= i < |d| ==>
                 if c.exits[i].kind != "shadowsocks-rust" then d[i] == c.exits[i]
                 else
                   && Fills(c.exits[i].cipher, "", "2022-blake3-aes-128-gcm", d[i].cipher)
                   && Fills(c.exits[i].timeoutSeconds, 0, 300, d[i].timeoutSeconds)
                   && d[i] == c.exits[i].(cipher := d[i].cipher, timeoutSeconds := d[i].timeoutSeconds)
  {
    hide DefaultDns, DefaultIos, DefaultPanel, DefaultNetwork;
  }
}
