/** The exit that the gateway's own TCP path picks for a host, and the check that made sure it can. */
module ExitSelection {
  import opened Text
  import opened Rules
  import opened Hosts
  import opened CompiledRules
  import opened Config

  datatype ExitError = UnknownExit(name: string) | TCPDisabled(name: string)

  predicate CarriesTCP(exit: Exit) {
    exit.kind == "shadowsocks-rust" ==> exit.TCPEnabled()
  }

  predicate Usable(cfg: Config, name: string) {
    cfg.ExitByName(name).Some? && CarriesTCP(cfg.ExitByName(name).value)
  }

  /** The exit named for a host: by the first gateway rule that the index finds, else the fallback. */
  ghost function Chosen(re: Regexps, cfg: Config, rules: seq<Rule>, host: string): string {
    match FirstIndexed(re, rules, Norm(host))
    case Some(rule) => rule.exit
    case None => cfg.fallbackExit
  }

  /** The first exit of that name is there, and unless it is a Shadowsocks exit without TCP it is usable. */
  lemma UsableIff(cfg: Config, name: string)
    ensures Usable(cfg, name) <==>
            exists i :: 0 <= i < |cfg.exits| && FirstNamed(cfg.exits, name, i) &&
                        (cfg.exits[i].kind != "shadowsocks-rust" || cfg.exits[i].tcp != Some(false))
  {
    hide FindExit;
    var at := FindExitMeans(cfg.exits, name);
    assert at < |cfg.exits| ==> FirstNamed(cfg.exits, name, at);
    assert forall i :: 0 <= i < |cfg.exits| && FirstNamed(cfg.exits, name, i) ==> i == at;
  }

  ghost predicate FirstNamed(exits: seq<Exit>, name: string, i: nat)
    requires i < |exits|
  {
    exits[i].name == name && forall j :: 0 <= j < i ==> exits[j].name != name
  }

  lemma {:induction false} FindExitMeans(exits: seq<Exit>, name: string) returns (at: nat)
    ensures at <= |exits| && forall j :: 0 <= j < at ==> exits[j].name != name
    ensures at < |exits| ==> exits[at].name == name && FindExit(exits, name) == Some(exits[at])
    ensures at == |exits| ==> FindExit(exits, name) == None
  {
    if exits == [] || exits[0].name == name {
      at := 0;
    } else {
      at := FindExitMeans(exits[1..], name);
      at := at + 1;
      assert forall j :: 0 < j < |exits| ==> exits[1..][j - 1] == exits[j];
    }
  }

  /** What is wrong with a name that is not usable. */
  function ExitProblem(cfg: Config, name: string): ExitError {
    if cfg.ExitByName(name).None? then UnknownExit(name) else TCPDisabled(name)
  }

  /** validateTCPExit. */
  method ValidateTCPExit(cfg: Config, name: string) returns (error: Option<ExitError>)
    ensures error == if Usable(cfg, name) then None else Some(ExitProblem(cfg, name))
  {
    var exit := cfg.ExitByName(name);
    if exit.None? {
      return Some(UnknownExit(name));
    }
    if exit.value.kind == "shadowsocks-rust" && !exit.value.TCPEnabled() {
      return Some(TCPDisabled(name));
    }
    error := None;
  }

  /** Every exit that a host can be sent to is there and carries TCP. */
  ghost predicate ExitsValid(cfg: Config, norm: seq<Rule>) {
    Usable(cfg, cfg.fallbackExit) && forall rule :: rule in GatewayRules(norm) ==> Usable(cfg, rule.exit)
  }

  /** validateExits. */
  method ValidateExits(cfg: Config, norm: seq<Rule>) returns (error: Option<ExitError>)
    ensures error.None? <==> ExitsValid(cfg, norm)
  {
    hide Usable;
    error := ValidateTCPExit(cfg, cfg.fallbackExit);
    if error.Some? {
      return;
    }
    var rules := GatewayRules(norm);
    for n := 0 to |rules|
      invariant forall i :: 0 <= i < n ==> Usable(cfg, rules[i].exit)
    {
      error := ValidateTCPExit(cfg, rules[n].exit);
      if error.Some? {
        assert rules[n] in rules;
        return;
      }
    }
    error := None;
  }

  /** selectTCPExit. */
  method SelectTCPExit(re: Regexps, cfg: Config, compiled: Compiled, host: string)
      returns (r: Result<(Exit, bool), ExitError>)
    requires compiled.Valid()
    ensures r.Success? <==> Usable(cfg, Chosen(re, cfg, compiled.rules, host))
    ensures r.Failure? ==> r.error == ExitProblem(cfg, Chosen(re, cfg, compiled.rules, host))
    ensures r.Success? ==> cfg.ExitByName(Chosen(re, cfg, compiled.rules, host)) == Some(r.value.0)
    ensures r.Success? ==> r.value.1 == FirstIndexed(re, compiled.rules, Norm(host)).Some?
  {
    hide Norm, FirstIndexed;
    var rule := compiled.MatchGatewayDomain(re, host);
    if rule.Some? {
      var exit := cfg.ExitByName(rule.value.exit);
      if exit.None? {
        return Failure(UnknownExit(rule.value.exit));
      }
      if exit.value.kind == "shadowsocks-rust" && !exit.value.TCPEnabled() {
        return Failure(TCPDisabled(exit.value.name));
      }
      return Success((exit.value, true));
    }
    var exit := cfg.ExitByName(cfg.fallbackExit);
    if exit.None? {
      return Failure(UnknownExit(cfg.fallbackExit));
    }
    if exit.value.kind == "shadowsocks-rust" && !exit.value.TCPEnabled() {
      return Failure(TCPDisabled(exit.value.name));
    }
    r := Success((exit.value, false));
  }

  lemma {:induction false} FoundInRules(re: Regexps, rules: seq<Rule>, host: string)
    ensures FirstIndexed(re, rules, host).Some? ==> FirstIndexed(re, rules, host).value in rules
  {
    hide Indexes;
    if rules == [] {
    } else {
      FoundInRules(re, rules[1..], host);
    }
  }

  /** Once the exits are valid, no host is without one. */
  lemma ValidExitsServeEveryHost(re: Regexps, cfg: Config, norm: seq<Rule>, host: string)
    requires ExitsValid(cfg, norm)
    ensures Usable(cfg, Chosen(re, cfg, GatewayRules(norm), host))
  {
    hide Norm, FirstIndexed, Usable;
    FoundInRules(re, GatewayRules(norm), Norm(host));
  }
}
