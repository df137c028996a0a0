/**
  The supervisor of the process groups. Processes and nftables loads belong to the outside world: each
  call on them succeeds, or fails without effect, as the world pleases. A revision directory is named
  by the revision's id. `groups` is a registry that the program itself does not keep: every group that ever had a
  process.
  */
module Supervisor {
  import opened Text
  import opened Bundles
  import opened World
  import Config

  datatype Fault = NftFailed | StartFailed | ShutdownTimeout | AlreadyRunning

  /** What a group consists of, a client for the exit at its place in the configuration. */
  datatype Process = SmartDns | HaProxy | Gateway | Client(exit: nat)

  /** What has to run for a configuration: the three, and one client for each Shadowsocks exit. */
  ghost function Needed(exits: seq<Config.Exit>): set<Process> {
    {SmartDns, HaProxy, Gateway} + set i | 0 <= i < |exits| && exits[i].kind == "shadowsocks-rust" :: Client(i)
  }

  class ProcessGroup {
    const root: nat
    const bundle: Bundle
    var live: set<Process>
    var stopped: bool    // the channel `stopped` is closed
    var exited: bool     // the channel `done` holds an error
    var ready: bool      // it answered its probes before anything ended

    constructor (root: nat, bundle: Bundle)
      ensures this.root == root && this.bundle == bundle && live == {} && !stopped && !exited && !ready
    {
      this.root, this.bundle := root, bundle;
      live, stopped, exited, ready := {}, false, false, false;
    }

    /** Every process that the configuration needs is alive, and nothing else. */
    ghost predicate Full()
      reads this
    {
      live == Needed(bundle.config.exits)
    }

    /** A group that was not stopped has lost nothing, or has said so. */
    ghost predicate Accounted()
      reads this
    {
      stopped || exited || Full()
    }

    /** Processes that end by themselves; the goroutine that waits for one says so unless the group was cancelled. */
    method LoseSome()
      modifies this`live, this`exited
      ensures live <= old(live) && (old(exited) ==> exited)
      ensures !stopped && live < old(live) ==> exited
      ensures stopped || live == old(live) ==> exited == old(exited)
    {
      var left: set<Process> := Any();
      if left < live {
        live := left;
        if !stopped {
          exited := true;
        }
      }
    }

    /** stopGroup: everything ends, or the wait times out with something still alive. */
    method StopGroup() returns (ok: bool)
      modifies this`live, this`stopped
      ensures stopped && exited == old(exited) && live <= old(live)
      ensures ok <==> live == {}
    {
      stopped := true;
      var left: set<Process> := Any();
      live := live * left;
      ok := live == {};
    }
  }

  /** managedCommands. */
  method ManagedCommands(exits: seq<Config.Exit>) returns (commands: seq<Process>)
    ensures |commands| >= 2 && commands[..2] == [SmartDns, HaProxy]
    ensures Started(commands) + {Gateway} == Needed(exits) && Gateway !in commands
    ensures forall i, j :: 0 <= i < j < |commands| ==> commands[i] != commands[j]
  {
    commands := [SmartDns, HaProxy];
    for i := 0 to |exits|
      invariant |commands| >= 2 && commands[..2] == [SmartDns, HaProxy] && Gateway !in commands
      invariant forall p :: p in commands <==> p in Needed(exits[..i]) - {Gateway}
      invariant forall j, k :: 0 <= j < k < |commands| ==> commands[j] != commands[k]
    {
      assert Client(i) !in Needed(exits[..i]) && Client(i) !in commands;
      ghost var before := commands;
      if exits[i].kind == "shadowsocks-rust" {
        commands := commands + [Client(i)];
        assert forall j :: 0 <= j < |before| ==> commands[j] == before[j] && before[j] in before;
      }
    }
    assert exits[..|exits|] == exits;
  }

  ghost function Started(commands: seq<Process>): set<Process> {
    set p | p in commands
  }

  lemma StartedOne(commands: seq<Process>, n: nat)
    requires n < |commands|
    ensures Started(commands[..n + 1]) == Started(commands[..n]) + {commands[n]}
  {
    assert commands[..n + 1] == commands[..n] + [commands[n]];
  }

  class Supervisor {
    var current: ProcessGroup?
    var fatal: bool            // the channel `fatal` holds an error
    var nft: Option<nat>       // the revision whose nftables rules are loaded
    var groups: set<ProcessGroup>
    var faults: nat            // how often a step of the outside world has failed

    /** A daemon starts without a group; the kernel keeps the rules that were loaded last. */
    constructor (nft: Option<nat>)
      ensures Valid() && current == null && !fatal && this.nft == nft && groups == {} && faults == 0
    {
      current, fatal, groups, faults := null, false, {}, 0;
      this.nft := nft;
    }

    /** Until a fatal error is reported, a current group is in charge. */
    ghost predicate Valid()
      reads this, groups
    {
      Consistent() && (!fatal && current != null ==> Running())
    }

    /** Until a fatal error is reported, only the current group has live processes; no loss goes unsaid. */
    ghost predicate Consistent()
      reads this, groups
    {
      && (current != null ==> current in groups)
      && (forall g :: g in groups ==> g.Accounted())
      && (!fatal ==> forall g :: g in groups && g.live != {} ==> g == current)
    }

    /** A group was stopped, and the wait for its end timed out. */
    ghost predicate Stuck()
      reads this, groups
    {
      exists g :: g in groups && g.stopped && g.live != {}
    }

    /** A group is in charge and the loaded rules are its own. */
    ghost predicate Running()
      reads this, current
    {
      current != null && !current.stopped && nft == Some(current.root)
    }

    /** The current group was started in full from this revision and was ready; any loss since is on its channel. */
    ghost predicate Serves(root: nat, bundle: Bundle)
      reads this, current
    {
      && Running() && current.root == root && current.bundle == bundle
      && current.ready && (current.Full() || current.exited)
    }

    /** reportFatal: a full channel already holds a fatal error. */
    method ReportFatal()
      modifies this`fatal
      ensures fatal
    {
      if !fatal {
        fatal := true;
      }
    }

    /** runCheck of `nft -f`. */
    method LoadNft(root: nat) returns (ok: bool)
      modifies this`nft, this`faults
      ensures nft == if ok then Some(root) else old(nft)
      ensures faults == old(faults) + if ok then 0 else 1
    {
      ok := *;
      if ok {
        nft := Some(root);
      } else {
        faults := faults + 1;
      }
    }

    /**
      startGroup: a complete group, or nothing of it left unless stopping it timed out. A process may end at any
      time; one that ends before the group is ready fails the start, one that ends later is on the group's channel.
      */
    method StartGroup(root: nat, bundle: Bundle) returns (group: ProcessGroup, error: Option<Fault>)
      modifies this`groups, this`faults
      ensures fresh(group) && groups == old(groups) + {group} && group.Accounted()
      ensures group.root == root && group.bundle == bundle
      ensures error.None? ==> group.ready && (group.Full() || group.exited) && !group.stopped
      ensures error.None? && !group.exited ==>
                forall p :: p in group.live <==>
                            || p in {SmartDns, HaProxy, Gateway}
                            || (p.Client? && p.exit < |bundle.config.exits| &&
                                bundle.config.exits[p.exit].kind == "shadowsocks-rust")
      ensures faults >= old(faults) && (error.Some? ==> faults > old(faults))
      ensures error.Some? ==> error.value in {StartFailed, ShutdownTimeout}
      ensures error == Some(StartFailed) ==> group.live == {}
      ensures error == Some(ShutdownTimeout) ==> group.stopped && group.live != {}
    {
      group := new ProcessGroup(root, bundle);
      var commands := ManagedCommands(bundle.config.exits);
      var failed := false;
      for n := 0 to |commands|
        invariant faults == old(faults) && groups == old(groups) && fresh(group) && !group.stopped && !failed
        invariant group.live == Started(commands[..n]) || group.exited
      {
        var started: bool := *;
        if !started {
          faults, failed := faults + 1, true;
          break;
        }
        StartedOne(commands, n);
        group.live := group.live + {commands[n]};
        group.LoseSome();
      }
      if !failed {
        assert commands[..|commands|] == commands;
        group.live := group.live + {Gateway};
        group.LoseSome();
        var answered: bool := *;
        group.ready := answered && !group.exited;
        if !answered || group.exited {
          faults, failed := faults + 1, true;
        }
      }
      groups := groups + {group};
      error := None;
      if failed {
        var stopped := group.StopGroup();
        error := Some(if stopped then StartFailed else ShutdownTimeout);
      } else {
        group.LoseSome();
      }
    }

    /** Supervisor.Start. */
    method Start(root: nat, bundle: Bundle) returns (error: Option<Fault>)
      requires Valid()
      modifies this
      ensures fatal == old(fatal) && nft == old(nft) && fresh(groups - old(groups))
      ensures error.None? <==> old(current) == null && current != null
      ensures error.None? ==> Consistent() && fresh(current) && current.root == root && current.bundle == bundle
      ensures error.None? ==> current.ready && (current.Full() || current.exited) && !current.stopped
      ensures error.Some? ==> current == old(current)
      ensures faults >= old(faults) && (error.Some? && old(current) == null ==> faults > old(faults))
    {
      if current != null {
        return Some(AlreadyRunning);
      }
      var group, fault := StartGroup(root, bundle);
      if fault.Some? {
        return fault;
      }
      current := group;
      error := None;
    }

    /** Supervisor.Boot. */
    method Boot(root: nat, bundle: Bundle) returns (error: Option<Fault>)
      requires Valid() && current == null
      modifies this
      ensures fatal == old(fatal) && fresh(groups - old(groups))
      ensures error.None? ==> Valid() && Serves(root, bundle) && fresh(current)
      ensures error.Some? ==> current == null
      ensures error.Some? ==> faults > old(faults)
    {
      var loaded := LoadNft(root);
      if !loaded {
        return Some(NftFailed);
      }
      error := Start(root, bundle);
    }

    /**
      Supervisor.Apply. Started from a running group, it leaves a group started in full whose rules are loaded,
      the new one or on error the old one again, or a fatal error is pending.
      */
    method Apply(root: nat, bundle: Bundle) returns (error: Option<Fault>)
      requires Valid()
      modifies this, groups
      ensures Valid() && fresh(groups - old(groups)) && old(groups) <= groups
      ensures old(fatal) ==> fatal
      // it fails only because a step of the outside world did
      ensures faults >= old(faults) && (error.Some? ==> faults > old(faults))
      // and it is fatal only if something cannot be stopped, or the old group cannot be restored either
      ensures error == Some(ShutdownTimeout) ==> Stuck()
      ensures fatal && !old(fatal) ==> Stuck() || faults >= old(faults) + 2
      ensures error.None? ==> Serves(root, bundle) && fresh(current) && fatal == old(fatal)
      ensures error.None? && !current.exited ==>
                forall p :: p in current.live <==>
                            || p in {SmartDns, HaProxy, Gateway}
                            || (p.Client? && p.exit < |bundle.config.exits| &&
                                bundle.config.exits[p.exit].kind == "shadowsocks-rust")
      ensures error.Some? && old(Running()) ==>
                fatal || (Serves(old(current.root), old(current.bundle)) && fresh(current))
      ensures error.Some? && old(current) == null ==> current == null
      ensures forall g :: g in old(groups) && g.live != {} ==> fatal
    {
      hide ProcessGroup.Full;
      var previous := current;
      if previous != null {
        var stopped := previous.StopGroup();
        if !stopped {
          faults := faults + 1;
          ReportFatal();
          return Some(ShutdownTimeout);
        }
      }
      var loaded := LoadNft(root);
      if !loaded {
        if previous != null {
          RestoreLocked(previous);
        }
        return Some(NftFailed);
      }
      var group, fault := StartGroup(root, bundle);
      if fault.Some? {
        if fault == Some(ShutdownTimeout) {
          ReportFatal();
          return fault;
        }
        if previous != null {
          RestoreLocked(previous);
        }
        return fault;
      }
      current := group;
      error := None;
    }

    /** restoreLocked: the previous group again, complete and with its rules, or a fatal error. */
    method RestoreLocked(previous: ProcessGroup)
      requires Consistent() && current == previous && previous.stopped && previous.live == {}
      modifies this
      ensures Valid() && fresh(groups - old(groups)) && old(groups) <= groups
      ensures old(fatal) ==> fatal
      ensures faults >= old(faults) && (fatal && !old(fatal) ==> faults > old(faults))
      ensures fatal || (Serves(previous.root, previous.bundle) && fresh(current))
    {
      var loaded := LoadNft(previous.root);
      if !loaded {
        ReportFatal();
        return;
      }
      var restored, fault := StartGroup(previous.root, previous.bundle);
      if fault.Some? {
        ReportFatal();
        return;
      }
      current := restored;
    }

    /** Supervisor.Stop. */
    method Stop()
      requires Valid()
      modifies this, groups
      ensures Valid() && groups == old(groups) && current == null && nft == old(nft) && faults == old(faults)
      ensures old(fatal) ==> fatal
      ensures fatal && !old(fatal) ==> Stuck()
      ensures !fatal ==> forall g :: g in groups ==> g.live == {}
    {
      if current != null {
        var stopped := current.StopGroup();
        if !stopped {
          ReportFatal();
        }
        current := null;
      }
    }

    /** A process of a group ends by itself; its waiting goroutine says so unless the group was cancelled. */
    method ProcessExits(group: ProcessGroup)
      requires Valid() && group in groups && group.live != {}
      modifies group`live, group`exited
      ensures Valid() && group.live < old(group.live)
      ensures if group.stopped then group.exited == old(group.exited) else group.exited
    {
      var p :| p in group.live;
      group.live := group.live - {p};
      if !group.stopped {
        group.exited := true;
      }
    }

    /** watch, once one of its channels is ready; with both ready either may be taken. */
    method Watch(group: ProcessGroup)
      requires Valid() && group in groups && (group.exited || group.stopped)
      modifies this`fatal
      ensures Valid() && (old(fatal) ==> fatal)
      ensures group == current && group.exited && !group.stopped ==> fatal
      ensures group != current ==> fatal == old(fatal)
    {
      var done: bool := *;
      if group.exited && (done || !group.stopped) && current == group {
        ReportFatal();
      }
    }

    /** Any run of applies, stops, exits and watchers, of any length, keeps the invariant. */
    method AnyRun()
      requires Valid()
      modifies this, groups
      ensures Valid()
      ensures old(fatal) ==> fatal
      ensures current != null && !fatal ==> Running() && (current.Full() || current.exited)
    {
      var steps: nat := Any();
      for n := 0 to steps
        invariant Valid() && fresh(groups - old(groups)) && old(groups) <= groups
        invariant old(fatal) ==> fatal
      {
        if {
          case true =>
            var root: nat := Any();
            var bundle: Bundle := Any();
            var _ := Apply(root, bundle);
          case true =>
            Stop();
          case exists g :: g in groups && g.live != {} =>
            var g :| g in groups && g.live != {};
            ProcessExits(g);
          case exists g :: g in groups && (g.exited || g.stopped) =>
            var g :| g in groups && (g.exited || g.stopped);
            Watch(g);
        }
      }
    }
  }
}
