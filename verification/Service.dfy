/**
  Applying a configuration: the candidate revision is saved, rendered, put in charge of the runtime and
  activated, and every failure on the way is undone. Between any two steps, the download of the imports
  included, drafts are saved, processes end and watchers report, and the daemon may crash. Only the tables and
  the directories outlive a crash; one inside a step on them leaves what a failure of that step can leave.
  */
module Service {
  import opened Text
  import opened Bundles
  import opened Store
  import opened Supervisor
  import opened RuleSources
  import opened World
  import Config

  /** The revision directories: which are rendered in full, and from which bundle. */
  class Disk {
    var dirs: map<nat, Bundle>
    var faults: nat    // how often rendering or removing has failed

    /** Supervisor.Prepare: only the directory of this revision is touched. */
    method Prepare(id: nat, bundle: Bundle) returns (ok: bool)
      modifies this
      ensures forall i :: i != id ==> (i in dirs <==> i in old(dirs)) && (i in dirs ==> dirs[i] == old(dirs)[i])
      ensures ok ==> id in dirs && dirs[id] == bundle
      ensures faults == old(faults) + if ok then 0 else 1
    {
      var removed: bool, written: bool := *, *;
      if removed {
        dirs := dirs - {id};
      }
      ok := *;
      if ok || written {
        dirs := dirs[id := bundle];
      }
      if !ok {
        faults := faults + 1;
      }
    }

    /** PruneRevisionDirs: on an error some of the directories to remove may remain. */
    method Prune(keep: set<nat>) returns (ok: bool)
      modifies this
      ensures forall i :: i in keep ==> (i in dirs <==> i in old(dirs)) && (i in dirs ==> dirs[i] == old(dirs)[i])
      ensures forall i :: i in dirs ==> i in old(dirs) && dirs[i] == old(dirs)[i]
      ensures ok ==> dirs.Keys <= keep
      ensures faults == old(faults) + if ok then 0 else 1
    {
      ok := *;
      if ok {
        dirs := map i | i in dirs && i in keep :: dirs[i];
      } else {
        var gone: set<nat> := Any();
        dirs := map i | i in dirs && (i in keep || i !in gone) :: dirs[i];
        faults := faults + 1;
      }
    }
  }

  datatype Cause =
    StoreFault(why: StoreError) | RowsLeft | DirsLeft | Input(error: ResolveError) | Unprepared | Runtime(fault: Fault)

  /** Only one of the two prunes at the end failed. */
  predicate Uncleaned(cause: Cause) {
    cause == RowsLeft || cause == DirsLeft
  }

  /** How far restoreActiveDraft came: all the way, not to the caches, or to the caches only. */
  datatype Restore = Restored | NotReset | NotCleaned

  /** The joined error of a failed apply. */
  datatype ApplyError = ApplyError(cause: Cause, markFailed: bool, rollback: Option<Fault>, restore: Restore)

  datatype ApplyResult = Applied(changed: bool, id: nat, rules: nat) | Rejected(error: ApplyError) | Crashed

  class Service {
    const o: Outside
    const store: Store
    const supervisor: Supervisor
    const disk: Disk
    var active: Revision
    var draft: Revision
    var faults: nat    // how often the daemon was to crash

    constructor (o: Outside, store: Store, supervisor: Supervisor, disk: Disk, active: Revision, draft: Revision)
      ensures this.o == o && this.store == store && this.supervisor == supervisor && this.disk == disk
      ensures this.active == active && this.draft == draft && faults == 0
    {
      this.o, this.store, this.supervisor, this.disk, this.active, this.draft := o, store, supervisor, disk, active,
          draft;
      faults := 0;
    }

    /** How often anything outside the program has failed. */
    ghost function Faults(): nat
      reads this, store, disk, supervisor
    {
      faults + store.faults + disk.faults + supervisor.faults
    }

    ghost predicate Valid()
      reads this, store, supervisor, supervisor.groups
    {
      store.Valid() && supervisor.Valid()
    }

    /** The cached active revision is the active row. */
    ghost predicate Cached()
      reads this, store
    {
      store.active in store.rows && active == store.RevisionOf(store.active)
    }

    /** The running group and the loaded rules belong to this revision, whose directory is on disk. */
    ghost predicate Serving(id: nat, bundle: Bundle)
      reads supervisor, supervisor.current, disk
    {
      && supervisor.Running() && supervisor.current.root == id && supervisor.current.bundle == bundle
      && id in disk.dirs && disk.dirs[id] == bundle
    }

    /** The store, the cache, the runtime and the disk agree on the active revision, or a fatal error is pending. */
    ghost predicate InSync()
      reads this, store, supervisor, supervisor.current, disk
    {
      && Cached()
      && (supervisor.fatal || Serving(store.active, store.rows[store.active].bundle))
    }

    /** The active revision came from this input, and its resolved rules still hold every local rule. */
    ghost predicate Current(bundle: Bundle)
      reads this, store
    {
      && store.active in store.rows && CameFrom(store.rows[store.active].bundle, bundle)
      && LocalRulesCurrent(store.rows[store.active].bundle)
    }

    /** Service.SaveDraft. */
    method SaveDraft(bundle: Bundle) returns (saved: Result<Revision, StoreError>)
      requires store.Valid()
      modifies `draft, store
      // what is saved is this input, unresolved, and it is the cached draft
      ensures saved.Success? ==> store.draft == old(store.next) && store.draft in store.rows
      ensures saved.Success? ==> draft == saved.value == store.RevisionOf(store.draft) && draft.status == Draft
      ensures saved.Success? ==> CameFrom(draft.bundle, bundle) && draft.bundle.resolved == []
      ensures saved.Failure? ==> draft == old(draft) && store.rows == old(store.rows) && store.draft == old(store.draft)
      ensures store.Valid() && OnlyDrafts(old(store.rows), store.rows, old(store.next)) &&
                store.active == old(store.active)
      ensures old(store.next) <= store.next && (store.draft == old(store.draft) || old(store.next) <= store.draft)
      ensures store.faults >= old(store.faults)
    {
      hide ApplyDefaults, Settled;
      saved := store.SaveDraft(o, bundle.(resolved := []));
      WithDefaultsCame(bundle.(resolved := []));
      if saved.Success? {
        draft := saved.value;
      }
    }

    /** What other goroutines may do between two steps of an apply: any number of saves, exits and reports. */
    method Interleave()
      requires Valid()
      modifies `draft, store, supervisor`fatal, supervisor.groups`live, supervisor.groups`exited
      ensures Valid() && OnlyDrafts(old(store.rows), store.rows, old(store.next)) && store.active == old(store.active)
      ensures old(store.next) <= store.next && (store.draft == old(store.draft) || old(store.next) <= store.draft)
      ensures old(supervisor.fatal) ==> supervisor.fatal
      ensures (old(InSync()) ==> InSync()) && (old(Cached()) ==> Cached())
      ensures Faults() >= old(Faults())
    {
      hide Settled, CameFrom, Supervisor.Valid, Store.Valid;
      var steps: nat := Any();
      for n := 0 to steps
        invariant Valid() && OnlyDrafts(old(store.rows), store.rows, old(store.next)) &&
                    store.active == old(store.active)
        invariant old(store.next) <= store.next && (store.draft == old(store.draft) || old(store.next) <= store.draft)
        invariant (old(supervisor.fatal) ==> supervisor.fatal) && store.faults >= old(store.faults)
      {
        if {
          case true =>
            var bundle: Bundle := Any();
            var _ := SaveDraft(bundle);
          case exists g :: g in supervisor.groups && g.live != {} =>
            var g :| g in supervisor.groups && g.live != {};
            supervisor.ProcessExits(g);
          case exists g :: g in supervisor.groups && (g.exited || g.stopped) =>
            var g :| g in supervisor.groups && (g.exited || g.stopped);
            supervisor.Watch(g);
        }
      }
    }

    /** Between two steps: others run, and the daemon may crash. */
    method Between() returns (crash: bool)
      requires Valid()
      modifies `draft, `faults, store, supervisor`fatal, supervisor.groups`live, supervisor.groups`exited
      ensures Valid() && OnlyDrafts(old(store.rows), store.rows, old(store.next)) && store.active == old(store.active)
      ensures old(store.next) <= store.next && (store.draft == old(store.draft) || old(store.next) <= store.draft)
      ensures old(supervisor.fatal) ==> supervisor.fatal
      ensures (old(InSync()) ==> InSync()) && (old(Cached()) ==> Cached())
      ensures Faults() >= old(Faults()) && (crash ==> Faults() > old(Faults()))
    {
      hide Settled;
      Interleave();
      crash := *;
      if crash {
        faults := faults + 1;
      }
    }

    /** Only the active row and drafts saved since then are left, and the draft pointer names one of them. */
    ghost predicate OnlySince(next: nat)
      reads store
    {
      && (forall id :: id in store.rows ==> id == store.active || next <= id)
      && (store.draft == store.active || next <= store.draft)
    }

    /** PruneRevisions and PruneRevisionDirs, which end all three of the transaction's good ways. */
    method Cleanup(id: nat, ghost since: nat) returns (fault: Option<Cause>, crash: bool)
      requires Valid() && id == store.active && since <= store.next &&
                 (store.draft == store.active || since <= store.draft)
      modifies `draft, `faults, store, disk, supervisor`fatal, supervisor.groups`live, supervisor.groups`exited
      ensures Valid() && store.active == old(store.active) && store.rows[store.active] == old(store.rows)[store.active]
      ensures old(supervisor.fatal) ==> supervisor.fatal
      ensures KeepsDir(store.active, old(disk.dirs), disk.dirs)
      ensures fault.Some? ==> Uncleaned(fault.value)
      ensures fault.None? && !crash ==> OnlySince(since) && disk.dirs.Keys <= {store.active}
      ensures Faults() >= old(Faults()) && (fault.Some? || crash ==> Faults() > old(Faults()))
    {
      hide Supervisor.Valid, InSync, Settled, Faults;
      fault := None;
      var pruned;
      pruned, crash := PruneRows(since);
      if crash {
        return;
      }
      if !pruned {
        return Some(RowsLeft), false;
      }
      pruned, crash := PruneDirs(id, since);
      if !pruned {
        fault := Some(DirsLeft);
      }
    }

    /** PruneRevisions, and what happens until its caller goes on. */
    method PruneRows(ghost since: nat) returns (pruned: bool, crash: bool)
      requires Valid() && since <= store.next && (store.draft == store.active || since <= store.draft)
      modifies `draft, `faults, store, supervisor`fatal, supervisor.groups`live, supervisor.groups`exited
      ensures Valid() && store.active == old(store.active) && store.rows[store.active] == old(store.rows)[store.active]
      ensures (old(supervisor.fatal) ==> supervisor.fatal) && old(store.next) <= store.next
      ensures store.draft == store.active || since <= store.draft
      ensures pruned ==> OnlySince(since)
      ensures Faults() >= old(Faults()) && (!pruned || crash ==> Faults() > old(Faults()))
    {
      hide Supervisor.Valid, InSync, Settled;
      pruned := store.PruneRevisions();
      crash := Between();
    }

    /** PruneRevisionDirs, and what happens until its caller goes on. */
    method PruneDirs(id: nat, ghost since: nat) returns (pruned: bool, crash: bool)
      requires Valid() && id == store.active && since <= store.next && OnlySince(since)
      modifies `draft, `faults, store, disk, supervisor`fatal, supervisor.groups`live, supervisor.groups`exited
      ensures Valid() && store.active == old(store.active) && store.rows[store.active] == old(store.rows)[store.active]
      ensures old(supervisor.fatal) ==> supervisor.fatal
      ensures KeepsDir(store.active, old(disk.dirs), disk.dirs)
      ensures OnlySince(since) && (pruned ==> disk.dirs.Keys <= {store.active})
      ensures Faults() >= old(Faults()) && (!pruned || crash ==> Faults() > old(Faults()))
    {
      hide Supervisor.Valid, InSync, Settled;
      pruned := disk.Prune({id});
      crash := Between();
    }

    /** ResetDraftToActive, and what happens until its caller goes on. */
    method ResetDraft() returns (reset: Result<Revision, StoreError>, crash: bool)
      requires Valid()
      modifies `draft, `faults, store, supervisor`fatal, supervisor.groups`live, supervisor.groups`exited
      ensures Valid() && store.active == old(store.active) && store.rows[store.active] == old(store.rows)[store.active]
      ensures (old(supervisor.fatal) ==> supervisor.fatal) && old(store.next) <= store.next
      ensures reset.Success? ==> reset.value == store.RevisionOf(store.active)
      ensures reset.Success? ==> store.draft == store.active || old(store.next) <= store.draft
      ensures Faults() >= old(Faults()) && (reset.Failure? || crash ==> Faults() > old(Faults()))
    {
      hide Supervisor.Valid, InSync, Settled;
      reset := store.ResetDraftToActive();
      crash := Between();
    }

    /**
      restoreActiveDraft: the draft and both caches go back to the active row and the rest is pruned; the active
      row and its directory are not disturbed, and drafts saved meanwhile stay.
      */
    method RestoreActiveDraft() returns (restore: Restore, crash: bool)
      requires Valid()
      modifies `active, `draft, `faults, store, disk, supervisor`fatal, supervisor.groups`live, supervisor.groups`exited
      ensures Valid() && store.active == old(store.active) && store.rows[store.active] == old(store.rows)[store.active]
      ensures old(supervisor.fatal) ==> supervisor.fatal
      ensures active == old(active) || Cached()
      ensures !crash ==> if restore == NotReset then active == old(active) else Cached()
      ensures !crash && restore == Restored ==> OnlySince(old(store.next)) && disk.dirs.Keys <= {store.active}
      ensures KeepsDir(store.active, old(disk.dirs), disk.dirs)
      ensures Faults() >= old(Faults()) && (restore != Restored || crash ==> Faults() > old(Faults()))
    {
      hide Supervisor.Valid, InSync, Settled;
      restore := NotReset;
      var reset;
      reset, crash := ResetDraft();
      if crash || reset.Failure? {
        return;
      }
      SetActiveAndDraft(reset.value);
      restore := NotCleaned;
      crash := Between();
      if crash {
        return;
      }
      var fault;
      fault, crash := Cleanup(reset.value.id, old(store.next));
      restore := if fault.Some? then NotCleaned else Restored;
    }

    /** setActiveAndDraft. */
    method SetActiveAndDraft(revision: Revision)
      modifies `active, `draft
      ensures active == draft == revision && Faults() == old(Faults())
    {
      active, draft := revision, revision;
    }

    /** The path of ApplyBundle for a bundle that the active revision already came from. */
    method KeepActive(current: Revision) returns (r: ApplyResult)
      requires Valid() && current == store.RevisionOf(store.active)
      modifies `active, `draft, `faults, store, disk, supervisor`fatal, supervisor.groups`live, supervisor.groups`exited
      ensures Valid() && store.active == old(store.active) && store.rows[store.active] == old(store.rows)[store.active]
      ensures old(supervisor.fatal) ==> supervisor.fatal
      ensures active == old(active) || Cached()
      ensures KeepsDir(store.active, old(disk.dirs), disk.dirs)
      ensures r.Rejected? ==> r.error.rollback.None?
      ensures (old(InSync()) ==> InSync()) && (old(Cached()) ==> Cached())
      ensures r.Applied? ==>
                r == Applied(false, current.id, |current.bundle.resolved|) && Cached() && OnlySince(old(store.next))
      ensures Faults() >= old(Faults()) && (!r.Applied? ==> Faults() > old(Faults()))
    {
      hide Supervisor.Valid, Settled, Faults;
      var reset, crash := ResetDraft();
      if crash {
        return Crashed;
      }
      if reset.Failure? {
        return Rejected(ApplyError(StoreFault(reset.error), false, None, Restored));
      }
      var fault;
      fault, crash := Cleanup(current.id, old(store.next));
      if crash {
        return Crashed;
      }
      if fault.Some? {
        return Rejected(ApplyError(fault.value, false, None, Restored));
      }
      SetActiveAndDraft(reset.value);
      r := Applied(false, current.id, |current.bundle.resolved|);
    }

    /** Store.Active, and what happens until its caller goes on. */
    method ReadCurrent() returns (read: Result<Revision, StoreError>, crash: bool)
      requires Valid()
      modifies `draft, `faults, store, supervisor`fatal, supervisor.groups`live, supervisor.groups`exited
      ensures Valid() && store.active == old(store.active) && store.rows[store.active] == old(store.rows)[store.active]
      ensures (old(supervisor.fatal) ==> supervisor.fatal) && old(store.next) <= store.next &&
                (old(InSync()) ==> InSync()) && (old(Cached()) ==> Cached())
      ensures read.Success? ==> read.value == store.RevisionOf(store.active)
      ensures Faults() >= old(Faults()) && (read.Failure? || crash ==> Faults() > old(Faults()))
    {
      hide Supervisor.Valid, Settled;
      read := store.ReadActive();
      crash := Between();
    }

    /** resolveBundle, whose downloads take their time. */
    method Download(bundle: Bundle, arrival: seq<nat>) returns (resolved: Result<Bundle, ResolveError>, crash: bool)
      requires Valid() && ArrivesOnce(arrival, |bundle.rules.imports|)
      modifies `draft, `faults, store, supervisor`fatal, supervisor.groups`live, supervisor.groups`exited
      ensures Valid() && store.active == old(store.active) && store.rows[store.active] == old(store.rows)[store.active]
      ensures (old(supervisor.fatal) ==> supervisor.fatal) && old(store.next) <= store.next &&
                (old(InSync()) ==> InSync()) && (old(Cached()) ==> Cached())
      ensures resolved == Resolve(o, bundle)
      ensures resolved.Success? ==>
                Settled(resolved.value) && CameFrom(resolved.value, bundle) && LocalRulesCurrent(resolved.value)
      ensures Faults() >= old(Faults()) && (crash ==> Faults() > old(Faults()))
      ensures resolved.Success? ==> o.validConfig(resolved.value.config)
    {
      hide Supervisor.Valid, InSync, ApplyDefaults, CameFrom, Settled, SameInput, LocalRulesCurrent, Resolve;
      resolved := ResolveBundle(o, bundle, arrival);
      if resolved.Success? {
        ResolvedIsSettled(o, bundle);
      }
      crash := Between();
    }

    /** The runtime was left alone: nothing was started, stopped or loaded. Processes may still end by themselves. */
    twostate predicate Untouched()
      reads supervisor, supervisor.groups
    {
      && supervisor.current == old(supervisor.current) && supervisor.nft == old(supervisor.nft) &&
          supervisor.groups == old(supervisor.groups)
      && (forall g :: g in supervisor.groups ==> g.stopped == old(g.stopped))
    }

    /**
      Service.ApplyBundle. `unread` says that the candidate was activated but the read that follows failed, which
      the caller takes for a failure.
      */
    method ApplyBundle(bundle: Bundle, arrival: seq<nat>) returns (r: ApplyResult, ghost unread: bool)
      requires Valid() && ArrivesOnce(arrival, |bundle.rules.imports|)
      modifies this, store, supervisor, supervisor.groups, disk
      ensures Valid() && fresh(supervisor.groups - old(supervisor.groups)) &&
                old(supervisor.groups) <= supervisor.groups
      // a call that moved the active pointer leaves the new revision in charge, unless it crashed or lost the read
      ensures store.active != old(store.active) ==> store.active >= old(store.next)
      ensures store.active != old(store.active) && !r.Crashed? && !unread ==>
                InSync() && Serving(store.active, store.rows[store.active].bundle)
      // an error moves it exactly when the activation was done: the read after it was lost, or only a prune failed
      ensures unread ==> store.active != old(store.active) && !r.Applied?
      ensures r.Rejected? && !unread && !old(Current(bundle)) ==>
                (store.active != old(store.active) <==> Uncleaned(r.error.cause))
      ensures r.Rejected? && Uncleaned(r.error.cause) ==> r.error.rollback.None? && !unread
      // the cache stays the active row, whatever the rollback; after a lost read exactly when the draft could be reset
      ensures old(Cached()) && !r.Crashed? && !unread ==> Cached()
      ensures old(Cached()) && unread && r.Rejected? ==> (Cached() <==> r.error.restore != NotReset)
      ensures store.active == old(store.active) ==> store.rows[store.active] == old(store.rows)[store.active]
      ensures old(supervisor.fatal) ==> supervisor.fatal
      // a change puts a fresh revision of this input in charge of everything
      ensures r.Applied? && r.changed ==> !unread && r.id == store.active >= old(store.next)
      ensures r.Applied? && r.changed ==> InSync() && Serving(store.active, store.rows[store.active].bundle)
      ensures r.Applied? ==> Current(bundle) && OnlySince(old(store.next)) && ManagedFault(bundle.rules).None?
      ensures r.Applied? ==> store.rows[store.active].bundle.config == Config.ApplyDefaults(bundle.config)
      ensures r.Applied? ==> store.rows[store.active].bundle.rules == WithOptional(bundle)
      // only an input that is the active row's, configuration and rules file, is answered with no change
      ensures r.Applied? && old(store.rows[store.active].bundle.config) != Config.ApplyDefaults(bundle.config) ==>
                r.changed
      ensures r.Applied? && old(store.rows[store.active].bundle.rules) != WithOptional(bundle) ==> r.changed
      // no change leaves the runtime alone
      ensures r.Applied? && !r.changed ==> r.id == store.active == old(store.active)
      ensures old(Current(bundle)) ==> Untouched()
      ensures old(Current(bundle)) ==> !unread && (r.Applied? ==> !r.changed) && store.active == old(store.active)
      // a refusal without a failed rollback leaves everything as it was, unless the activation was done but unread
      ensures old(InSync()) && !r.Crashed? && !unread && (r.Rejected? ==> r.error.rollback.None?) ==> InSync()
      ensures old(InSync()) && unread && r.Rejected? && r.error.rollback.None? && !supervisor.fatal ==>
                supervisor.Running() && supervisor.current.root == old(store.active) != store.active
      // after a failed rollback the candidate serves on, and when it was activated it is the active revision that does
      ensures r.Rejected? && r.error.rollback.Some? && !supervisor.fatal ==>
                supervisor.Running() && supervisor.current.root >= old(store.next)
      ensures unread && r.Rejected? && r.error.rollback.Some? && !supervisor.fatal ==>
                Serving(store.active, store.rows[store.active].bundle)
      // it crashes or fails only because something outside the program did, or for an input that is refused
      ensures Faults() >= old(Faults()) && (r.Crashed? ==> Faults() > old(Faults()))
      ensures r.Rejected? && Faults() == old(Faults()) ==>
                r.error.cause.Input? && (ManagedFault(bundle.rules).Some? || Resolve(o, bundle).Failure?)
    {
      hide ApplyDefaults, CameFrom, SameInput, Settled, LocalRulesCurrent, Resolve, ManagedFault, InSync, Cached,
          Serving, Supervisor.Valid, Supervisor.Running, Config.ApplyDefaults, WithOptional;
      unread := false;
      var read, crash := ReadCurrent();
      if crash {
        return Crashed, false;
      }
      if read.Failure? {
        return Rejected(ApplyError(StoreFault(read.error), false, None, Restored)), false;
      }
      var current := read.value;
      var fault := ManagedFault(bundle.rules);
      if fault.Some? {
        return Rejected(ApplyError(Input(NotManaged(fault.value)), false, None, Restored)), false;
      }
      var same := IsCurrent(current, bundle);
      if same {
        r := KeepActive(current);
      } else {
        r, unread := ApplyInput(current, bundle, arrival);
      }
      CurrentMeans(bundle);
    }

    /** The comparison of ApplyBundle. */
    method IsCurrent(current: Revision, bundle: Bundle) returns (r: bool)
      requires Valid() && current == store.RevisionOf(store.active)
      ensures r == Current(bundle)
    {
      hide CameFrom, Settled, SameInput, LocalRulesCurrent, Supervisor.Valid;
      SameInputIff(current.bundle, bundle);
      r := false;
      if SameInput(current.bundle, bundle) {
        r := ResolvedLocalRulesCurrent(current.bundle);
      }
    }

    /** What it is to be current, in terms of the fields. */
    lemma CurrentMeans(bundle: Bundle)
      ensures Current(bundle) <==>
              && store.active in store.rows
              && var now := store.rows[store.active].bundle;
                 && now.config == Config.ApplyDefaults(bundle.config)
                 && now.rules == WithOptional(bundle)
                 && multiset(now.rules.rules) <= multiset(now.resolved)
    {
      hide Config.ApplyDefaults, WithOptional;
    }

    /** The path of ApplyBundle for an input that the active revision did not come from, or not as it is now. */
    method ApplyInput(current: Revision, bundle: Bundle, arrival: seq<nat>) returns (r: ApplyResult, ghost unread: bool)
      requires Valid() && current == store.RevisionOf(store.active) && ArrivesOnce(arrival, |bundle.rules.imports|)
      modifies this, store, supervisor, supervisor.groups, disk
      ensures Valid() && fresh(supervisor.groups - old(supervisor.groups)) &&
                old(supervisor.groups) <= supervisor.groups
      ensures store.active != current.id ==> store.active >= old(store.next)
      ensures store.active != current.id && !r.Crashed? && !unread ==>
                InSync() && Serving(store.active, store.rows[store.active].bundle)
      ensures unread ==> store.active != current.id && !r.Applied?
      ensures r.Rejected? && !unread ==> (store.active != current.id <==> Uncleaned(r.error.cause))
      ensures r.Rejected? && Uncleaned(r.error.cause) ==> r.error.rollback.None? && !unread
      ensures old(Cached()) && !r.Crashed? && !unread ==> Cached()
      ensures old(Cached()) && unread && r.Rejected? ==> (Cached() <==> r.error.restore != NotReset)
      ensures store.active == current.id ==> store.rows[store.active] == Row(Active, current.bundle)
      ensures old(supervisor.fatal) ==> supervisor.fatal
      ensures r.Applied? ==>
                r.changed && !unread && r.id == store.active >= old(store.next) && OnlySince(old(store.next))
      ensures r.Applied? ==> InSync() && Serving(store.active, store.rows[store.active].bundle) && Current(bundle)
      ensures old(InSync()) && r.Rejected? && !unread && r.error.rollback.None? ==> InSync()
      ensures old(InSync()) && unread && r.Rejected? && r.error.rollback.None? && !supervisor.fatal ==>
                supervisor.Running() && supervisor.current.root == current.id != store.active
      ensures r.Rejected? && r.error.rollback.Some? && !supervisor.fatal ==>
                supervisor.Running() && supervisor.current.root >= old(store.next)
      ensures unread && r.Rejected? && r.error.rollback.Some? && !supervisor.fatal ==>
                Serving(store.active, store.rows[store.active].bundle)
      ensures Faults() >= old(Faults()) && (r.Crashed? ==> Faults() > old(Faults()))
      ensures r.Rejected? && Faults() == old(Faults()) ==> r.error.cause.Input? && Resolve(o, bundle).Failure?
    {
      hide ApplyDefaults, CameFrom, SameInput, Settled, LocalRulesCurrent, Resolve, InSync, Cached, Serving,
          Supervisor.Valid, Supervisor.Running;
      var resolved, crash := Download(bundle, arrival);
      if crash {
        return Crashed, false;
      }
      if resolved.Failure? {
        return Rejected(ApplyError(Input(resolved.error), false, None, Restored)), false;
      }
      r, unread := ApplyResolved(current, resolved.value);
    }

    /** The active row and the candidate's row, while an apply is under way. */
    ghost predicate Pending(current: Revision, candidate: Revision)
      reads this, store, supervisor, supervisor.groups
    {
      && Valid() && candidate.id != current.id
      && store.active == current.id && store.rows[current.id] == Row(Active, current.bundle)
      && candidate.id in store.rows && store.rows[candidate.id] == Row(Draft, candidate.bundle)
    }

    /** A revision serves, or a fatal error is pending. */
    ghost predicate Holds(revision: Revision)
      reads supervisor, supervisor.current, disk
    {
      supervisor.fatal || Serving(revision.id, revision.bundle)
    }

    /** The part of ApplyBundle from the candidate's row on. */
    method ApplyResolved(current: Revision, resolved: Bundle) returns (r: ApplyResult, ghost unread: bool)
      requires Valid() && current == store.RevisionOf(store.active) && Settled(resolved)
      requires o.validConfig(resolved.config)
      modifies this, store, supervisor, supervisor.groups, disk
      ensures Valid() && fresh(supervisor.groups - old(supervisor.groups)) &&
                old(supervisor.groups) <= supervisor.groups
      ensures store.active != current.id ==> store.active >= old(store.next)
      ensures store.active != current.id && !r.Crashed? && !unread ==>
                InSync() && Serving(store.active, store.rows[store.active].bundle)
      ensures unread ==> store.active != current.id && !r.Applied?
      ensures r.Rejected? && !unread ==> (store.active != current.id <==> Uncleaned(r.error.cause))
      ensures r.Rejected? && Uncleaned(r.error.cause) ==> r.error.rollback.None? && !unread
      ensures old(Cached()) && !r.Crashed? && !unread ==> Cached()
      ensures old(Cached()) && unread && r.Rejected? ==> (Cached() <==> r.error.restore != NotReset)
      ensures store.active == current.id ==> store.rows[store.active] == Row(Active, current.bundle)
      ensures old(supervisor.fatal) ==> supervisor.fatal
      ensures r.Applied? ==>
                r.changed && !unread && r.id == store.active >= old(store.next) && OnlySince(old(store.next))
      ensures r.Applied? ==> InSync() && Serving(store.active, resolved) && store.rows[store.active].bundle == resolved
      ensures old(InSync()) && r.Rejected? && !unread && r.error.rollback.None? ==> InSync()
      ensures old(InSync()) && unread && r.Rejected? && r.error.rollback.None? && !supervisor.fatal ==>
                supervisor.Running() && supervisor.current.root == current.id != store.active
      ensures r.Rejected? && r.error.rollback.Some? && !supervisor.fatal ==>
                supervisor.Running() && supervisor.current.root >= old(store.next)
      ensures unread && r.Rejected? && r.error.rollback.Some? && !supervisor.fatal ==>
                Serving(store.active, store.rows[store.active].bundle)
      ensures Faults() >= old(Faults()) && (!r.Applied? ==> Faults() > old(Faults()))
    {
      hide ApplyDefaults, Supervisor.Valid, Settled;
      unread := false;
      SettledMeans(resolved);
      var saved := store.SaveDraft(o, resolved);
      if saved.Failure? {
        return Rejected(ApplyError(StoreFault(saved.error), false, None, Restored)), false;
      }
      var candidate := saved.value;
      var crash := Between();
      if crash {
        return Crashed, false;
      }
      draft := candidate;
      r, unread := PutInCharge(current, candidate);
    }

    /** Render the candidate and hand the runtime over to it, then commit or undo. */
    method PutInCharge(current: Revision, candidate: Revision) returns (r: ApplyResult, ghost unread: bool)
      requires Pending(current, candidate)
      modifies this, store, supervisor, supervisor.groups, disk
      ensures Valid() && fresh(supervisor.groups - old(supervisor.groups)) &&
                old(supervisor.groups) <= supervisor.groups
      ensures old(supervisor.fatal) ==> supervisor.fatal
      ensures store.active != current.id ==> store.active == candidate.id
      ensures store.active != current.id && !r.Crashed? && !unread ==>
                InSync() && Serving(store.active, store.rows[store.active].bundle)
      ensures unread ==> store.active != current.id && !r.Applied?
      ensures r.Rejected? && !unread ==> (store.active != current.id <==> Uncleaned(r.error.cause))
      ensures r.Rejected? && Uncleaned(r.error.cause) ==> r.error.rollback.None? && !unread
      ensures old(Cached()) && !r.Crashed? && !unread ==> Cached()
      ensures old(Cached()) && unread && r.Rejected? ==> (Cached() <==> r.error.restore != NotReset)
      ensures store.active == current.id ==> store.rows[store.active] == Row(Active, current.bundle)
      ensures r.Applied? ==>
                r == Applied(true, candidate.id, |candidate.bundle.resolved|) && store.active == candidate.id && !unread
      ensures r.Applied? ==> OnlySince(old(store.next))
      ensures r.Applied? ==>
                InSync() && Serving(candidate.id, candidate.bundle) &&
                store.rows[store.active].bundle == candidate.bundle
      ensures old(InSync()) && r.Rejected? && !unread && r.error.rollback.None? ==> InSync()
      ensures old(InSync()) && unread && r.Rejected? && r.error.rollback.None? && !supervisor.fatal ==>
                supervisor.Running() && supervisor.current.root == current.id
      ensures r.Rejected? && r.error.rollback.Some? && !supervisor.fatal ==>
                supervisor.Running() && supervisor.current.root == candidate.id
      ensures unread && r.Rejected? && r.error.rollback.Some? && !supervisor.fatal ==>
                Serving(store.active, store.rows[store.active].bundle)
      ensures Faults() >= old(Faults()) && (!r.Applied? ==> Faults() > old(Faults()))
    {
      hide Settled;
      unread := false;
      var cause, crash := HandOver(current, candidate);
      if crash {
        return Crashed, false;
      }
      if cause.Some? {
        r := Undo(current, candidate, cause.value);
      } else {
        r, unread := Commit(current, candidate);
      }
    }

    /** Between, while an apply is under way. */
    method Pause(current: Revision, candidate: Revision) returns (crash: bool)
      requires Pending(current, candidate)
      modifies `draft, `faults, store, supervisor`fatal, supervisor.groups`live, supervisor.groups`exited
      ensures Pending(current, candidate) && old(store.next) <= store.next
      ensures (old(supervisor.fatal) ==> supervisor.fatal) && (old(Cached()) ==> Cached())
      ensures Faults() >= old(Faults()) && (crash ==> Faults() > old(Faults()))
    {
      hide Supervisor.Valid, InSync, Cached, Settled;
      crash := Between();
    }

    /** Prepare and Supervisor.Apply. */
    method HandOver(current: Revision, candidate: Revision) returns (cause: Option<Cause>, crash: bool)
      requires Pending(current, candidate)
      modifies `draft, `faults, store, supervisor, supervisor.groups, disk
      ensures Pending(current, candidate) && fresh(supervisor.groups - old(supervisor.groups)) &&
                old(supervisor.groups) <= supervisor.groups
      ensures (old(supervisor.fatal) ==> supervisor.fatal) && old(store.next) <= store.next
      ensures old(Cached()) ==> Cached()
      ensures KeepsDir(current.id, old(disk.dirs), disk.dirs)
      ensures cause.None? && !crash ==> Serving(candidate.id, candidate.bundle)
      ensures cause.Some? ==> !Uncleaned(cause.value)
      ensures cause.Some? && old(Holds(current)) ==> Holds(current)
      ensures Faults() >= old(Faults()) && (cause.Some? || crash ==> Faults() > old(Faults()))
    {
      hide InSync, Cached, Store.Valid, Settled;
      var prepared;
      prepared, crash := Render(current, candidate);
      if crash {
        return None, true;
      }
      if !prepared {
        return Some(Unprepared), false;
      }
      var fault := supervisor.Apply(candidate.id, candidate.bundle);
      crash := Pause(current, candidate);
      cause := if fault.Some? then Some(Runtime(fault.value)) else None;
    }

    /** Prepare, and what happens until its caller goes on. */
    method Render(current: Revision, candidate: Revision) returns (prepared: bool, crash: bool)
      requires Pending(current, candidate)
      modifies `draft, `faults, store, disk, supervisor`fatal, supervisor.groups`live, supervisor.groups`exited
      ensures Pending(current, candidate) && old(store.next) <= store.next
      ensures (old(supervisor.fatal) ==> supervisor.fatal) && (old(Cached()) ==> Cached())
      ensures KeepsDir(current.id, old(disk.dirs), disk.dirs)
      ensures prepared ==> OnDisk(candidate)
      ensures old(Holds(current)) ==> Holds(current)
      ensures Faults() >= old(Faults()) && (!prepared || crash ==> Faults() > old(Faults()))
    {
      hide Cached, Valid, Settled;
      prepared := disk.Prepare(candidate.id, candidate.bundle);
      crash := Pause(current, candidate);
    }

    /** The candidate is marked as failed and the draft and the caches go back to the active row. */
    method Undo(current: Revision, candidate: Revision, cause: Cause) returns (r: ApplyResult)
      requires Pending(current, candidate)
      modifies `active, `draft, `faults, store, disk, supervisor`fatal, supervisor.groups`live, supervisor.groups`exited
      ensures Valid() && store.active == current.id && store.rows[current.id] == Row(Active, current.bundle)
      ensures old(supervisor.fatal) ==> supervisor.fatal
      ensures !r.Applied? && (r.Rejected? ==> r.error.rollback.None? && r.error.cause == cause)
      ensures old(Cached()) ==> Cached()
      ensures active == old(active) || Cached()
      ensures r.Rejected? && r.error.restore != NotReset ==> Cached()
      ensures r.Rejected? && r.error.restore == Restored ==>
                OnlySince(old(store.next)) && disk.dirs.Keys <= {current.id}
      ensures old(Holds(current)) ==> Holds(current)
      ensures Faults() >= old(Faults()) && (r.Crashed? ==> Faults() > old(Faults()))
    {
      hide InSync, Supervisor.Valid, Settled, Faults;
      var marked, crash := MarkFailed(current, candidate);
      if crash {
        return Crashed;
      }
      var restored;
      restored, crash := RestoreActiveDraft();
      r := if crash then Crashed else Rejected(ApplyError(cause, !marked, None, restored));
    }

    /** Store.Fail, and what happens until its caller goes on. */
    method MarkFailed(current: Revision, candidate: Revision) returns (marked: bool, crash: bool)
      requires Pending(current, candidate)
      modifies `draft, `faults, store, supervisor`fatal, supervisor.groups`live, supervisor.groups`exited
      ensures Valid() && store.active == current.id && store.rows[current.id] == Row(Active, current.bundle)
      ensures (old(supervisor.fatal) ==> supervisor.fatal) && old(store.next) <= store.next
      ensures old(Cached()) ==> Cached()
      ensures Faults() >= old(Faults()) && (crash ==> Faults() > old(Faults()))
    {
      hide InSync, Supervisor.Valid, Settled;
      marked := store.Fail(candidate.id);
      crash := Between();
    }

    /** The candidate serves: activate it and clean up, or give the runtime back. */
    method Commit(current: Revision, candidate: Revision) returns (r: ApplyResult, ghost unread: bool)
      requires Pending(current, candidate) && Serving(candidate.id, candidate.bundle)
      modifies this, store, supervisor, supervisor.groups, disk
      ensures Valid() && fresh(supervisor.groups - old(supervisor.groups)) &&
                old(supervisor.groups) <= supervisor.groups
      ensures old(supervisor.fatal) ==> supervisor.fatal
      ensures store.active == candidate.id ||
                (store.active == current.id && store.rows[current.id] == Row(Active, current.bundle))
      ensures store.active == candidate.id ==> store.rows[candidate.id].bundle == candidate.bundle
      ensures store.active == candidate.id && !r.Crashed? && !unread ==>
                InSync() && Serving(candidate.id, candidate.bundle)
      ensures r.Applied? ==>
                r == Applied(true, candidate.id, |candidate.bundle.resolved|) && !unread && store.active == candidate.id
      ensures r.Applied? ==> OnlySince(old(store.next))
      ensures unread ==> !r.Applied? && store.active == candidate.id
      ensures r.Rejected? && !unread ==> (store.active == candidate.id <==> Uncleaned(r.error.cause))
      ensures r.Rejected? && Uncleaned(r.error.cause) ==> r.error.rollback.None? && !unread
      ensures old(Cached()) && !r.Crashed? && !unread ==> Cached()
      ensures old(Cached()) && unread && r.Rejected? ==> (Cached() <==> r.error.restore != NotReset)
      ensures r.Rejected? && store.active == current.id && r.error.rollback.None? && old(OnDisk(current)) ==>
                Holds(current)
      ensures unread && r.Rejected? && r.error.rollback.None? && !supervisor.fatal ==>
                supervisor.Running() && supervisor.current.root == current.id
      ensures r.Rejected? && r.error.rollback.Some? && !supervisor.fatal ==>
                supervisor.Serves(candidate.id, candidate.bundle)
      ensures unread && r.Rejected? && r.error.rollback.Some? && !supervisor.fatal ==>
                Serving(candidate.id, candidate.bundle)
      ensures Faults() >= old(Faults()) && (!r.Applied? ==> Faults() > old(Faults()))
    {
      hide Supervisor.Valid, Settled;
      var activated, crash;
      activated, crash, unread := ActivateCandidate(current, candidate);
      if crash {
        return Crashed, unread;
      }
      if activated.Failure? {
        r := GiveBack(current, activated.error);
      } else {
        SetActiveAndDraft(activated.value);
        r := Finish(candidate, old(store.next));
      }
    }

    /** Store.Activate, and what happens until its caller goes on. */
    method ActivateCandidate(current: Revision, candidate: Revision)
        returns (activated: Result<Revision, StoreError>, crash: bool, ghost unread: bool)
      requires Pending(current, candidate)
      modifies `draft, `faults, store, supervisor`fatal, supervisor.groups`live, supervisor.groups`exited
      ensures Valid() && old(store.next) <= store.next
      ensures old(supervisor.fatal) ==> supervisor.fatal
      ensures activated.Success? || unread ==>
                store.active == candidate.id && store.rows[candidate.id].bundle == candidate.bundle
      ensures activated.Failure? && !unread ==>
                store.active == current.id && store.rows[current.id] == Row(Active, current.bundle)
      ensures activated.Success? ==> activated.value == store.RevisionOf(store.active) && !unread
      ensures activated.Success? ==> store.draft == store.active || old(store.next) <= store.draft
      ensures Faults() >= old(Faults()) && (activated.Failure? || crash ==> Faults() > old(Faults()))
    {
      hide Supervisor.Valid, InSync, Settled;
      ghost var done;
      activated, done := store.Activate(candidate.id);
      unread := done && activated.Failure?;
      crash := Between();
    }

    /** What ApplyBundle still does once the candidate is active and cached. */
    method Finish(candidate: Revision, ghost since: nat) returns (r: ApplyResult)
      requires Valid() && store.active == candidate.id && since <= store.next &&
                 (store.draft == store.active || since <= store.draft)
      modifies `draft, `faults, store, disk, supervisor`fatal, supervisor.groups`live, supervisor.groups`exited
      ensures Valid() && store.active == candidate.id && store.rows[candidate.id] == old(store.rows)[candidate.id]
      ensures old(supervisor.fatal) ==> supervisor.fatal
      ensures KeepsDir(store.active, old(disk.dirs), disk.dirs)
      ensures r.Applied? ==> r == Applied(true, candidate.id, |candidate.bundle.resolved|) && OnlySince(since)
      ensures r.Rejected? ==> r.error.rollback.None? && Uncleaned(r.error.cause)
      ensures Faults() >= old(Faults()) && (!r.Applied? ==> Faults() > old(Faults()))
    {
      hide Supervisor.Valid, InSync, Settled;
      var crash := Between();
      if crash {
        return Crashed;
      }
      var fault;
      fault, crash := Cleanup(candidate.id, since);
      if crash {
        return Crashed;
      }
      if fault.Some? {
        return Rejected(ApplyError(fault.value, false, None, Restored));
      }
      r := Applied(true, candidate.id, |candidate.bundle.resolved|);
    }

    ghost predicate OnDisk(revision: Revision)
      reads disk
    {
      revision.id in disk.dirs && disk.dirs[revision.id] == revision.bundle
    }

    /** The activation failed: the previous revision takes over the runtime again, or the one in charge keeps it. */
    method GiveBack(previous: Revision, error: StoreError) returns (r: ApplyResult)
      requires Valid() && supervisor.Running()
      modifies `active, `draft, `faults, store, supervisor, supervisor.groups, disk
      ensures Valid() && fresh(supervisor.groups - old(supervisor.groups)) &&
                old(supervisor.groups) <= supervisor.groups
      ensures old(supervisor.fatal) ==> supervisor.fatal
      ensures store.active == old(store.active) && store.rows[store.active] == old(store.rows)[store.active]
      ensures r.Rejected? ==> if r.error.restore == NotReset then active == old(active) else Cached()
      ensures KeepsDir(store.active, old(disk.dirs), disk.dirs)
      ensures !r.Applied? && (r.Rejected? ==> r.error.cause == StoreFault(error))
      ensures r.Rejected? && r.error.rollback.None? ==> supervisor.Serves(previous.id, previous.bundle)
      ensures r.Rejected? && r.error.rollback.Some? && !supervisor.fatal ==>
                supervisor.Serves(old(supervisor.current.root), old(supervisor.current.bundle))
      ensures Faults() >= old(Faults()) && (r.Crashed? ==> Faults() > old(Faults()))
    {
      hide InSync, Settled, Faults;
      var rollback, crash := TakeBack(previous);
      if crash {
        return Crashed;
      }
      var restored;
      restored, crash := RestoreActiveDraft();
      r := if crash then Crashed else Rejected(ApplyError(StoreFault(error), false, rollback, restored));
    }

    /** Supervisor.Apply of the previous revision, and what happens until its caller goes on. */
    method TakeBack(previous: Revision) returns (rollback: Option<Fault>, crash: bool)
      requires Valid() && supervisor.Running()
      modifies `draft, `faults, store, supervisor, supervisor.groups
      ensures Valid() && fresh(supervisor.groups - old(supervisor.groups)) &&
                old(supervisor.groups) <= supervisor.groups
      ensures (old(supervisor.fatal) ==> supervisor.fatal) && old(store.next) <= store.next
      ensures store.active == old(store.active) && store.rows[store.active] == old(store.rows)[store.active]
      ensures rollback.None? ==> supervisor.Serves(previous.id, previous.bundle)
      ensures rollback.Some? && !supervisor.fatal ==>
                supervisor.Serves(old(supervisor.current.root), old(supervisor.current.bundle))
      ensures Faults() >= old(Faults()) && (crash ==> Faults() > old(Faults()))
    {
      hide InSync, Settled;
      rollback := supervisor.Apply(previous.id, previous.bundle);
      crash := Between();
    }
  }

  /** Only draft rows with fresh ids have been added. */
  ghost predicate OnlyDrafts(before: map<nat, Row>, after: map<nat, Row>, next: nat) {
    && (forall id :: id in before ==> id in after && after[id] == before[id])
    && (forall id :: id in after && id !in before ==> next <= id && after[id].status == Draft)
  }

  ghost predicate KeepsDir(id: nat, before: map<nat, Bundle>, after: map<nat, Bundle>) {
    (id in before <==> id in after) && (id in after ==> after[id] == before[id])
  }
}
