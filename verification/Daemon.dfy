/** Starting the daemon over whatever a crash left behind, and whole lifetimes of applies and restarts. */
module Daemon {
  import opened Text
  import opened Bundles
  import opened RuleSources
  import opened Store
  import opened Supervisor
  import opened Service
  import opened World
  import Config

  datatype Request = ApplyRequest(bundle: Bundle, arrival: seq<nat>) | SaveRequest(bundle: Bundle)

  ghost predicate WellFormed(request: Request) {
    request.ApplyRequest? ==> ArrivesOnce(request.arrival, |request.bundle.rules.imports|)
  }

  /**
    The recovery part of Run: the draft is reset or kept, the rest pruned, the active revision rendered and booted.
    It gives up, or the daemon crashes, after any of its steps: then there is no service.
    */
  method Start(o: Outside, store: Store, disk: Disk, nft: Option<nat>)
      returns (service: Service?, ghost booted: Supervisor?)
    requires store.Valid()
    modifies store`draft, store`rows, store`faults, disk
    ensures store.Valid() && store.rows[store.active] == old(store.rows)[store.active]
    ensures service != null ==> fresh(service) && fresh(service.supervisor) && fresh(service.supervisor.groups)
    ensures service != null ==> service.store == store && service.disk == disk && service.o == o
    ensures service != null ==> service.Valid() && service.InSync() && !service.supervisor.fatal
    ensures service != null ==>
              service.draft == store.RevisionOf(store.draft) && store.rows.Keys == {store.active, store.draft}
    ensures service != null ==> store.draft == if old(DraftGoes(store)) then store.active else old(store.draft)
    ensures service != null ==> store.rows[store.draft] == old(store.rows)[store.draft]
    // it gives up only over rules that were never resolved, or because something outside the program failed
    ensures service == null ==>
              || NeverStarts(store.rows[store.active].bundle)
              || store.faults + disk.faults > old(store.faults + disk.faults)
              || (booted != null && booted.faults > 0)
  {
    booted := null;
    hide Settled;
    var revisions := Recover(store, disk);
    if revisions.Failure? {
      return null, booted;
    }
    var (active, draft) := revisions.value;
    var prepared := disk.Prepare(active.id, active.bundle);
    if !prepared {
      return null, booted;
    }
    var supervisor := new Supervisor(nft);
    booted := supervisor;
    var fault := supervisor.Boot(active.id, active.bundle);
    if fault.Some? {
      return null, booted;
    }
    service := new Service(o, store, supervisor, disk, active, draft);
  }

  /** There are rules, but they were never resolved. */
  ghost predicate NeverStarts(b: Bundle) {
    b.resolved == [] && (b.rules.rules != [] || b.rules.imports != [])
  }

  /** What keeps a daemon from starting before anything is rendered. */
  datatype StartFault = Unread | NeverResolved | DraftStuck | NotPruned

  /** The draft failed, or neither its configuration nor its rules file differ from the active ones. */
  ghost predicate DraftGoes(store: Store)
    requires store.Valid()
    reads store
  {
    var active, draft := store.rows[store.active].bundle, store.rows[store.draft];
    draft.status == Failed || (draft.bundle.config == active.config && draft.bundle.rules == active.rules)
  }

  lemma SameStored(a: Bundle, b: Bundle)
    requires Settled(a) && Settled(b)
    ensures SameInput(a, b) <==> a.config == b.config && a.rules == b.rules
  {
    hide Config.ApplyDefaults, EnsureOptionalDefaults;
  }

  /** The steps of Run on the store and the directories: the active and the draft revision. */
  method Recover(store: Store, disk: Disk) returns (r: Result<(Revision, Revision), StartFault>)
    requires store.Valid()
    modifies store`draft, store`rows, store`faults, disk
    ensures store.Valid() && store.rows[store.active] == old(store.rows)[store.active]
    ensures r.Success? ==> r.value == (store.RevisionOf(store.active), store.RevisionOf(store.draft))
    ensures r.Success? ==> store.rows.Keys == {store.active, store.draft}
    // the draft goes if it failed or is the active input, else it stays as it was saved
    ensures r.Success? ==> store.draft == if old(DraftGoes(store)) then store.active else old(store.draft)
    ensures r.Success? ==> store.rows[store.draft] == old(store.rows)[store.draft]
    // and only the directories of the two stay, as they were
    ensures r.Success? ==> disk.dirs.Keys <= {store.active, store.draft}
    ensures r.Success? ==>
              KeepsDir(store.active, old(disk.dirs), disk.dirs) && KeepsDir(store.draft, old(disk.dirs), disk.dirs)
    // a revision with rules that were never resolved is not started
    ensures r == Failure(NeverResolved) ==> NeverStarts(store.rows[store.active].bundle)
    ensures NeverStarts(store.rows[store.active].bundle) ==> r.Failure?
    ensures r == Failure(DraftStuck) ==> old(DraftGoes(store))
    ensures r.Failure? && r.error != NeverResolved ==> store.faults + disk.faults > old(store.faults + disk.faults)
    ensures store.faults >= old(store.faults) && disk.faults >= old(disk.faults)
  {
    hide SameInput, Settled;
    SameStored(store.rows[store.active].bundle, store.rows[store.draft].bundle);
    var active := store.ReadActive();
    if active.Failure? {
      return Failure(Unread);
    }
    var bundle := active.value.bundle;
    if |bundle.resolved| == 0 && |bundle.rules.rules| + |bundle.rules.imports| > 0 {
      return Failure(NeverResolved);
    }
    var draft := store.ReadDraft();
    if draft.Failure? {
      return Failure(Unread);
    }
    if draft.value.status == Failed || SameInput(bundle, draft.value.bundle) {
      draft := store.ResetDraftToActive();
      if draft.Failure? {
        return Failure(DraftStuck);
      }
    }
    var pruned := store.PruneRevisions();
    if !pruned {
      return Failure(NotPruned);
    }
    pruned := disk.Prune({active.value.id, draft.value.id});
    r := if pruned then Success((active.value, draft.value)) else Failure(NotPruned);
  }

  // ---------------------------------------------------------------- what happened, and what it leaves true

  /** A start, a request that found no daemon, a saved draft, or an apply with the active row before and after. */
  datatype Event =
    | Started(up: bool)
    | Missed(request: Request)
    | Saved(request: Request)
    | Finished(request: Request, result: ApplyResult, unread: bool, before: nat, after: nat)

  /** Why an apply moved the active pointer, or did not. */
  ghost predicate Explained(e: Event) {
    e.Finished? ==>
      && (e.unread ==> e.after != e.before && !e.result.Applied?)
      && match e.result
         case Applied(changed, id, _) => e.after == id && (changed <==> e.after != e.before)
         case Rejected(error) =>
           && (e.after != e.before ==> e.unread || Uncleaned(error.cause))
           && (Uncleaned(error.cause) ==> !e.unread && error.rollback.None?)
         case Crashed => true
  }

  /** The apply put a new revision in charge: with success, or with nothing but a prune left undone. */
  predicate Renews(e: Event) {
    e.Finished? && !e.unread && !e.result.Crashed? && e.after != e.before
  }

  /** Whether tables, cache, runtime and disk agree after the event, given whether they did before. */
  predicate SyncAfter(e: Event, was: bool) {
    match e
    case Started(_) => true
    case Missed(_) => was
    case Saved(_) => was
    case Finished(_, result, unread, _, _) =>
      Renews(e) || (was && !unread && !result.Crashed? && (result.Rejected? ==> result.error.rollback.None?))
  }

  /** The same for the cache: a failed rollback does not matter, a lost read only if the draft was not reset. */
  predicate CacheAfter(e: Event, was: bool) {
    match e
    case Started(_) => true
    case Missed(_) => was
    case Saved(_) => was
    case Finished(_, result, unread, _, _) =>
      Renews(e) || (was && !result.Crashed? && (unread ==> result.Rejected? && result.error.restore != NotReset))
  }

  predicate UpAfter(e: Event, was: bool) {
    match e
    case Started(up) => up
    case Missed(_) => false
    case Saved(_) => was
    case Finished(_, result, _, _, _) => was && !result.Crashed?
  }

  predicate SyncAt(log: seq<Event>) {
    log == [] || SyncAfter(log[|log| - 1], SyncAt(log[..|log| - 1]))
  }

  predicate CacheAt(log: seq<Event>) {
    log == [] || CacheAfter(log[|log| - 1], CacheAt(log[..|log| - 1]))
  }

  predicate UpAt(log: seq<Event>) {
    log != [] && UpAfter(log[|log| - 1], UpAt(log[..|log| - 1]))
  }

  /** The requests in the log. */
  function RequestsOf(log: seq<Event>): seq<Request> {
    if log == [] then []
    else
      var e := log[|log| - 1];
      RequestsOf(log[..|log| - 1]) + if e.Started? then [] else [e.request]
  }

  /** Only applies move the active pointer, and each takes it from where the one before left it. */
  predicate Leads(log: seq<Event>, from: nat, to: nat) {
    if log == [] then from == to
    else
      var e := log[|log| - 1];
      if e.Finished? then e.after == to && Leads(log[..|log| - 1], from, e.before)
      else Leads(log[..|log| - 1], from, to)
  }

  lemma OneMore(log: seq<Event>, e: Event, from: nat, to: nat)
    ensures SyncAt(log + [e]) == SyncAfter(e, SyncAt(log)) && CacheAt(log + [e]) == CacheAfter(e, CacheAt(log))
    ensures UpAt(log + [e]) == UpAfter(e, UpAt(log)) && (!e.Finished? ==> Explained(e))
    ensures RequestsOf(log + [e]) == RequestsOf(log) + if e.Started? then [] else [e.request]
    ensures Leads(log + [e], from, to) <==>
            if e.Finished? then e.after == to && Leads(log, from, e.before) else Leads(log, from, to)
  {
    hide SyncAfter, CacheAfter, UpAfter;
    assert (log + [e])[..|log|] == log;
  }

  /** An apply leaves agreement always with a change, else if there was some and neither read nor rollback failed. */
  lemma AppliesAgree(e: Event, was: bool)
    requires e.Finished? && Explained(e)
    ensures e.result.Applied? && e.result.changed ==> SyncAfter(e, was) && CacheAfter(e, was)
    ensures e.result.Applied? && !e.result.changed ==> SyncAfter(e, was) == CacheAfter(e, was) == was
    ensures e.result.Rejected? && Uncleaned(e.result.error.cause) && e.after != e.before ==> SyncAfter(e, was)
    ensures e.result.Rejected? && !e.unread && e.result.error.rollback.None? && was ==> SyncAfter(e, was)
    ensures e.result.Rejected? && !e.unread && was ==> CacheAfter(e, was)
    ensures e.result.Crashed? ==> !SyncAfter(e, was) && !CacheAfter(e, was) && !UpAfter(e, true)
  {
  }

  /** The objects of a service besides the store and the disk. */
  ghost function Footprint(service: Service?): set<object>
    reads if service == null then {} else {service.supervisor}
  {
    if service == null then {} else {service, service.supervisor} + service.supervisor.groups
  }

  ghost predicate Wired(service: Service?, store: Store, disk: Disk)
    reads Footprint(service), if service == null then {} else {service.supervisor}
  {
    service != null ==> service.store == store && service.disk == disk && service.supervisor.Valid()
  }

  /** The log tells of these requests, accounts for every move of the active pointer, and says what holds now. */
  ghost predicate Tells(log: seq<Event>, requests: seq<Request>, from: nat, store: Store, service: Service?)
    reads store, if service == null then {} else {service, service.store, service.supervisor, service.disk}
    reads if service == null then {} else {service.supervisor.current}
  {
    && RequestsOf(log) == requests && Leads(log, from, store.active)
    && (forall e :: e in log ==> Explained(e)) && (service != null <==> UpAt(log))
    && (service != null && SyncAt(log) ==> service.InSync())
    && (service != null && CacheAt(log) ==> service.Cached())
  }

  /** The daemon goes on idle, or ends and starts again. */
  method Await(o: Outside, store: Store, disk: Disk, service: Service?, ghost log: seq<Event>,
      ghost requests: seq<Request>, ghost from: nat)
      returns (now: Service?, ghost longer: seq<Event>)
    requires store.Valid() && Wired(service, store, disk) && Tells(log, requests, from, store, service)
    modifies store, disk, Footprint(service)
    ensures store.Valid() && Wired(now, store, disk) && fresh(Footprint(now) - old(Footprint(service)))
    ensures Tells(longer, requests, from, store, now)
  {
    hide SyncAt, CacheAt, UpAt, RequestsOf, Leads, Explained, Settled;
    var ended: bool := *;
    if service == null || ended {
      var nft: Option<nat> := Any();
      ghost var booted;
      now, booted := Start(o, store, disk, nft);
      OneMore(log, Started(now != null), from, store.active);
      longer := log + [Started(now != null)];
    } else {
      service.Interleave();
      now, longer := service, log;
    }
  }

  /** The daemon, if it is up, serves a request. */
  method Respond(store: Store, disk: Disk, service: Service?, request: Request, ghost log: seq<Event>,
      ghost requests: seq<Request>, ghost from: nat)
      returns (now: Service?, ghost longer: seq<Event>)
    requires store.Valid() && Wired(service, store, disk) && Tells(log, requests, from, store, service)
    requires WellFormed(request)
    modifies store, disk, Footprint(service)
    ensures store.Valid() && Wired(now, store, disk) && fresh(Footprint(now) - old(Footprint(service)))
    ensures Tells(longer, requests + [request], from, store, now)
  {
    hide SyncAt, CacheAt, UpAt, RequestsOf, Leads, Explained, SyncAfter, CacheAfter, WellFormed, Settled;
    hide Service.InSync, Service.Cached;
    ghost var event := Missed(request);
    now := service;
    if service != null {
      var died;
      died, event := Serve(service, request);
      if died {
        now := null;
      }
    }
    SyncMonotone(event);
    OneMore(log, event, from, store.active);
    longer := log + [event];
  }

  lemma SyncMonotone(e: Event)
    ensures SyncAfter(e, false) ==> SyncAfter(e, true)
    ensures CacheAfter(e, false) ==> CacheAfter(e, true)
  {
  }

  /**
    Any number of requests. Before each the daemon may have crashed, or ended on a fatal error or by itself, and
    starts again over any loaded rules; else drafts may have been saved and processes ended while it was idle. The
    log tells of every request, accounts for every move of the active pointer, and says what holds at the end.
    */
  method Lifetime(o: Outside, store: Store, disk: Disk, requests: seq<Request>)
      returns (service: Service?, ghost log: seq<Event>)
    requires store.Valid() && forall k :: 0 <= k < |requests| ==> WellFormed(requests[k])
    modifies store, disk
    ensures store.Valid() && Wired(service, store, disk)
    ensures Tells(log, requests, old(store.active), store, service)
  {
    hide Tells, WellFormed, Settled, Store.Valid;
    service, log := null, [];
    NothingYet(store);
    for k := 0 to |requests|
      invariant store.Valid() && Wired(service, store, disk) && fresh(Footprint(service))
      invariant Tells(log, requests[..k], old(store.active), store, service)
    {
      assert requests[..k + 1] == requests[..k] + [requests[k]];
      service, log := Await(o, store, disk, service, log, requests[..k], old(store.active));
      service, log := Respond(store, disk, service, requests[k], log, requests[..k], old(store.active));
    }
    assert requests[..|requests|] == requests;
  }

  lemma NothingYet(store: Store)
    ensures Tells([], [], store.active, store, null)
  {
  }

  /** One request; an apply is logged with what it returned and with the active row before and after. */
  method Serve(service: Service, request: Request) returns (died: bool, ghost event: Event)
    requires service.Valid() && WellFormed(request)
    modifies service, service.store, service.supervisor, service.supervisor.groups, service.disk
    ensures service.Valid() && fresh(service.supervisor.groups - old(service.supervisor.groups))
    ensures request.SaveRequest? ==> event == Saved(request) && service.store.active == old(service.store.active)
    ensures request.ApplyRequest? ==> event.Finished? && event.request == request
    ensures event.Finished? ==> event.before == old(service.store.active) && event.after == service.store.active
    ensures Explained(event) && (died <==> event.Finished? && event.result.Crashed?)
    ensures SyncAfter(event, old(service.InSync())) ==> service.InSync()
    ensures CacheAfter(event, old(service.Cached())) ==> service.Cached()
    ensures event.Finished? && event.result.Applied? ==>
              var now, input := service.store.rows[service.store.active].bundle, request.bundle;
              now.config == Config.ApplyDefaults(input.config) && now.rules == WithOptional(input)
    ensures event.Finished? && event.result.Applied? && !event.result.changed ==>
              var was, input := old(service.store.rows[service.store.active].bundle), request.bundle;
              was.config == Config.ApplyDefaults(input.config) && was.rules == WithOptional(input)
    ensures event.Finished? && !event.result.Applied? && service.Faults() == old(service.Faults()) ==>
              event.result.Rejected? && event.result.error.cause.Input?
    ensures event.Finished? && event.result.Rejected? && event.result.error.rollback.Some? &&
              !service.supervisor.fatal ==>
              service.supervisor.Running() && service.supervisor.current.root >= old(service.store.next)
  {
    hide Settled, CameFrom, Service.Faults, Supervisor.Valid, Supervisor.Running, WithOptional, Config.ApplyDefaults,
        Resolve, ManagedFault, LocalRulesCurrent;
    match request {
      case SaveRequest(bundle) =>
        Save(service, bundle);
        died, event := false, Saved(request);
      case ApplyRequest(bundle, arrival) =>
        var result, unread := service.ApplyBundle(bundle, arrival);
        died := result.Crashed?;
        event := Finished(request, result, unread, old(service.store.active), service.store.active);
    }
  }

  /** A save, which leaves what the active row agrees with. */
  method Save(service: Service, bundle: Bundle)
    requires service.Valid()
    modifies service`draft, service.store
    ensures service.Valid() && service.store.active == old(service.store.active)
    ensures old(service.InSync()) ==> service.InSync()
    ensures old(service.Cached()) ==> service.Cached()
  {
    hide Settled, CameFrom, Supervisor.Valid;
    var _ := service.SaveDraft(bundle);
  }

  /** Applying a bundle that has just been applied changes nothing and never touches the runtime. */
  method ApplyTwice(service: Service, bundle: Bundle, first: seq<nat>, second: seq<nat>)
    returns (one: ApplyResult, two: ApplyResult, ghost group: ProcessGroup?, ghost nft: Option<nat>,
        ghost stopped: bool)
    requires service.Valid() && ArrivesOnce(first, |bundle.rules.imports|) &&
               ArrivesOnce(second, |bundle.rules.imports|)
    modifies service, service.store, service.supervisor, service.supervisor.groups, service.disk
    ensures one.Applied? && two.Applied? ==> !two.changed && two.id == one.id
    ensures one.Applied? ==> service.store.active == one.id
    ensures service.Valid()
    ensures one.Applied? || two.Applied? ==>
              var now := service.store.rows[service.store.active].bundle;
              now.config == Config.ApplyDefaults(bundle.config) && now.rules == WithOptional(bundle)
    ensures one.Applied? ==> service.supervisor.current == group && service.supervisor.nft == nft
    ensures one.Applied? && group != null ==> group.stopped == stopped
    ensures one.Applied? && one.changed ==> group != null && group.root == one.id && nft == Some(one.id)
  {
    hide SameInput, Settled;
    ghost var unread;
    one, unread := service.ApplyBundle(bundle, first);
    group, nft := service.supervisor.current, service.supervisor.nft;
    stopped := group != null && group.stopped;
    two, unread := service.ApplyBundle(bundle, second);
  }
}
