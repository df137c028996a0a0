/**
  The coordinator of apply operations, stepped by the goroutines it starts, and the panel's loop that
  sends one operation again and again until it has an answer. `launches` lists the ids for which
  ApplyBundle has been started since the daemon started, in order.
  */
module ApplyOperations {
  import opened Text
  import opened World

  datatype Status = Queued | Running | Succeeded | Failed

  datatype Outcome = Outcome(changed: bool, revision: nat, rules: nat)

  datatype Operation = Operation(id: string, status: Status, outcome: Option<Outcome>, error: string)

  datatype Refusal = BadId | InProgress | Unknown

  /** A goroutine of `run`: not yet at its first lock, or in ApplyBundle. */
  datatype Job = Spawned(id: string) | Applying(id: string)

  predicate Terminal(status: Status) {
    status == Succeeded || status == Failed
  }

  /** How far an operation is. */
  function Stage(status: Status): nat {
    match status
    case Queued => 0
    case Running => 1
    case Succeeded => 2
    case Failed => 2
  }

  class Coordinator {
    const validId: string -> bool
    var latest: Option<Operation>
    var jobs: map<nat, Job>
    var launches: seq<string>

    constructor (validId: string -> bool)
      ensures Valid() && latest == None && jobs == map[] && launches == []
    {
      this.validId, latest, jobs, launches := validId, None, map[], [];
    }

    /** At most one goroutine, and the latest record is its own and says how far it is. */
    ghost predicate Valid()
      reads this
    {
      && (forall t :: t in jobs ==> t == |launches| - 1 && jobs[t].id == launches[t])
      && (latest.None? <==> launches == [])
      && (latest.Some? ==> latest.value.id == launches[|launches| - 1])
      && (latest.Some? && !Terminal(latest.value.status) <==> |launches| - 1 in jobs)
      && (forall t :: t in jobs ==> latest.value.status == if jobs[t].Spawned? then Queued else Running)
      && (forall i :: 0 < i < |launches| ==> launches[i - 1] != launches[i])
    }

    /** Goroutines in ApplyBundle. */
    ghost function InFlight(): set<nat>
      reads this
    {
      set t | t in jobs && jobs[t].Applying?
    }

    lemma AtMostOneInFlight()
      requires Valid()
      ensures |InFlight()| <= 1
    {
      if InFlight() != {} {
        assert InFlight() == {|launches| - 1};
      }
    }

    /** begin: a known id gets its record, a busy coordinator refuses, anything else starts a goroutine. */
    method Begin(id: string) returns (r: Result<(Operation, bool), Refusal>)
      requires Valid()
      modifies this
      ensures Valid()
      ensures r == Failure(BadId) <==> !validId(id)
      ensures validId(id) && Knows(old(latest), id) ==> r == Success((old(latest).value, false))
      ensures validId(id) && !Knows(old(latest), id) && Busy(old(latest)) ==> r == Failure(InProgress)
      ensures validId(id) && !Knows(old(latest), id) && !Busy(old(latest)) ==>
                r == Success((Operation(id, Queued, None, ""), true)) && latest == Some(r.value.0)
      ensures if r.Success? && r.value.1
              then launches == old(launches) + [id] && jobs == old(jobs)[|old(launches)| := Spawned(id)]
              else launches == old(launches) && jobs == old(jobs) && latest == old(latest)
    {
      if !validId(id) {
        return Failure(BadId);
      }
      if latest.Some? && latest.value.id == id {
        return Success((latest.value, false));
      }
      if latest.Some? && !Terminal(latest.value.status) {
        return Failure(InProgress);
      }
      var operation := Operation(id, Queued, None, "");
      latest := Some(operation);
      jobs := jobs[|launches| := Spawned(id)];
      launches := launches + [id];
      r := Success((operation, true));
    }

    /** status: only the operation started last has a record; it has ended exactly when no goroutine is left. */
    method GetStatus(id: string) returns (r: Result<Operation, Refusal>)
      requires Valid()
      ensures r.Success? <==> validId(id) && launches != [] && launches[|launches| - 1] == id
      ensures r.Success? ==> r.value.id == id && (Terminal(r.value.status) <==> jobs == map[])
      ensures r.Success? ==> (r.value.status == Running <==> InFlight() == {|launches| - 1}) && latest == Some(r.value)
      ensures r.Failure? ==> r.error == if validId(id) then Unknown else BadId
    {
      if !validId(id) {
        return Failure(BadId);
      }
      if latest.None? || latest.value.id != id {
        return Failure(Unknown);
      }
      if jobs.Keys == {} {
        assert jobs == map[];
      }
      r := Success(latest.value);
    }

    /** The first lock of run: whatever record is latest becomes running; it is the goroutine's own. */
    method RunStart(t: nat)
      requires Valid() && t in jobs && jobs[t].Spawned?
      modifies this`latest, this`jobs
      ensures Valid() && jobs == old(jobs)[t := Applying(old(jobs)[t].id)]
      ensures Knows(old(latest), old(jobs)[t].id) && old(latest).value.status == Queued
      ensures latest == Some(old(latest).value.(status := Running))
    {
      latest := Some(latest.value.(status := Running));
      jobs := jobs[t := Applying(jobs[t].id)];
    }

    /** The second lock of run, with what ApplyBundle returned. */
    method RunFinish(t: nat, result: Result<Outcome, string>)
      requires Valid() && t in jobs && jobs[t].Applying?
      modifies this`latest, this`jobs
      ensures Valid() && jobs == old(jobs) - {t}
      ensures Knows(old(latest), old(jobs)[t].id) && old(latest).value.status == Running
      ensures match result
              case Failure(error) => latest == Some(old(latest).value.(status := Failed, error := error))
              case Success(outcome) => latest == Some(old(latest).value.(status := Succeeded, outcome := Some(outcome)))
    {
      match result {
        case Failure(error) =>
          latest := Some(latest.value.(status := Failed, error := error));
        case Success(outcome) =>
          latest := Some(latest.value.(status := Succeeded, outcome := Some(outcome)));
      }
      jobs := jobs - {t};
    }

    /** The daemon starts again. */
    method Restart()
      modifies this
      ensures Valid() && latest == None && launches == [] && jobs == map[]
    {
      latest, jobs, launches := None, map[], [];
    }
  }

  predicate Knows(latest: Option<Operation>, id: string) {
    latest.Some? && latest.value.id == id
  }

  predicate Busy(latest: Option<Operation>) {
    latest.Some? && latest.value.status in {Queued, Running}
  }

  /** The record is the one before, moved on. */
  ghost predicate Follows(before: Option<Operation>, after: Option<Operation>) {
    || before == after
    || (before.Some? && after.Some? && after.value.id == before.value.id &&
        Stage(before.value.status) < Stage(after.value.status))
  }

  /**
    What goroutines and other clients do between two requests of a client, in any number of steps. `alone` says that
    nobody uses another id and the daemon does not restart; requests with the client's own id may still be on the way.
    */
  method Others(c: Coordinator, id: string, alone: bool)
    requires c.Valid()
    modifies c
    ensures c.Valid()
    ensures alone ==> OnlyOwn(old(c.launches), c.launches, id)
    ensures alone && c.launches == old(c.launches) ==> Follows(old(c.latest), c.latest)
  {
    var steps: nat := Any();
    for n := 0 to steps
      invariant c.Valid()
      invariant alone ==> OnlyOwn(old(c.launches), c.launches, id)
      invariant alone && c.launches == old(c.launches) ==> Follows(old(c.latest), c.latest)
    {
      if {
        case true =>
          var posted: string := Any();
          var _ := c.Begin(if alone then id else posted);
        case !alone =>
          c.Restart();
        case exists t :: t in c.jobs && c.jobs[t].Spawned? =>
          var t :| t in c.jobs && c.jobs[t].Spawned?;
          c.RunStart(t);
        case exists t :: t in c.jobs && c.jobs[t].Applying? =>
          var t :| t in c.jobs && c.jobs[t].Applying?;
          var result: Result<Outcome, string> := Any();
          c.RunFinish(t, result);
      }
    }
  }

  /** At most one launch was added, for this id, and none when the last launch was already for it. */
  ghost predicate OnlyOwn(before: seq<string>, after: seq<string>, id: string) {
    after == before || (after == before + [id] && (before == [] || before[|before| - 1] != id))
  }

  datatype Answer = Done(operation: Operation) | Thrown | Waiting

  /**
    One turn of waitForApply: post, or ask for the status once an answer has come; `known` says that one has. Either
    message may be lost on its way.
    */
  method Attempt(c: Coordinator, id: string, submitted: bool, requestLost: bool, responseLost: bool)
      returns (answer: Answer, known: bool)
    requires c.Valid()
    modifies c
    ensures c.Valid() && OnlyOwn(old(c.launches), c.launches, id)
    // a post that arrives may start the apply; asking changes nothing, and nothing else does
    ensures submitted || requestLost || !c.validId(id) ==> c.latest == old(c.latest) && c.launches == old(c.launches)
    ensures !submitted && !requestLost && c.validId(id) && !Busy(old(c.latest)) ==>
              c.latest.Some? && c.latest.value.id == id
    // without an answer it waits and does the same again
    ensures requestLost || responseLost ==> answer == Waiting && known == submitted
    // an answer ends it or is awaited further, by posting again when the operation is not known any more
    ensures !requestLost && !responseLost ==>
              if !c.validId(id) then answer == Thrown
              else if c.latest.Some? && c.latest.value.id == id then
                match c.latest.value.status
                case Succeeded => answer == Done(c.latest.value)
                case Failed => answer == Thrown
                case _ => answer == Waiting && known
              else if submitted then answer == Waiting && !known
              else answer == Thrown && Busy(c.latest)
  {
    answer, known := Waiting, submitted;
    if requestLost {
      return;
    }
    var response: Result<Operation, Refusal>;
    if submitted {
      response := c.GetStatus(id);
    } else {
      var begun := c.Begin(id);
      response := if begun.Success? then Success(begun.value.0) else Failure(begun.error);
    }
    if responseLost {
      return;
    }
    match response {
      case Success(operation) =>
        known := true;
        if operation.status == Succeeded {
          answer := Done(operation);
        } else if operation.status == Failed {
          answer := Thrown;
        }
      case Failure(refusal) =>
        if refusal != Unknown {
          answer := Thrown;
        }
        known := false;
    }
  }

  /**
    waitForApply, for any number of turns: post until an answer arrives, then ask for the status, and post
    again when the operation is unknown. Requests and responses may be lost.
    */
  method WaitForApply(c: Coordinator, id: string, alone: bool, turns: nat) returns (answer: Answer)
    requires c.Valid()
    modifies c
    ensures c.Valid()
    ensures alone ==> OnlyOwn(old(c.launches), c.launches, id)
    ensures answer.Done? ==> answer.operation.id == id && answer.operation.status == Succeeded
    // it throws for an apply of its own that failed, while another is under way, or for an id that is none
    ensures answer.Thrown? ==>
              || !c.validId(id)
              || (c.latest.Some? && c.latest.value.id == id && c.latest.value.status == Failed)
              || (c.latest.Some? && c.latest.value.id != id && c.latest.value.status in {Queued, Running})
    ensures answer.Done? && alone ==> c.latest == Some(answer.operation) && c.launches[|c.launches| - 1] == id
  {
    var submitted := false;
    answer := Waiting;
    for turn := 0 to turns
      invariant c.Valid() && answer == Waiting
      invariant alone ==> OnlyOwn(old(c.launches), c.launches, id)
    {
      Others(c, id, alone);
      var requestLost: bool, responseLost: bool := *, *;
      answer, submitted := Attempt(c, id, submitted, requestLost, responseLost);
      if answer != Waiting {
        return;
      }
    }
  }
}
