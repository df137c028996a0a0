/**
  The revision store: two tables changed by transactions. A transaction either happens or fails without
  effect; a read that follows one may fail after it happened. Row ids are never used twice. Bundles get
  their defaults before they are stored, so the defaults that a read applies again change nothing.
  */
module Store {
  import opened Text
  import opened Bundles

  datatype Status = Draft | Active | Superseded | Failed

  datatype Row = Row(status: Status, bundle: Bundle)

  datatype Revision = Revision(id: nat, status: Status, bundle: Bundle)

  datatype StoreError = InvalidConfig | NoTransaction | NoRead | NotFound

  class Store {
    var rows: map<nat, Row>
    var active: nat
    var draft: nat
    var next: nat
    var faults: nat    // how often a transaction or a read has failed

    /** Both pointers have rows, exactly one row is active, the active pointer's, and all rows have their defaults. */
    ghost predicate Valid()
      reads this
    {
      && active in rows && draft in rows
      && rows[active].status == Active
      && (forall id :: id in rows && rows[id].status == Active ==> id == active)
      && (forall id :: id in rows ==> id < next && Settled(rows[id].bundle))
    }

    /** The revision that a row holds. */
    function RevisionOf(id: nat): Revision
      requires id in rows
      reads this
    {
      Revision(id, rows[id].status, rows[id].bundle)
    }

    /** Store.Initialize, on an empty database. */
    constructor (bundle: Bundle)
      ensures Valid() && active == draft && rows == map[active := Row(Active, ApplyDefaults(bundle))] && faults == 0
    {
      DefaultsIdempotent(bundle);
      rows, active, draft, next := map[1 := Row(Active, ApplyDefaults(bundle))], 1, 1, 2;
      faults := 0;
    }

    /** Store.Active. */
    method ReadActive() returns (r: Result<Revision, StoreError>)
      requires Valid()
      modifies this`faults
      ensures Valid() && r == if faults == old(faults) then Success(RevisionOf(active)) else Failure(NoRead)
      ensures faults >= old(faults)
    {
      hide Settled;
      var ok: bool := *;
      if !ok {
        faults := faults + 1;
        return Failure(NoRead);
      }
      r := Success(Revision(active, rows[active].status, rows[active].bundle));
    }

    /** Store.Draft. */
    method ReadDraft() returns (r: Result<Revision, StoreError>)
      requires Valid()
      modifies this`faults
      ensures Valid() && r == if faults == old(faults) then Success(RevisionOf(draft)) else Failure(NoRead)
      ensures faults >= old(faults)
    {
      hide Settled;
      var ok: bool := *;
      if !ok {
        faults := faults + 1;
        return Failure(NoRead);
      }
      r := Success(Revision(draft, rows[draft].status, rows[draft].bundle));
    }

    /** Store.SaveDraft: one new row under a fresh id, which the draft pointer takes. */
    method SaveDraft(o: Outside, bundle: Bundle) returns (r: Result<Revision, StoreError>)
      requires Valid()
      modifies this
      ensures Valid() && active == old(active)
      ensures r.Failure? ==> rows == old(rows) && draft == old(draft) && next == old(next)
      ensures r.Success? ==> r.value == Revision(old(next), Draft, ApplyDefaults(bundle)) && draft == old(next)
      ensures r.Success? ==> rows == old(rows)[old(next) := Row(Draft, ApplyDefaults(bundle))] && next == old(next) + 1
      ensures !o.validConfig(ApplyDefaults(bundle).config) ==> r == Failure(InvalidConfig)
      ensures o.validConfig(ApplyDefaults(bundle).config) ==> (r.Success? <==> faults == old(faults))
      ensures faults >= old(faults)
    {
      hide ApplyDefaults;
      var full := ApplyDefaults(bundle);
      if !o.validConfig(full.config) {
        return Failure(InvalidConfig);
      }
      var ok: bool := *;
      if !ok {
        faults := faults + 1;
        return Failure(NoTransaction);
      }
      DefaultsIdempotent(bundle);
      var id := next;
      rows, draft, next := rows[id := Row(Draft, full)], id, id + 1;
      r := Success(Revision(id, Draft, full));
    }

    /** Store.Activate: fully done or not done; `done` says which, since the read after it may fail on its own. */
    method Activate(id: nat) returns (r: Result<Revision, StoreError>, ghost done: bool)
      requires Valid()
      modifies this
      ensures Valid() && next == old(next)
      ensures id !in old(rows) ==> !done && r.Failure?
      ensures r == Failure(NotFound) ==> id !in old(rows)
      ensures faults >= old(faults) && (id in old(rows) ==> (r.Success? <==> faults == old(faults)))
      ensures r.Success? ==> done && r.value == RevisionOf(active)
      ensures done ==> active == id && draft == id && rows.Keys == old(rows).Keys
      ensures done ==> forall i :: i in rows ==> rows[i].bundle == old(rows)[i].bundle
      ensures done ==> forall i :: i in rows && i != id ==>
                rows[i].status == if old(rows)[i].status == Active then Superseded else old(rows)[i].status
      ensures !done ==> rows == old(rows) && active == old(active) && draft == old(draft)
    {
      hide Settled;
      var ok: bool := *;
      if !ok {
        faults := faults + 1;
        return Failure(NoTransaction), false;
      }
      if id !in rows {
        return Failure(NotFound), false;
      }
      rows := map i | i in rows :: if i == id then rows[i].(status := Active)
                                   else if rows[i].status == Active then rows[i].(status := Superseded) else rows[i];
      active, draft := id, id;
      r := ReadActive();
      done := true;
    }

    /** Store.ResetDraftToActive. */
    method ResetDraftToActive() returns (r: Result<Revision, StoreError>)
      requires Valid()
      modifies this`draft, this`faults
      ensures Valid() && faults >= old(faults) && (r.Success? <==> faults == old(faults))
      ensures draft == old(draft) || draft == active
      ensures r.Success? ==> draft == active && r.value == RevisionOf(active)
    {
      hide Settled;
      var ok: bool := *;
      if !ok {
        faults := faults + 1;
        return Failure(NoTransaction);
      }
      draft := active;
      r := ReadActive();
    }

    /** Store.PruneRevisions: only the rows of the two pointers stay. */
    method PruneRevisions() returns (ok: bool)
      requires Valid()
      modifies this`rows, this`faults
      ensures Valid() && faults >= old(faults) && (ok <==> faults == old(faults))
      ensures rows == if ok then map id | id in {active, draft} :: old(rows)[id] else old(rows)
    {
      hide Settled;
      ok := *;
      if ok {
        rows := map id | id in {active, draft} :: rows[id];
      } else {
        faults := faults + 1;
      }
    }

    /** Store.Fail. */
    method Fail(id: nat) returns (ok: bool)
      requires Valid()
      modifies this`rows, this`faults
      ensures id != active ==> Valid()
      ensures faults >= old(faults) && (!ok ==> faults > old(faults))
      ensures rows == if ok && id in old(rows) then old(rows)[id := old(rows)[id].(status := Failed)] else old(rows)
    {
      hide Settled;
      ok := *;
      if !ok {
        faults := faults + 1;
      } else if id in rows {
        rows := rows[id := rows[id].(status := Failed)];
      }
    }
  }
}
