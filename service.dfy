/**
 * The lifecycle service over one store: create, read, status update and delete.
 * The same service serves cases and tasks; `Extra` is the entity's own fields.
 * Clock readings arrive as parameters, one per call the code makes to the clock.
 */
module Services {
  import opened Wrappers
  import opened Models
  import opened Store

  /** What a service call returns, together with the store it leaves behind. */
  datatype Outcome<T, X> = Outcome(result: T, store: StoreState<X>)

  /** The entity `createCase` hands to `save`: the caller's fields, with both dates taken from the clock. */
  function WithDates<X>(e: Record<X>, createdAt: Timestamp, updatedAt: Timestamp): (r: Record<X>)
    ensures r.createdDate == Some(createdAt) && r.updatedDate == Some(updatedAt)
    ensures r.(createdDate := e.createdDate, updatedDate := e.updatedDate) == e
  {
    e.(createdDate := Some(createdAt)).(updatedDate := Some(updatedAt))
  }

  /** The effect of `createCase`: the dated entity goes through `save`, with its id rules. */
  function CreateOutcome<X>(s: StoreState<X>, e: Record<X>, createdAt: Timestamp, updatedAt: Timestamp): (o: Outcome<Record<X>, X>)
    ensures o.result.id.Some? && o.result.id.value in o.store.records && o.store.records[o.result.id.value] == o.result
    ensures o.result.createdDate == Some(createdAt) && o.result.updatedDate == Some(updatedAt)
    ensures o.result.(id := e.id, createdDate := e.createdDate, updatedDate := e.updatedDate) == e
    ensures e.id.None? ==> o.result.id == Some(s.nextId) && o.store.nextId == s.nextId + 1
    ensures e.id.Some? ==> o.result.id == e.id && o.store.nextId == s.nextId
    ensures e.id.None? && KeysBelowCounter(s) ==> o.result.id.value !in s.records
    ensures forall k :: k in s.records && k != o.result.id.value ==> k in o.store.records && o.store.records[k] == s.records[k]
    ensures o.store.records.Keys == s.records.Keys + {o.result.id.value}
  {
    var d := WithDates(e, createdAt, updatedAt);
    Outcome(Stamped(s, d), Saved(s, d))
  }

  /** The entity `updateCaseStatus` saves: only `status` and `updatedDate` differ from `e`. */
  function WithStatus<X>(e: Record<X>, status: string, now: Timestamp): (r: Record<X>)
    ensures r.status == Some(status) && r.updatedDate == Some(now)
    ensures r.(status := e.status, updatedDate := e.updatedDate) == e
  {
    e.(status := Some(status)).(updatedDate := Some(now))
  }

  /** The effect of `updateCaseStatus`: absent result and no change when the id is unknown. */
  function StatusUpdated<X>(s: StoreState<X>, id: int, status: string, now: Timestamp): (o: Outcome<Option<Record<X>>, X>)
    ensures id !in s.records ==> o.result.None? && o.store == s
    ensures Wellformed(s) && id in s.records ==>
      && o.result == Some(WithStatus(s.records[id], status, now))
      && o.store == StoreState(s.records[id := o.result.value], s.nextId)
  {
    if id in s.records then
      var u := WithStatus(s.records[id], status, now);
      Outcome(Some(Stamped(s, u)), Saved(s, u))
    else
      Outcome(None, s)
  }

  /** The effect of `deleteCase`: true exactly when the id was stored, and afterwards it is not. */
  function DeleteReported<X>(s: StoreState<X>, id: int): (o: Outcome<bool, X>)
    ensures o.result <==> id in s.records
    ensures id !in o.store.records
    ensures o.store.records.Keys == s.records.Keys - {id}
    ensures forall k :: k in o.store.records ==> o.store.records[k] == s.records[k]
    ensures o.store.nextId == s.nextId
    ensures !o.result ==> o.store == s
  {
    if id in s.records then Outcome(true, Deleted(s, id)) else Outcome(false, s)
  }

  /** Deleting the same id twice: the second call reports false and changes nothing. */
  lemma DeleteTwice<X>(s: StoreState<X>, id: int)
    ensures !DeleteReported(DeleteReported(s, id).store, id).result
    ensures DeleteReported(DeleteReported(s, id).store, id).store == DeleteReported(s, id).store
  {
  }

  /**
   * A status update followed by a lookup of the same id sees the new status, while
   * a lookup of any other id sees what it saw before; an unknown id stays unknown.
   */
  lemma UpdateThenLookup<X>(s: StoreState<X>, id: int, status: string, now: Timestamp, other: int)
    requires Wellformed(s)
    ensures var o := StatusUpdated(s, id, status, now);
      && (id in o.store.records <==> id in s.records)
      && (id in s.records ==> o.store.records[id].status == Some(status) && o.store.records[id].id == Some(id))
      && (other != id ==> (other in o.store.records <==> other in s.records))
      && (other != id && other in s.records ==> o.store.records[other] == s.records[other])
  {
  }

  /** The lifecycle service: every call goes through the one store it was built with. */
  class LifecycleService<X> {
    const repo: Repository<X>

    ghost predicate Valid()
      reads this, repo
    {
      repo.Valid()
    }

    constructor (repo: Repository<X>)
      ensures this.repo == repo
    {
      this.repo := repo;
    }

    /** Dates the entity from two clock readings and saves it once. */
    method Create(entity: Record<X>, createdAt: Timestamp, updatedAt: Timestamp) returns (saved: Record<X>)
      requires Valid()
      modifies repo
      ensures Valid()
      ensures var o := CreateOutcome(old(repo.State()), entity, createdAt, updatedAt);
        saved == o.result && repo.State() == o.store
    {
      var e := entity.(createdDate := Some(createdAt));
      e := e.(updatedDate := Some(updatedAt));
      saved := repo.Save(e);
    }

    /** The store's record under `id`, unchanged. */
    method GetById(id: int) returns (found: Option<Record<X>>)
      ensures found.Some? <==> id in repo.records
      ensures found.Some? ==> found.value == repo.records[id]
    {
      found := repo.FindById(id);
    }

    /** The store's list of all records, unchanged. */
    method GetAll() returns (all: seq<Record<X>>)
      requires Valid()
      ensures Lists(repo.records, all)
    {
      all := repo.FindAll();
    }

    /** Sets the status and the update date of a stored record and saves it; absent when the id is unknown. */
    method UpdateStatus(id: int, status: string, now: Timestamp) returns (updated: Option<Record<X>>)
      requires Valid()
      modifies repo
      ensures Valid()
      ensures var o := StatusUpdated(old(repo.State()), id, status, now);
        updated == o.result && repo.State() == o.store
    {
      var found := repo.FindById(id);
      if found.Some? {
        var e := found.value.(status := Some(status));
        e := e.(updatedDate := Some(now));
        var saved := repo.Save(e);
        return Some(saved);
      }
      return None;
    }

    /** Removes the record under `id` when there is one, and says whether there was. */
    method Delete(id: int) returns (deleted: bool)
      requires Valid()
      modifies repo
      ensures Valid()
      ensures var o := DeleteReported(old(repo.State()), id);
        deleted == o.result && repo.State() == o.store
    {
      var present := repo.ExistsById(id);
      if present {
        repo.DeleteById(id);
        return true;
      }
      return false;
    }
  }
}
