/**
 * The in-memory entity store: a table from ids to records and an id generator
 * that starts at 1. `StoreState` and the functions over it are the specification;
 * `Repository` is the mutable store, each method tied to one of those functions.
 */
module Store {
  import opened Wrappers
  import opened Models

  /** The abstract value of a store: its table and the next value of its id generator. */
  datatype StoreState<X> = StoreState(records: map<int, Record<X>>, nextId: int)

  /** A freshly constructed store: no records, generator at 1. */
  function Initial<X>(): StoreState<X>
  {
    StoreState(map[], 1)
  }

  /** Every record is filed under its own id, and the generator has not gone below its start. */
  ghost predicate Wellformed<X>(s: StoreState<X>)
  {
    && s.nextId >= 1
    && forall k :: k in s.records ==> s.records[k].id == Some(k)
  }

  /** Every stored id is one the generator has already passed, so its next value is unused. */
  ghost predicate KeysBelowCounter<X>(s: StoreState<X>)
  {
    forall k :: k in s.records ==> k < s.nextId
  }

  /** `all` lists the table's records, each exactly once, in some order. */
  ghost predicate Lists<X>(m: map<int, Record<X>>, all: seq<Record<X>>)
  {
    && |all| == |m|
    && (forall i :: 0 <= i < |all| ==> all[i].id.Some? && all[i].id.value in m && m[all[i].id.value] == all[i])
    && (forall i, j :: 0 <= i < j < |all| ==> all[i].id != all[j].id)
    && (forall k :: k in m ==> exists i :: 0 <= i < |all| && all[i] == m[k])
  }

  /** The record `save` stores and returns: the argument, given the generator's value when it has no id. */
  function Stamped<X>(s: StoreState<X>, r: Record<X>): (t: Record<X>)
    ensures t.id.Some?
    ensures r.id.Some? ==> t == r
    ensures r.id.None? ==> t.id == Some(s.nextId)
    ensures t.(id := r.id) == r
    ensures r.id.None? && KeysBelowCounter(s) ==> t.id.value !in s.records
  {
    if r.id.None? then r.(id := Some(s.nextId)) else r
  }

  /** The store after `save(r)`: the stamped record is put under its id, overwriting what was there. */
  function Saved<X>(s: StoreState<X>, r: Record<X>): (s': StoreState<X>)
    ensures Stamped(s, r).id.value in s'.records && s'.records[Stamped(s, r).id.value] == Stamped(s, r)
    ensures s'.records.Keys == s.records.Keys + {Stamped(s, r).id.value}
    ensures forall k :: k in s.records && k != Stamped(s, r).id.value ==> s'.records[k] == s.records[k]
    ensures r.id.None? ==> s'.nextId == s.nextId + 1
    ensures r.id.Some? ==> s'.nextId == s.nextId
    ensures Wellformed(s) ==> Wellformed(s')
    ensures KeysBelowCounter(s) && (r.id.None? || r.id.value < s.nextId) ==> KeysBelowCounter(s')
  {
    var t := Stamped(s, r);
    StoreState(s.records[t.id.value := t], if r.id.None? then s.nextId + 1 else s.nextId)
  }

  /** The store after `deleteById(id)`: that key is gone, the rest and the generator are as before. */
  function Deleted<X>(s: StoreState<X>, id: int): (s': StoreState<X>)
    ensures s'.records.Keys == s.records.Keys - {id}
    ensures forall k :: k in s'.records ==> s'.records[k] == s.records[k]
    ensures s'.nextId == s.nextId
    ensures id !in s.records ==> s' == s
    ensures Wellformed(s) ==> Wellformed(s')
    ensures KeysBelowCounter(s) ==> KeysBelowCounter(s')
  {
    StoreState(s.records - {id}, s.nextId)
  }

  /** One state-changing call on a store. */
  datatype Op<X> = SaveOp(record: Record<X>) | DeleteOp(id: int)

  function Apply<X>(s: StoreState<X>, op: Op<X>): StoreState<X>
  {
    match op
    case SaveOp(r) => Saved(s, r)
    case DeleteOp(id) => Deleted(s, id)
  }

  /** The store after the calls `ops`, made one after the other from `s`. */
  function Run<X>(s: StoreState<X>, ops: seq<Op<X>>): StoreState<X>
    decreases |ops|
  {
    if ops == [] then s else Run(Apply(s, ops[0]), ops[1..])
  }

  /** The ids the generator hands out, in order, while `ops` run from `s`. */
  function Generated<X>(s: StoreState<X>, ops: seq<Op<X>>): seq<int>
    decreases |ops|
  {
    if ops == [] then []
    else
      (if ops[0].SaveOp? && ops[0].record.id.None? then [s.nextId] else [])
      + Generated(Apply(s, ops[0]), ops[1..])
  }

  /**
   * The generator hands out consecutive values from its current one, and it ends
   * exactly past the last value handed out: it moves only by generating an id.
   */
  lemma {:induction false} GeneratedAreConsecutive<X>(s: StoreState<X>, ops: seq<Op<X>>)
    ensures forall i :: 0 <= i < |Generated(s, ops)| ==> Generated(s, ops)[i] == s.nextId + i
    ensures Run(s, ops).nextId == s.nextId + |Generated(s, ops)|
    decreases |ops|
  {
    if ops != [] {
      var s1 := Apply(s, ops[0]);
      GeneratedAreConsecutive(s1, ops[1..]);
      var head := if ops[0].SaveOp? && ops[0].record.id.None? then [s.nextId] else [];
      assert Generated(s, ops) == head + Generated(s1, ops[1..]);
      assert s1.nextId == s.nextId + |head|;
    }
  }

  /** The counter never decreases, whatever is saved or deleted. */
  lemma CounterNeverDecreases<X>(s: StoreState<X>, ops: seq<Op<X>>)
    ensures s.nextId <= Run(s, ops).nextId
  {
    GeneratedAreConsecutive(s, ops);
  }

  /**
   * Generated ids are never reused, deletions included: each is strictly greater than
   * every one handed out before it, and all lie between the counter's start and end values.
   */
  lemma GeneratedIdsStrictlyIncrease<X>(s: StoreState<X>, ops: seq<Op<X>>)
    ensures forall i, j :: 0 <= i < j < |Generated(s, ops)| ==> Generated(s, ops)[i] < Generated(s, ops)[j]
    ensures forall i :: 0 <= i < |Generated(s, ops)| ==> s.nextId <= Generated(s, ops)[i] < Run(s, ops).nextId
  {
    GeneratedAreConsecutive(s, ops);
  }

  /** From a fresh store the generated ids are 1, 2, 3, ... */
  lemma FirstGeneratedIdsFromOne<X>(ops: seq<Op<X>>)
    ensures forall i :: 0 <= i < |Generated(Initial<X>(), ops)| ==> Generated(Initial<X>(), ops)[i] == i + 1
  {
    GeneratedAreConsecutive(Initial<X>(), ops);
  }

  /** Saving and deleting keep every record filed under its own id. */
  lemma {:induction false} RunKeepsWellformed<X>(s: StoreState<X>, ops: seq<Op<X>>)
    requires Wellformed(s)
    ensures Wellformed(Run(s, ops))
    decreases |ops|
  {
    if ops != [] {
      RunKeepsWellformed(Apply(s, ops[0]), ops[1..]);
    }
  }

  /**
   * Generated ids are meant to be unused, but the generator does not look at the
   * table: once a caller saves a record under the id 1, the next record saved
   * without an id is also given 1 and overwrites it.
   */
  lemma GeneratedIdCanCollide(r: Task, u: Task)
    requires r.id == Some(1) && u.id.None?
    ensures Stamped(Saved(Initial(), r), u).id == Some(1)
    ensures 1 in Saved(Initial(), r).records
    ensures Saved(Saved(Initial(), r), u).records == map[1 := u.(id := Some(1))]
  {
  }

  /**
   * An id that no save in `ops` carries and that the generator does not hand out
   * stays absent, whatever is deleted along the way.
   */
  lemma {:induction false} OnlySavedIdsStored<X>(s: StoreState<X>, ops: seq<Op<X>>, k: int)
    requires k !in s.records && k !in Generated(s, ops)
    requires forall i :: 0 <= i < |ops| && ops[i].SaveOp? && ops[i].record.id.Some? ==> ops[i].record.id.value != k
    ensures k !in Run(s, ops).records
    decreases |ops|
  {
    if ops != [] {
      var s1 := Apply(s, ops[0]);
      var head := if ops[0].SaveOp? && ops[0].record.id.None? then [s.nextId] else [];
      assert Generated(s, ops) == head + Generated(s1, ops[1..]);
      assert k !in head && k !in Generated(s1, ops[1..]);
      assert k !in s1.records;
      forall i | 0 <= i < |ops[1..]| && ops[1..][i].SaveOp? && ops[1..][i].record.id.Some?
        ensures ops[1..][i].record.id.value != k
      {
        assert ops[1..][i] == ops[i + 1];
      }
      OnlySavedIdsStored(s1, ops[1..], k);
    }
  }

  /** The record a store holds under `id`, as `findById` reports it: absent when there is none. */
  function Lookup<X>(s: StoreState<X>, id: int): (r: Option<Record<X>>)
    ensures r.Some? <==> id in s.records
    ensures r.Some? ==> r.value == s.records[id]
  {
    if id in s.records then Some(s.records[id]) else None
  }

  /** A non-empty set of ids has a member to pick. */
  lemma SomeKeyLeft(left: set<int>)
    requires left != {}
    ensures exists k :: k in left
  {
    if forall k :: k !in left {
      assert false;
    }
  }

  /** The mutable store: `save`, `findById`, `findAll`, `deleteById` and `existsById` over the table. */
  class Repository<X> {
    var records: map<int, Record<X>>
    var idGenerator: int

    function State(): StoreState<X>
      reads this
    {
      StoreState(records, idGenerator)
    }

    ghost predicate Valid()
      reads this
    {
      Wellformed(State())
    }

    constructor ()
      ensures Valid() && State() == Initial()
    {
      records := map[];
      idGenerator := 1;
    }

    /** Gives `r` the generator's value if it has no id, then stores it under its id. */
    method Save(r: Record<X>) returns (t: Record<X>)
      requires Valid()
      modifies this
      ensures Valid()
      ensures t == Stamped(old(State()), r)
      ensures State() == Saved(old(State()), r)
    {
      t := r;
      if t.id.None? {
        t := t.(id := Some(idGenerator));
        idGenerator := idGenerator + 1;
      }
      records := records[t.id.value := t];
    }

    /** The record stored under `id`, if any. */
    method FindById(id: int) returns (found: Option<Record<X>>)
      ensures found == Lookup(State(), id)
      ensures found.Some? <==> id in records
      ensures found.Some? ==> found.value == records[id]
    {
      found := if id in records then Some(records[id]) else None;
    }

    /** A fresh list of every stored record; the order is left open. */
    method FindAll() returns (all: seq<Record<X>>)
      requires Valid()
      ensures Lists(records, all)
    {
      var table := records;
      all := [];
      var left := table.Keys;
      ghost var keys: seq<int> := [];
      while left != {}
        invariant left <= table.Keys
        invariant |keys| == |all| && |all| + |left| == |table|
        invariant forall i :: 0 <= i < |keys| ==> keys[i] in table && keys[i] !in left && all[i] == table[keys[i]]
        invariant forall k :: k in table && k !in left ==> k in keys
        invariant forall i, j :: 0 <= i < j < |keys| ==> keys[i] != keys[j]
        decreases left
      {
        SomeKeyLeft(left);
        var key :| key in left;
        all := all + [table[key]];
        keys := keys + [key];
        left := left - {key};
      }
    }

    /** Removes the record under `id`; nothing happens when there is none. */
    method DeleteById(id: int)
      requires Valid()
      modifies this
      ensures Valid()
      ensures State() == Deleted(old(State()), id)
    {
      records := records - {id};
    }

    /** Whether a record is stored under `id`. */
    method ExistsById(id: int) returns (present: bool)
      ensures present <==> id in records
    {
      present := id in records;
    }
  }
}
