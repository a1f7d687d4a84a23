/** The in-memory irrigation store
    (app/repositories/memory/irrigation_respository.ts): an insertion-ordered
    list of irrigations and a set index of their ids. It has no update. */
module IrrigationRepository {
  import opened Base
  import opened Seqs
  import opened Keyed
  import opened IrrigationEntity

  datatype Store = Store(irrigations: seq<Irrigation>, irrigationIds: set<Id>)

  /** The store as the module creates it: nothing listed, nothing indexed. */
  const Empty: Store := Store([], {})

  function IdOf(r: Irrigation): Id
  {
    r.id
  }

  /** The ids of the irrigations in a list. */
  function IdsOf(rs: seq<Irrigation>): set<Id>
  {
    Keys(rs, IdOf)
  }

  /** The store invariant: the index is exactly the set of listed ids, and no
      id is listed twice. */
  predicate Valid(s: Store)
  {
    s.irrigationIds == IdsOf(s.irrigations) && Distinct(s.irrigations, IdOf)
  }

  function HasId(id: Id): Irrigation -> bool
  {
    HasKey(IdOf, id)
  }

  function LacksId(id: Id): Irrigation -> bool
  {
    LacksKey(IdOf, id)
  }

  /** `create(data)`: builds the irrigation, refuses an id the index already
      holds, otherwise appends it and indexes its id. */
  function Create(s: Store, d: IrrigationDraft, id: Id, now: Timestamp): (r: Step<Store, Irrigation>)
    ensures r.result.Err? <==> id in s.irrigationIds
    ensures r.result.Err? ==> r.store == s && r.result.error == PlainError("Irrigation with this ID already exists")
    ensures r.result.Ok? ==>
      && r.result.value == NewIrrigation(d, id, now)
      && r.store.irrigations == s.irrigations + [r.result.value]
      && r.store.irrigationIds == s.irrigationIds + {id}
    ensures Valid(s) ==> Valid(r.store)
  {
    var irrigation := NewIrrigation(d, id, now);
    if irrigation.id in s.irrigationIds then
      Step(s, Err(PlainError("Irrigation with this ID already exists")))
    else
      AppendKeys(s.irrigations, irrigation, IdOf);
      Step(Store(s.irrigations + [irrigation], s.irrigationIds + {irrigation.id}), Ok(irrigation))
  }

  /** `findById(id)`: the first irrigation with that id, or null. */
  function FindById(s: Store, id: Id): (r: Option<Irrigation>)
    ensures r.Some? <==> id in IdsOf(s.irrigations)
    ensures r.Some? ==> r.value in s.irrigations && r.value.id == id
    ensures r.Some? ==>
      exists i :: 0 <= i < |s.irrigations| && s.irrigations[i] == r.value && forall j :: 0 <= j < i ==> s.irrigations[j].id != id
    ensures Valid(s) ==> (r.Some? <==> id in s.irrigationIds)
  {
    var r := Find(s.irrigations, HasId(id));
    assert r.Some? ==> IdOf(r.value) == id;
    assert r.Some? ==>
      exists i :: 0 <= i < |s.irrigations| && s.irrigations[i] == r.value && forall j :: 0 <= j < i ==> !HasId(id)(s.irrigations[j]);
    r
  }

  /** In a valid store an irrigation is found by its id exactly when it is listed. */
  lemma FindByIdExact(s: Store, x: Irrigation)
    requires Valid(s)
    ensures FindById(s, x.id) == Some(x) <==> x in s.irrigations
  {
    FindDistinct(s.irrigations, IdOf, x);
  }

  /** `findAll()`: the list itself, in insertion order. */
  function FindAll(s: Store): (r: seq<Irrigation>)
    ensures Valid(s) ==> IdsOf(r) == s.irrigationIds && Distinct(r, IdOf)
  {
    s.irrigations
  }

  /** `delete(id)`: drops every irrigation with that id and the id from the
      index; an absent id raises nothing. */
  function Delete(s: Store, id: Id): (r: Store)
    ensures r.irrigations == Filter(s.irrigations, LacksId(id))
    ensures r.irrigationIds == s.irrigationIds - {id}
    ensures id !in IdsOf(r.irrigations)
    ensures forall x :: x in s.irrigations && x.id != id ==> x in r.irrigations
    ensures Valid(s) ==> Valid(r)
  {
    var kept := Filter(s.irrigations, LacksId(id));
    FilterDropsKey(s.irrigations, IdOf, id);
    FilterKeepsDistinct(s.irrigations, IdOf, LacksId(id));
    Store(kept, s.irrigationIds - {id})
  }

  /** A created irrigation is found by its id and sits last in `findAll`. */
  lemma CreateThenFind(s: Store, d: IrrigationDraft, id: Id, now: Timestamp)
    requires Valid(s)
    requires Create(s, d, id, now).result.Ok?
    ensures var r := Create(s, d, id, now);
      && FindById(r.store, id) == Some(r.result.value)
      && FindAll(r.store) == FindAll(s) + [r.result.value]
  {
    var r := Create(s, d, id, now);
    FindByIdExact(r.store, r.result.value);
  }

  /** Deleting an id the store does not hold is a silent no-op. */
  lemma DeleteAbsentIsNoOp(s: Store, id: Id)
    requires Valid(s) && id !in s.irrigationIds
    ensures Delete(s, id) == s
  {
    assert forall i :: 0 <= i < |s.irrigations| ==> LacksId(id)(s.irrigations[i]) by {
      forall i | 0 <= i < |s.irrigations| ensures LacksId(id)(s.irrigations[i]) {
        assert s.irrigations[i] in s.irrigations;
      }
    }
    FilterKeepsAll(s.irrigations, LacksId(id));
  }

  /** After `delete(id)` the id is not found, and every other irrigation still is. */
  lemma DeleteThenFind(s: Store, id: Id, q: Irrigation)
    requires Valid(s) && q in s.irrigations && q.id != id
    ensures FindById(Delete(s, id), id).None?
    ensures FindById(Delete(s, id), q.id) == Some(q)
  {
    FindByIdExact(Delete(s, id), q);
  }

  /** The store starts out satisfying its invariant, with nothing to list. */
  lemma EmptyIsValid()
    ensures Valid(Empty) && FindAll(Empty) == []
  {
  }
}
