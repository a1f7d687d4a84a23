/** The in-memory pivot store (app/repositories/memory/pivot_repository.ts):
    an insertion-ordered list of pivots and a set index of their ids. */
module PivotRepository {
  import opened Base
  import opened Seqs
  import opened Keyed
  import opened PivotEntity

  datatype Store = Store(pivots: seq<Pivot>, pivotIds: set<Id>)

  const Empty: Store := Store([], {})

  function IdOf(p: Pivot): Id
  {
    p.id
  }

  /** The ids of the pivots in a list. */
  function IdsOf(ps: seq<Pivot>): set<Id>
  {
    Keys(ps, IdOf)
  }

  /** The store invariant: the index is exactly the set of listed ids, and no
      id is listed twice. */
  predicate Valid(s: Store)
  {
    s.pivotIds == IdsOf(s.pivots) && Distinct(s.pivots, IdOf)
  }

  function HasId(id: Id): Pivot -> bool
  {
    HasKey(IdOf, id)
  }

  function LacksId(id: Id): Pivot -> bool
  {
    LacksKey(IdOf, id)
  }

  /** `create(data)`: builds the pivot, refuses an id the index already holds,
      otherwise appends it and indexes its id. */
  function Create(s: Store, d: PivotDraft, id: Id, now: Timestamp): (r: Step<Store, Pivot>)
    ensures r.result.Err? <==> id in s.pivotIds
    ensures r.result.Err? ==> r.store == s && r.result.error == PlainError("Pivot with this ID already exists")
    ensures r.result.Ok? ==>
      && r.result.value == NewPivot(d, id, now)
      && r.store.pivots == s.pivots + [r.result.value]
      && r.store.pivotIds == s.pivotIds + {id}
    ensures Valid(s) ==> Valid(r.store)
  {
    var p := NewPivot(d, id, now);
    if p.id in s.pivotIds then
      Step(s, Err(PlainError("Pivot with this ID already exists")))
    else
      AppendKeys(s.pivots, p, IdOf);
      Step(Store(s.pivots + [p], s.pivotIds + {p.id}), Ok(p))
  }

  /** `findById(id)`: the first pivot with that id, or null. */
  function FindById(s: Store, id: Id): (r: Option<Pivot>)
    ensures r.Some? <==> id in IdsOf(s.pivots)
    ensures r.Some? ==> r.value in s.pivots && r.value.id == id
    ensures r.Some? ==>
      exists i :: 0 <= i < |s.pivots| && s.pivots[i] == r.value && forall j :: 0 <= j < i ==> s.pivots[j].id != id
    ensures Valid(s) ==> (r.Some? <==> id in s.pivotIds)
  {
    var r := Find(s.pivots, HasId(id));
    assert r.Some? ==> IdOf(r.value) == id;
    assert r.Some? ==>
      exists i :: 0 <= i < |s.pivots| && s.pivots[i] == r.value && forall j :: 0 <= j < i ==> !HasId(id)(s.pivots[j]);
    r
  }

  /** In a valid store a pivot is found by its id exactly when it is listed. */
  lemma FindByIdExact(s: Store, p: Pivot)
    requires Valid(s)
    ensures FindById(s, p.id) == Some(p) <==> p in s.pivots
  {
    FindDistinct(s.pivots, IdOf, p);
  }

  /** `findAll()`: the list itself, in insertion order. */
  function FindAll(s: Store): (r: seq<Pivot>)
    ensures Valid(s) ==> IdsOf(r) == s.pivotIds && Distinct(r, IdOf)
  {
    s.pivots
  }

  /** `update(id, data)`: the record at the first index with that id is
      replaced by the merge of the patch and a fresh `updatedAt`. */
  function Update(s: Store, id: Id, u: PivotUpdate, now: Timestamp): (r: Step<Store, Pivot>)
    ensures r.result.Err? <==> id !in IdsOf(s.pivots)
    ensures r.result.Err? ==> r.store == s && r.result.error == PlainError("Pivot not found")
    ensures r.result.Ok? ==>
      exists k :: 0 <= k < |s.pivots| && s.pivots[k].id == id && Replaced(s, r.store, k, u, now, r.result.value)
    ensures r.result.Ok? ==> r.result.value.id == id && r.result.value.updatedAt == now
    ensures Valid(s) ==> Valid(r.store)
  {
    var k := FindIndex(s.pivots, HasId(id));
    if k == -1 then
      Step(s, Err(PlainError("Pivot not found")))
    else
      var updated := Merge(s.pivots[k], Stamp(u, now));
      MergeKeepsIdentity(s.pivots[k], Stamp(u, now));
      var s' := Store(s.pivots[k := updated], s.pivotIds);
      ReplaceKeepsKeys(s.pivots, k, updated, IdOf);
      Step(s', Ok(updated))
  }

  /** `{ ...data, updatedAt: now }`: the patch `update` merges. */
  function Stamp(u: PivotUpdate, now: Timestamp): PivotPatch
  {
    PivotPatch(None, u.description, u.flowRate, u.minApplicationDepth, None, None, Some(now))
  }

  /** `s'` is `s` with position `k`, the first one holding its id, replaced
      by `p`. `p` keeps the old record's id, owner and creation time, takes
      `description`, `flowRate` and `minApplicationDepth` from the update when
      it carries them and from the old record otherwise, and has `now` as its
      `updatedAt`. The index is untouched. */
  ghost predicate Replaced(s: Store, s': Store, k: int, u: PivotUpdate, now: Timestamp, p: Pivot)
    requires 0 <= k < |s.pivots|
  {
    var was := s.pivots[k];
    && (forall j :: 0 <= j < k ==> s.pivots[j].id != was.id)
    && s'.pivots == s.pivots[k := p]
    && s'.pivotIds == s.pivotIds
    && p.id == was.id
    && p.userId == was.userId
    && p.createdAt == was.createdAt
    && p.description == Patched(u.description, was.description)
    && p.flowRate == Patched(u.flowRate, was.flowRate)
    && p.minApplicationDepth == Patched(u.minApplicationDepth, was.minApplicationDepth)
    && p.updatedAt == now
  }

  /** `delete(id)`: drops every pivot with that id and the id from the index;
      an absent id raises nothing. */
  function Delete(s: Store, id: Id): (r: Store)
    ensures r.pivots == Filter(s.pivots, LacksId(id))
    ensures r.pivotIds == s.pivotIds - {id}
    ensures id !in IdsOf(r.pivots)
    ensures forall p :: p in s.pivots && p.id != id ==> p in r.pivots
    ensures Valid(s) ==> Valid(r)
  {
    var kept := Filter(s.pivots, LacksId(id));
    FilterDropsKey(s.pivots, IdOf, id);
    FilterKeepsDistinct(s.pivots, IdOf, LacksId(id));
    Store(kept, s.pivotIds - {id})
  }

  /** `clear()`: empties the list and the index. */
  function Clear(s: Store): (r: Store)
    ensures r.pivots == [] && r.pivotIds == {}
    ensures Valid(r)
  {
    Empty
  }

  /** A created pivot is found by its id and sits last in `findAll`. */
  lemma CreateThenFind(s: Store, d: PivotDraft, id: Id, now: Timestamp)
    requires Valid(s)
    requires Create(s, d, id, now).result.Ok?
    ensures var r := Create(s, d, id, now);
      && FindById(r.store, id) == Some(r.result.value)
      && FindAll(r.store) == FindAll(s) + [r.result.value]
  {
    var r := Create(s, d, id, now);
    FindByIdExact(r.store, r.result.value);
  }

  /** Deleting an id the store does not hold is a silent no-op. */
  lemma DeleteAbsentIsNoOp(s: Store, id: Id)
    requires Valid(s) && id !in s.pivotIds
    ensures Delete(s, id) == s
  {
    assert forall i :: 0 <= i < |s.pivots| ==> LacksId(id)(s.pivots[i]) by {
      forall i | 0 <= i < |s.pivots| ensures LacksId(id)(s.pivots[i]) {
        assert s.pivots[i] in s.pivots;
      }
    }
    FilterKeepsAll(s.pivots, LacksId(id));
  }

  /** After `delete(id)` the id is not found, and every other pivot still is. */
  lemma DeleteThenFind(s: Store, id: Id, q: Pivot)
    requires Valid(s) && q in s.pivots && q.id != id
    ensures FindById(Delete(s, id), id).None?
    ensures FindById(Delete(s, id), q.id) == Some(q)
  {
    FindByIdExact(Delete(s, id), q);
  }

  /** After a successful `update(id, …)` the id finds the updated record, and
      every other pivot is found unchanged. */
  lemma UpdateThenFind(s: Store, id: Id, u: PivotUpdate, now: Timestamp, q: Pivot)
    requires Valid(s) && Update(s, id, u, now).result.Ok?
    requires q in s.pivots && q.id != id
    ensures var r := Update(s, id, u, now);
      && FindById(r.store, id) == Some(r.result.value)
      && FindById(r.store, q.id) == Some(q)
  {
    var r := Update(s, id, u, now);
    var k :| 0 <= k < |s.pivots| && s.pivots[k].id == id && Replaced(s, r.store, k, u, now, r.result.value);
    assert r.store.pivots[k] == r.result.value;
    FindByIdExact(r.store, r.result.value);
    var i :| 0 <= i < |s.pivots| && s.pivots[i] == q;
    assert r.store.pivots[i] == q;
    FindByIdExact(r.store, q);
  }
}
