/** The pivot service (app/services/pivot_service.ts). Every read, update and
    delete is scoped to the caller: a pivot that does not exist and a pivot
    owned by someone else produce the same 404. `caller` is the id of the
    authenticated user, which is what the controllers pass. */
module PivotService {
  import opened Base
  import opened Seqs
  import opened PivotEntity
  import Repo = PivotRepository

  const PivotNotFound: Error := HttpError("Pivô não encontrado", NotFoundStatus, RowNotFoundCode)

  function OwnedBy(userId: Id): Pivot -> bool
  {
    (p: Pivot) => p.userId == userId
  }

  /** `getAll(userId)`: the caller's pivots, serialized, in store order. */
  function GetAll(s: Repo.Store, caller: Id): (r: seq<PivotView>)
    ensures forall i :: 0 <= i < |r| ==> r[i].userId == caller && FromView(r[i]) in s.pivots
    ensures forall p :: p in s.pivots && p.userId == caller ==> Serialize(p) in r
  {
    var mine := Filter(s.pivots, OwnedBy(caller));
    forall p | p in s.pivots && p.userId == caller ensures Serialize(p) in Map(mine, Serialize) {
      var i :| 0 <= i < |s.pivots| && s.pivots[i] == p;
      assert OwnedBy(caller)(s.pivots[i]);
      var j :| 0 <= j < |mine| && mine[j] == p;
      assert Map(mine, Serialize)[j] == Serialize(p);
    }
    forall i | 0 <= i < |mine| ensures Map(mine, Serialize)[i].userId == caller && FromView(Map(mine, Serialize)[i]) in s.pivots {
      SerializeRoundTrip(mine[i], mine[i]);
    }
    Map(mine, Serialize)
  }

  /** `create(data)`: stores the pivot and returns its view. */
  function Create(s: Repo.Store, d: PivotDraft, id: Id, now: Timestamp): (r: Step<Repo.Store, PivotView>)
    ensures r.result.Ok? <==> id !in s.pivotIds
    ensures r.result.Err? ==> r.store == s && r.result.error == PlainError("Pivot with this ID already exists")
    ensures r.result.Ok? ==>
      && FromView(r.result.value) == NewPivot(d, id, now)
      && r.store.pivots == s.pivots + [FromView(r.result.value)]
    ensures Repo.Valid(s) ==> Repo.Valid(r.store)
  {
    var step := Repo.Create(s, d, id, now);
    match step.result
    case Ok(p) =>
      SerializeRoundTrip(p, p);
      Step(step.store, Ok(Serialize(p)))
    case Err(e) => Step(step.store, Err(e))
  }

  /** The ownership gate shared by `getByID`, `update` and `delete`: the pivot
      when it exists and belongs to the caller, and the one not-found error
      otherwise. */
  function Owned(s: Repo.Store, id: Id, caller: Id): (r: Result<Pivot>)
    ensures r.Err? ==> r.error == PivotNotFound
    ensures r.Ok? ==> r.value in s.pivots && r.value.id == id && r.value.userId == caller
    ensures Repo.Valid(s) ==> (r.Ok? <==> exists p :: p in s.pivots && p.id == id && p.userId == caller)
  {
    match Repo.FindById(s, id)
    case None => Err(PivotNotFound)
    case Some(p) =>
      if p.userId != caller then
        Err(PivotNotFound)
      else
        Ok(p)
  }

  /** `getByID(id, userId)`. */
  function GetById(s: Repo.Store, id: Id, caller: Id): (r: Result<PivotView>)
    ensures r.Err? ==> r.error == PivotNotFound
    ensures r.Ok? ==> r.value.id == id && r.value.userId == caller && FromView(r.value) in s.pivots
    ensures Repo.Valid(s) ==> (r.Ok? <==> exists p :: p in s.pivots && p.id == id && p.userId == caller)
  {
    match Owned(s, id, caller)
    case Err(e) => Err(e)
    case Ok(p) =>
      SerializeRoundTrip(p, p);
      Ok(Serialize(p))
  }

  /** `update(id, data, userId)`: the ownership gate, then the store update. */
  function Update(s: Repo.Store, id: Id, u: PivotUpdate, caller: Id, now: Timestamp): (r: Step<Repo.Store, PivotView>)
    ensures r.result.Err? ==> r.store == s && r.result.error == PivotNotFound
    ensures Repo.Valid(s) ==> (r.result.Ok? <==> exists p :: p in s.pivots && p.id == id && p.userId == caller)
    ensures r.result.Ok? ==> r.result.value.id == id && r.result.value.userId == caller
    ensures r.result.Ok? ==>
      && r.store == Repo.Update(s, id, u, now).store
      && Repo.Update(s, id, u, now).result == Ok(FromView(r.result.value))
    ensures Repo.Valid(s) ==> Repo.Valid(r.store)
  {
    match Owned(s, id, caller)
    case Err(e) => Step(s, Err(e))
    case Ok(p) =>
      var step := Repo.Update(s, id, u, now);
      match step.result
      case Ok(updated) =>
        SerializeRoundTrip(updated, updated);
        Step(step.store, Ok(Serialize(updated)))
      case Err(e) => assert false; Step(step.store, Err(e))
  }

  /** `delete(id, userId)`: the ownership gate, then the store delete. */
  function Delete(s: Repo.Store, id: Id, caller: Id): (r: Step<Repo.Store, ()>)
    ensures r.result.Err? ==> r.store == s && r.result.error == PivotNotFound
    ensures Repo.Valid(s) ==> (r.result.Ok? <==> exists p :: p in s.pivots && p.id == id && p.userId == caller)
    ensures r.result.Ok? ==> r.store == Repo.Delete(s, id)
    ensures Repo.Valid(s) ==> Repo.Valid(r.store)
  {
    match Owned(s, id, caller)
    case Err(e) => Step(s, Err(e))
    case Ok(_) => Step(Repo.Delete(s, id), Ok(()))
  }

  /** A pivot owned by one user is invisible to every other user: reading,
      updating and deleting it all fail with the same 404 a missing id gets and
      leave the store unchanged, and the other user's listing omits it. */
  lemma OwnershipIsolation(s: Repo.Store, p: Pivot, other: Id, u: PivotUpdate, now: Timestamp, missing: Id)
    requires Repo.Valid(s) && p in s.pivots && p.userId != other
    requires missing !in s.pivotIds
    ensures GetById(s, p.id, other) == GetById(s, missing, other) == Err(PivotNotFound)
    ensures Update(s, p.id, u, other, now) == Update(s, missing, u, other, now) == Step(s, Err(PivotNotFound))
    ensures Delete(s, p.id, other) == Delete(s, missing, other) == Step(s, Err(PivotNotFound))
    ensures Serialize(p) !in GetAll(s, other)
  {
    Repo.FindByIdExact(s, p);
  }

  /** Creating a pivot and reading it back as its owner returns the created
      view, which reproduces the draft. */
  lemma CreateThenGetById(s: Repo.Store, d: PivotDraft, id: Id, now: Timestamp)
    requires Repo.Valid(s)
    requires Create(s, d, id, now).result.Ok?
    ensures var r := Create(s, d, id, now);
      && GetById(r.store, id, d.userId) == r.result
      && DraftOf(FromView(r.result.value)) == d
  {
    Repo.CreateThenFind(s, d, id, now);
  }

  /** After the owner deletes a pivot, nobody can read it. */
  lemma DeleteHidesFromEveryone(s: Repo.Store, id: Id, owner: Id, anyone: Id)
    requires Repo.Valid(s)
    requires Delete(s, id, owner).result.Ok?
    ensures GetById(Delete(s, id, owner).store, id, anyone) == Err(PivotNotFound)
  {
  }

  /** A new pivot is listed last for its owner, and other users' listings do
      not change. */
  lemma GetAllAfterCreate(s: Repo.Store, d: PivotDraft, id: Id, now: Timestamp, other: Id)
    requires Create(s, d, id, now).result.Ok?
    requires other != d.userId
    ensures var r := Create(s, d, id, now);
      && GetAll(r.store, d.userId) == GetAll(s, d.userId) + [r.result.value]
      && GetAll(r.store, other) == GetAll(s, other)
  {
    var r := Create(s, d, id, now);
    var p := FromView(r.result.value);
    SerializeRoundTrip(p, p);
    FilterAppend(s.pivots, [p], OwnedBy(d.userId));
    FilterAppend(s.pivots, [p], OwnedBy(other));
    assert Filter([p], OwnedBy(d.userId)) == [p];
    assert Filter([p], OwnedBy(other)) == [];
  }

  /** The listing keeps store order and multiplicity: listing a concatenation
      of stored lists gives the concatenation of their listings. */
  lemma GetAllAppend(ps: seq<Pivot>, qs: seq<Pivot>, ids: set<Id>, caller: Id)
    ensures GetAll(Repo.Store(ps + qs, ids), caller) == GetAll(Repo.Store(ps, ids), caller) + GetAll(Repo.Store(qs, ids), caller)
  {
    FilterAppend(ps, qs, OwnedBy(caller));
    MapAppend(Filter(ps, OwnedBy(caller)), Filter(qs, OwnedBy(caller)), Serialize);
  }

  /** A single pivot is listed once for its owner and not at all for anyone
      else. With `GetAllAppend` this determines every listing. */
  lemma GetAllSingle(p: Pivot, ids: set<Id>, caller: Id)
    ensures GetAll(Repo.Store([p], ids), caller) == if p.userId == caller then [Serialize(p)] else []
  {
    if p.userId == caller {
      FilterKeepsAll([p], OwnedBy(caller));
    } else {
      FilterDropsAll([p], OwnedBy(caller));
    }
  }
}
