/** The irrigation service (app/services/irrigation_service.ts). Creation
    checks that the referenced pivot exists and belongs to the caller; reads
    and deletes compare the caller with the irrigation's own `userId` (not with
    the referenced pivot's owner). Absent and foreign records produce the same
    404. `caller` is the id of the authenticated user. */
module IrrigationService {
  import opened Base
  import opened Seqs
  import opened IrrigationEntity
  import Repo = IrrigationRepository
  import Pivots = PivotRepository
  import PivotService

  const IrrigationNotFound: Error := HttpError("Irrigação não encontrada", NotFoundStatus, RowNotFoundCode)

  function OwnedBy(userId: Id): Irrigation -> bool
  {
    (r: Irrigation) => r.userId == userId
  }

  /** `getAll(userId)`: the caller's irrigations, serialized, in store order. */
  function GetAll(s: Repo.Store, caller: Id): (r: seq<IrrigationView>)
    ensures forall i :: 0 <= i < |r| ==> r[i].userId == caller && FromView(r[i]) in s.irrigations
    ensures forall x :: x in s.irrigations && x.userId == caller ==> Serialize(x) in r
  {
    var mine := Filter(s.irrigations, OwnedBy(caller));
    forall x | x in s.irrigations && x.userId == caller ensures Serialize(x) in Map(mine, Serialize) {
      var i :| 0 <= i < |s.irrigations| && s.irrigations[i] == x;
      assert OwnedBy(caller)(s.irrigations[i]);
      var j :| 0 <= j < |mine| && mine[j] == x;
      assert Map(mine, Serialize)[j] == Serialize(x);
    }
    forall i | 0 <= i < |mine| ensures Map(mine, Serialize)[i].userId == caller && FromView(Map(mine, Serialize)[i]) in s.irrigations {
      SerializeRoundTrip(mine[i], mine[i]);
    }
    Map(mine, Serialize)
  }

  /** The referential check: the pivot exists and belongs to `userId`. */
  predicate PivotOwnedBy(pivots: Pivots.Store, pivotId: Id, userId: Id)
  {
    exists p :: p in pivots.pivots && p.id == pivotId && p.userId == userId
  }

  /** `create(data)`: refuses a missing pivot and a pivot owned by someone
      else with the same 404; otherwise stores the irrigation. */
  function Create(s: Repo.Store, pivots: Pivots.Store, d: IrrigationDraft, id: Id, now: Timestamp)
    : (r: Step<Repo.Store, IrrigationView>)
    ensures r.result.Err? ==> r.store == s
    ensures r.result.Ok? ==> PivotOwnedBy(pivots, d.pivotId, d.userId)
    ensures r.result.Ok? ==>
      && FromView(r.result.value) == NewIrrigation(d, id, now)
      && r.store.irrigations == s.irrigations + [FromView(r.result.value)]
    ensures Pivots.Valid(pivots) && id !in s.irrigationIds ==>
      (r.result.Ok? <==> PivotOwnedBy(pivots, d.pivotId, d.userId))
    ensures Pivots.Valid(pivots) && !PivotOwnedBy(pivots, d.pivotId, d.userId) ==> r.result == Err(PivotService.PivotNotFound)
    ensures Pivots.Valid(pivots) && PivotOwnedBy(pivots, d.pivotId, d.userId) && id in s.irrigationIds ==>
      r == Step(s, Err(PlainError("Irrigation with this ID already exists")))
    ensures Repo.Valid(s) ==> Repo.Valid(r.store)
  {
    match Pivots.FindById(pivots, d.pivotId)
    case None => Step(s, Err(PivotService.PivotNotFound))
    case Some(p) =>
      if p.userId != d.userId then
        Step(s, Err(PivotService.PivotNotFound))
      else
        var step := Repo.Create(s, d, id, now);
        match step.result
        case Ok(x) =>
          SerializeRoundTrip(x, x);
          Step(step.store, Ok(Serialize(x)))
        case Err(e) => Step(step.store, Err(e))
  }

  /** The ownership gate of `getByID` and `delete`. */
  function Owned(s: Repo.Store, id: Id, caller: Id): (r: Result<Irrigation>)
    ensures r.Err? ==> r.error == IrrigationNotFound
    ensures r.Ok? ==> r.value in s.irrigations && r.value.id == id && r.value.userId == caller
    ensures Repo.Valid(s) ==> (r.Ok? <==> exists x :: x in s.irrigations && x.id == id && x.userId == caller)
  {
    match Repo.FindById(s, id)
    case None => Err(IrrigationNotFound)
    case Some(x) =>
      if x.userId != caller then
        Err(IrrigationNotFound)
      else
        Ok(x)
  }

  /** `getByID(id, userId)`. */
  function GetById(s: Repo.Store, id: Id, caller: Id): (r: Result<IrrigationView>)
    ensures r.Err? ==> r.error == IrrigationNotFound
    ensures r.Ok? ==> r.value.id == id && r.value.userId == caller && FromView(r.value) in s.irrigations
    ensures Repo.Valid(s) ==> (r.Ok? <==> exists x :: x in s.irrigations && x.id == id && x.userId == caller)
  {
    match Owned(s, id, caller)
    case Err(e) => Err(e)
    case Ok(x) =>
      SerializeRoundTrip(x, x);
      Ok(Serialize(x))
  }

  /** `delete(id, userId)`: the ownership gate, then the store delete. */
  function Delete(s: Repo.Store, id: Id, caller: Id): (r: Step<Repo.Store, ()>)
    ensures r.result.Err? ==> r.store == s && r.result.error == IrrigationNotFound
    ensures Repo.Valid(s) ==> (r.result.Ok? <==> exists x :: x in s.irrigations && x.id == id && x.userId == caller)
    ensures r.result.Ok? ==> r.store == Repo.Delete(s, id)
    ensures Repo.Valid(s) ==> Repo.Valid(r.store)
  {
    match Owned(s, id, caller)
    case Err(e) => Step(s, Err(e))
    case Ok(_) => Step(Repo.Delete(s, id), Ok(()))
  }

  /** An irrigation owned by one user is invisible to every other user:
      reading and deleting it fail with the same 404 a missing id gets and
      leave the store unchanged, and the other user's listing omits it. */
  lemma OwnershipIsolation(s: Repo.Store, x: Irrigation, other: Id, missing: Id)
    requires Repo.Valid(s) && x in s.irrigations && x.userId != other
    requires missing !in s.irrigationIds
    ensures GetById(s, x.id, other) == GetById(s, missing, other) == Err(IrrigationNotFound)
    ensures Delete(s, x.id, other) == Delete(s, missing, other) == Step(s, Err(IrrigationNotFound))
    ensures Serialize(x) !in GetAll(s, other)
  {
    Repo.FindByIdExact(s, x);
  }

  /** Every irrigation the service has stored referenced, when it was stored,
      a pivot of the same owner: `create` never attaches an irrigation to
      another user's pivot. */
  lemma CreateChecksReference(s: Repo.Store, pivots: Pivots.Store, d: IrrigationDraft, id: Id, now: Timestamp)
    requires Pivots.Valid(pivots)
    requires Create(s, pivots, d, id, now).result.Ok?
    ensures var v := Create(s, pivots, d, id, now).result.value;
      exists p :: p in pivots.pivots && p.id == v.pivotId && p.userId == v.userId
  {
  }

  /** Creating then reading as the owner returns the created view. */
  lemma CreateThenGetById(s: Repo.Store, pivots: Pivots.Store, d: IrrigationDraft, id: Id, now: Timestamp)
    requires Repo.Valid(s)
    requires Create(s, pivots, d, id, now).result.Ok?
    ensures GetById(Create(s, pivots, d, id, now).store, id, d.userId) == Create(s, pivots, d, id, now).result
  {
    var r := Create(s, pivots, d, id, now);
    var x := FromView(r.result.value);
    SerializeRoundTrip(x, x);
    Repo.FindByIdExact(r.store, x);
  }

  /** After a creation the owner's listing is the old one with the new view
      at the end. */
  lemma CreateThenGetAll(s: Repo.Store, pivots: Pivots.Store, d: IrrigationDraft, id: Id, now: Timestamp)
    requires Create(s, pivots, d, id, now).result.Ok?
    ensures var r := Create(s, pivots, d, id, now);
      GetAll(r.store, d.userId) == GetAll(s, d.userId) + [r.result.value]
  {
    var r := Create(s, pivots, d, id, now);
    var x := FromView(r.result.value);
    SerializeRoundTrip(x, x);
    FilterAppend(s.irrigations, [x], OwnedBy(d.userId));
    assert Filter([x], OwnedBy(d.userId)) == [x];
  }

  /** After the owner deletes an irrigation, nobody can read it. */
  lemma DeleteHidesFromEveryone(s: Repo.Store, id: Id, owner: Id, anyone: Id)
    requires Repo.Valid(s)
    requires Delete(s, id, owner).result.Ok?
    ensures GetById(Delete(s, id, owner).store, id, anyone) == Err(IrrigationNotFound)
  {
  }

  /** The listing keeps store order and multiplicity: listing a concatenation
      of stored lists gives the concatenation of their listings. */
  lemma GetAllAppend(xs: seq<Irrigation>, ys: seq<Irrigation>, ids: set<Id>, caller: Id)
    ensures GetAll(Repo.Store(xs + ys, ids), caller) == GetAll(Repo.Store(xs, ids), caller) + GetAll(Repo.Store(ys, ids), caller)
  {
    FilterAppend(xs, ys, OwnedBy(caller));
    MapAppend(Filter(xs, OwnedBy(caller)), Filter(ys, OwnedBy(caller)), Serialize);
  }

  /** A single irrigation is listed once for the user it names and not at all
      for anyone else. With `GetAllAppend` this determines every listing. */
  lemma GetAllSingle(x: Irrigation, ids: set<Id>, caller: Id)
    ensures GetAll(Repo.Store([x], ids), caller) == if x.userId == caller then [Serialize(x)] else []
  {
    if x.userId == caller {
      FilterKeepsAll([x], OwnedBy(caller));
    } else {
      FilterDropsAll([x], OwnedBy(caller));
    }
  }
}
