/** The `Irrigation` entity (app/entities/irrigation.ts). */
module IrrigationEntity {
  import opened Base

  /** The object the controller hands to the service: `CreateIrrigationDTO`
      plus the optional `description` the request may carry, which the entity
      does not store. */
  datatype IrrigationDraft = IrrigationDraft(
    pivotId: Id,
    description: Option<string>,
    applicationAmount: real,
    irrigationDate: Timestamp,
    userId: Id)

  datatype Irrigation = Irrigation(
    id: Id,
    pivotId: Id,
    applicationAmount: real,
    irrigationDate: Timestamp,
    userId: Id,
    createdAt: Timestamp,
    updatedAt: Timestamp)

  /** `IrrigationResponseDTO`. */
  datatype IrrigationView = IrrigationView(
    id: Id,
    pivotId: Id,
    applicationAmount: real,
    irrigationDate: Timestamp,
    userId: Id,
    createdAt: Timestamp,
    updatedAt: Timestamp)

  /** `Partial<Irrigation>`. */
  datatype IrrigationPatch = IrrigationPatch(
    id: Option<Id>,
    pivotId: Option<Id>,
    applicationAmount: Option<real>,
    irrigationDate: Option<Timestamp>,
    userId: Option<Id>,
    createdAt: Option<Timestamp>,
    updatedAt: Option<Timestamp>)

  const EmptyPatch: IrrigationPatch := IrrigationPatch(None, None, None, None, None, None, None)

  /** `new Irrigation(data)`, with the generated UUID and the clock reading supplied. */
  function NewIrrigation(d: IrrigationDraft, id: Id, now: Timestamp): (r: Irrigation)
    ensures r.id == id
    ensures r.pivotId == d.pivotId && r.applicationAmount == d.applicationAmount
    ensures r.irrigationDate == d.irrigationDate && r.userId == d.userId
    ensures r.createdAt == now && r.updatedAt == now
  {
    Irrigation(id, d.pivotId, d.applicationAmount, d.irrigationDate, d.userId, now, now)
  }

  /** The request's description is dropped: drafts that differ only there
      build the same record. */
  lemma DescriptionIsNotStored(d: IrrigationDraft, text: Option<string>, id: Id, now: Timestamp)
    ensures NewIrrigation(d.(description := text), id, now) == NewIrrigation(d, id, now)
  {
  }

  /** `irrigation.serialize()`. */
  function Serialize(r: Irrigation): IrrigationView
  {
    IrrigationView(r.id, r.pivotId, r.applicationAmount, r.irrigationDate, r.userId, r.createdAt, r.updatedAt)
  }

  /** Reads a view back as a record. */
  function FromView(v: IrrigationView): Irrigation
  {
    Irrigation(v.id, v.pivotId, v.applicationAmount, v.irrigationDate, v.userId, v.createdAt, v.updatedAt)
  }

  /** The view copies all seven fields. */
  lemma SerializeRoundTrip(r: Irrigation, q: Irrigation)
    ensures var v := Serialize(r);
      && v.id == r.id && v.pivotId == r.pivotId && v.applicationAmount == r.applicationAmount
      && v.irrigationDate == r.irrigationDate && v.userId == r.userId
      && v.createdAt == r.createdAt && v.updatedAt == r.updatedAt
    ensures FromView(Serialize(r)) == r
    ensures Serialize(r) == Serialize(q) ==> r == q
  {
  }

  /** `irrigation.merge(data)`: `Object.assign` of the patch onto the record. */
  function Merge(r: Irrigation, p: IrrigationPatch): Irrigation
  {
    Irrigation(
      Patched(p.id, r.id),
      Patched(p.pivotId, r.pivotId),
      Patched(p.applicationAmount, r.applicationAmount),
      Patched(p.irrigationDate, r.irrigationDate),
      Patched(p.userId, r.userId),
      Patched(p.createdAt, r.createdAt),
      Patched(p.updatedAt, r.updatedAt))
  }

  /** `merge` overwrites exactly the fields the patch carries. */
  lemma MergeOverwritesExactlyPatched(r: Irrigation, p: IrrigationPatch)
    ensures var m := Merge(r, p);
      && (p.id.Some? ==> m.id == p.id.value) && (p.id.None? ==> m.id == r.id)
      && (p.pivotId.Some? ==> m.pivotId == p.pivotId.value) && (p.pivotId.None? ==> m.pivotId == r.pivotId)
      && (p.applicationAmount.Some? ==> m.applicationAmount == p.applicationAmount.value)
      && (p.applicationAmount.None? ==> m.applicationAmount == r.applicationAmount)
      && (p.irrigationDate.Some? ==> m.irrigationDate == p.irrigationDate.value)
      && (p.irrigationDate.None? ==> m.irrigationDate == r.irrigationDate)
      && (p.userId.Some? ==> m.userId == p.userId.value) && (p.userId.None? ==> m.userId == r.userId)
      && (p.createdAt.Some? ==> m.createdAt == p.createdAt.value) && (p.createdAt.None? ==> m.createdAt == r.createdAt)
      && (p.updatedAt.Some? ==> m.updatedAt == p.updatedAt.value) && (p.updatedAt.None? ==> m.updatedAt == r.updatedAt)
  {
  }

  /** Merging the empty patch changes nothing; merging twice equals merging once. */
  lemma MergeIdentityAndIdempotence(r: Irrigation, p: IrrigationPatch)
    ensures Merge(r, EmptyPatch) == r
    ensures Merge(Merge(r, p), p) == Merge(r, p)
  {
  }
}
