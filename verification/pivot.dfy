/** The `Pivot` entity (app/entities/pivot.ts): construction with the
    description defaulting, the field-for-field view, and `merge`. */
module PivotEntity {
  import opened Base

  /** `CreatePivotDTO`; `description` may be absent. The numeric fields are
      opaque quantities: their positivity is checked before this layer. */
  datatype PivotDraft = PivotDraft(
    description: Option<string>,
    flowRate: real,
    minApplicationDepth: real,
    userId: Id)

  /** A stored pivot; `description` is `string | null`. */
  datatype Pivot = Pivot(
    id: Id,
    description: Option<string>,
    flowRate: real,
    minApplicationDepth: real,
    userId: Id,
    createdAt: Timestamp,
    updatedAt: Timestamp)

  /** `PivotResponseDTO`. */
  datatype PivotView = PivotView(
    id: Id,
    description: Option<string>,
    flowRate: real,
    minApplicationDepth: real,
    userId: Id,
    createdAt: Timestamp,
    updatedAt: Timestamp)

  /** `UpdatePivotDTO`: every field optional; `description` may be set to null,
      hence the nested option. It has no `id` and no `userId`. */
  datatype PivotUpdate = PivotUpdate(
    description: Option<Option<string>>,
    flowRate: Option<real>,
    minApplicationDepth: Option<real>)

  /** `Partial<Pivot>`: any subset of the record's fields. */
  datatype PivotPatch = PivotPatch(
    id: Option<Id>,
    description: Option<Option<string>>,
    flowRate: Option<real>,
    minApplicationDepth: Option<real>,
    userId: Option<Id>,
    createdAt: Option<Timestamp>,
    updatedAt: Option<Timestamp>)

  const EmptyPatch: PivotPatch := PivotPatch(None, None, None, None, None, None, None)

  /** The draft a stored pivot corresponds to: a null description reads back
      as an absent one. */
  function DraftOf(p: Pivot): PivotDraft
  {
    PivotDraft(p.description, p.flowRate, p.minApplicationDepth, p.userId)
  }

  /** `new Pivot(data)`, with the generated UUID and the clock reading supplied.
      `data.description ?? null`: an absent description (`None` in the draft)
      is stored as null (`None` in the record). */
  function NewPivot(d: PivotDraft, id: Id, now: Timestamp): (p: Pivot)
    ensures DraftOf(p) == d
    ensures p.id == id && p.userId == d.userId
    ensures p.createdAt == now && p.updatedAt == now
  {
    Pivot(id, d.description, d.flowRate, d.minApplicationDepth, d.userId, now, now)
  }

  /** `pivot.serialize()`. */
  function Serialize(p: Pivot): PivotView
  {
    PivotView(p.id, p.description, p.flowRate, p.minApplicationDepth, p.userId, p.createdAt, p.updatedAt)
  }

  /** Reads a view back as a record. */
  function FromView(v: PivotView): Pivot
  {
    Pivot(v.id, v.description, v.flowRate, v.minApplicationDepth, v.userId, v.createdAt, v.updatedAt)
  }

  /** The view copies all seven fields: it loses nothing, so distinct pivots
      have distinct views. */
  lemma SerializeRoundTrip(p: Pivot, q: Pivot)
    ensures var v := Serialize(p);
      && v.id == p.id && v.description == p.description && v.flowRate == p.flowRate
      && v.minApplicationDepth == p.minApplicationDepth && v.userId == p.userId
      && v.createdAt == p.createdAt && v.updatedAt == p.updatedAt
    ensures FromView(Serialize(p)) == p
    ensures Serialize(p) == Serialize(q) ==> p == q
  {
  }

  /** `pivot.merge(data)`: `Object.assign` of the patch onto the record. */
  function Merge(p: Pivot, patch: PivotPatch): Pivot
  {
    Pivot(
      Patched(patch.id, p.id),
      Patched(patch.description, p.description),
      Patched(patch.flowRate, p.flowRate),
      Patched(patch.minApplicationDepth, p.minApplicationDepth),
      Patched(patch.userId, p.userId),
      Patched(patch.createdAt, p.createdAt),
      Patched(patch.updatedAt, p.updatedAt))
  }

  /** A patch without `id` and `userId` keeps the identity and the owner, and
      changes only the fields it carries. */
  lemma MergeKeepsIdentity(p: Pivot, patch: PivotPatch)
    requires patch.id.None? && patch.userId.None?
    ensures var r := Merge(p, patch);
      && r.id == p.id && r.userId == p.userId
      && (patch.description.Some? ==> r.description == patch.description.value)
      && (patch.description.None? ==> r.description == p.description)
      && (patch.flowRate.Some? ==> r.flowRate == patch.flowRate.value)
      && (patch.flowRate.None? ==> r.flowRate == p.flowRate)
      && (patch.minApplicationDepth.Some? ==> r.minApplicationDepth == patch.minApplicationDepth.value)
      && (patch.minApplicationDepth.None? ==> r.minApplicationDepth == p.minApplicationDepth)
      && (patch.createdAt.None? ==> r.createdAt == p.createdAt)
      && (patch.updatedAt.Some? ==> r.updatedAt == patch.updatedAt.value)
      && (patch.updatedAt.None? ==> r.updatedAt == p.updatedAt)
  {
  }

  /** Merging the empty patch changes nothing; merging twice equals merging once. */
  lemma MergeIdentityAndIdempotence(p: Pivot, patch: PivotPatch)
    ensures Merge(p, EmptyPatch) == p
    ensures Merge(Merge(p, patch), patch) == Merge(p, patch)
  {
  }
}
