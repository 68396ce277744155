/** The Firestore converter for `/maps/{mapId}/pins/{pinId}` documents.
    Reading builds the pin from six fields only: `attachedPolaroidIds` and
    `updatedAt` are never read, so they never reach a converted pin. */
module PinConverter {
  import opened Wrappers
  import opened Values

  datatype Style = Style(color: string, iconType: string)

  /** A pin document as stored. */
  datatype PinData = PinData(
    mapId: Field<string>,
    ownerUid: Field<string>,
    location: Field<LatLng>,
    style: Field<Style>,
    attachedPolaroidIds: Field<seq<string>>,
    createdAt: Field<Timestamp>,
    updatedAt: Field<Timestamp>)

  /** `PinDocument & { id }`. `attachedPolaroidIds` is optional in the
      inspector's reading of it (`pin.attachedPolaroidIds ?? []`). */
  datatype PinWithId = PinWithId(
    id: string,
    mapId: string,
    ownerUid: string,
    location: LatLng,
    style: Style,
    attachedPolaroidIds: Option<seq<string>>,
    createdAt: Field<Timestamp>,
    updatedAt: Field<Timestamp>)

  const DefaultStyle := Style("red", "standard")

  /** `toFirestore`: everything except `id`. */
  function ToFirestore(p: PinWithId): PinData {
    PinData(Has(p.mapId), Has(p.ownerUid), Has(p.location), Has(p.style),
            if p.attachedPolaroidIds.Some? then Has(p.attachedPolaroidIds.value) else Missing,
            p.createdAt, p.updatedAt)
  }

  /** `fromFirestore(snapshot)` for a snapshot with id `id` and data `d`. */
  function FromFirestore(id: string, d: PinData): PinWithId {
    PinWithId(id, d.mapId.Or(""), d.ownerUid.Or(""), d.location.Or(LatLng(0.0, 0.0)),
              d.style.Or(DefaultStyle), None, d.createdAt, Missing)
  }

  /** Reading takes the id from the snapshot, passes present values through,
      defaults mapId and ownerUid to '', the location to (0,0) and the style
      to red/standard, keeps createdAt as stored, and never
      carries attachments or updatedAt, whatever the document holds. */
  lemma FromFirestoreShape(id: string, d: PinData)
    ensures FromFirestore(id, d).id == id
    ensures FromFirestore(id, d).mapId == (if d.mapId.Has? then d.mapId.value else "")
    ensures FromFirestore(id, d).ownerUid == (if d.ownerUid.Has? then d.ownerUid.value else "")
    ensures d.location.Has? ==> FromFirestore(id, d).location == d.location.value
    ensures !d.location.Has? ==> FromFirestore(id, d).location == LatLng(0.0, 0.0)
    ensures d.style.Has? ==> FromFirestore(id, d).style == d.style.value
    ensures !d.style.Has? ==> FromFirestore(id, d).style == Style("red", "standard")
    ensures FromFirestore(id, d).createdAt == d.createdAt
    ensures FromFirestore(id, d).attachedPolaroidIds == None
    ensures FromFirestore(id, d).updatedAt == Missing
  {
  }

  /** Writing then reading keeps the six fields the reader knows about and
      loses the other two. */
  lemma RoundTrip(p: PinWithId)
    ensures FromFirestore(p.id, ToFirestore(p)) == p.(attachedPolaroidIds := None, updatedAt := Missing)
  {
  }

  /** A pin that carries an attachment list does not survive the round trip. */
  lemma RoundTripLosesAttachments(p: PinWithId)
    requires p.attachedPolaroidIds.Some?
    ensures FromFirestore(p.id, ToFirestore(p)) != p
  {
  }
}
