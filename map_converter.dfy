/** The Firestore converter for `/maps/{mapId}` documents. Writing drops the
    `id` (it lives in the document path); reading attaches the snapshot id and
    fills every missing or null field with a default through `??`. */
module MapConverter {
  import opened Wrappers
  import opened Values

  /** A map document as stored: every field may be absent or null. */
  datatype MapData = MapData(
    name: Field<string>,
    ownerUid: Field<string>,
    styleKey: Field<string>,
    styleUrl: Field<string>,
    thumbnailUrl: Field<string>,
    boundingBox: Field<BoundingBox>,
    center: Field<LatLng>,
    zoom: Field<real>,
    pinCount: Field<real>,
    createdAt: Field<Timestamp>,
    updatedAt: Field<Timestamp>)

  /** `MapDocument & { id }`, the hydrated map. The timestamps are copied
      through without a default, so they keep their raw form. */
  datatype MapWithId = MapWithId(
    id: string,
    name: string,
    ownerUid: string,
    styleKey: string,
    styleUrl: string,
    thumbnailUrl: Option<string>,
    boundingBox: BoundingBox,
    center: LatLng,
    zoom: real,
    pinCount: real,
    createdAt: Field<Timestamp>,
    updatedAt: Field<Timestamp>)

  const DefaultBox := BoundingBox(0.0, 0.0, 0.0, 0.0)
  const DefaultCenter := LatLng(0.0, 0.0)

  /** `toFirestore`: everything except `id`; an undefined thumbnail is left out. */
  function ToFirestore(m: MapWithId): MapData {
    MapData(Has(m.name), Has(m.ownerUid), Has(m.styleKey), Has(m.styleUrl),
            if m.thumbnailUrl.Some? then Has(m.thumbnailUrl.value) else Missing,
            Has(m.boundingBox), Has(m.center), Has(m.zoom), Has(m.pinCount),
            m.createdAt, m.updatedAt)
  }

  /** `fromFirestore(snapshot)` for a snapshot with id `id` and data `d`. */
  function FromFirestore(id: string, d: MapData): MapWithId {
    MapWithId(
      id,
      d.name.Or(""),
      d.ownerUid.Or(""),
      d.styleKey.Or(""),
      d.styleUrl.Or(""),
      if d.thumbnailUrl.Has? then Some(d.thumbnailUrl.value) else None,
      d.boundingBox.Or(DefaultBox),
      d.center.Or(DefaultCenter),
      d.zoom.Or(1.0),
      d.pinCount.Or(0.0),
      d.createdAt,
      d.updatedAt)
  }

  /** Reading always takes the id from the snapshot; a present value (0 and
      the empty string included) passes through, an absent or null one
      becomes its default: '' for the strings, 1 for zoom, 0 for pinCount,
      an all-zero box and a (0,0) center. */
  lemma FromFirestoreDefaults(id: string, d: MapData)
    ensures FromFirestore(id, d).id == id
    ensures d.name.Has? ==> FromFirestore(id, d).name == d.name.value
    ensures !d.name.Has? ==> FromFirestore(id, d).name == ""
    ensures d.zoom.Has? ==> FromFirestore(id, d).zoom == d.zoom.value
    ensures !d.zoom.Has? ==> FromFirestore(id, d).zoom == 1.0
    ensures d.pinCount.Has? ==> FromFirestore(id, d).pinCount == d.pinCount.value
    ensures !d.pinCount.Has? ==> FromFirestore(id, d).pinCount == 0.0
    ensures FromFirestore(id, d).ownerUid == (if d.ownerUid.Has? then d.ownerUid.value else "")
    ensures FromFirestore(id, d).styleKey == (if d.styleKey.Has? then d.styleKey.value else "")
    ensures FromFirestore(id, d).styleUrl == (if d.styleUrl.Has? then d.styleUrl.value else "")
    ensures d.boundingBox.Has? ==> FromFirestore(id, d).boundingBox == d.boundingBox.value
    ensures !d.boundingBox.Has? ==> FromFirestore(id, d).boundingBox == BoundingBox(0.0, 0.0, 0.0, 0.0)
    ensures d.center.Has? ==> FromFirestore(id, d).center == d.center.value
    ensures !d.center.Has? ==> FromFirestore(id, d).center == LatLng(0.0, 0.0)
    ensures FromFirestore(id, d).thumbnailUrl.None? <==> !d.thumbnailUrl.Has?
  {
  }

  /** Writing then reading under the map's own id gives the map back. */
  lemma RoundTrip(m: MapWithId)
    ensures FromFirestore(m.id, ToFirestore(m)) == m
  {
  }

  /** A stored document survives reading and writing back unchanged exactly
      when it has no defaults to fill in: every defaulted field present and
      the optional thumbnail not null. */
  lemma StoredRoundTripIff(id: string, d: MapData)
    ensures ToFirestore(FromFirestore(id, d)) == d <==>
      && d.name.Has? && d.ownerUid.Has? && d.styleKey.Has? && d.styleUrl.Has?
      && !d.thumbnailUrl.Null?
      && d.boundingBox.Has? && d.center.Has? && d.zoom.Has? && d.pinCount.Has?
  {
  }
}
