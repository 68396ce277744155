/** The Polaroid card, as stored and as read back. There is no converter for
    polaroids: the repository writes and reads the fields by hand. */
module PolaroidTypes {
  import opened Wrappers
  import opened Values

  /** A stored location object. `createPolaroid` writes the plain `{lat, lng}`
      object it is given; a Firestore GeoPoint carries `latitude` and
      `longitude` instead. */
  datatype GeoValue = PlainLatLng(lat: real, lng: real) | GeoPoint(latitude: real, longitude: real)

  /** A polaroid document as stored under `maps/{mapId}/polaroids`. */
  datatype PolaroidData = PolaroidData(
    mapId: Field<string>,
    ownerUid: Field<string>,
    kind: Field<string>,
    photoUrl: Field<string>,
    storagePath: Field<string>,
    memo: Field<string>,
    exifLocation: Field<GeoValue>,
    createdAt: Field<Timestamp>)

  /** The location object a reader builds: `{ lat: x.latitude, lng: x.longitude }`,
      whose components are undefined when the stored object has no such keys. */
  datatype ReadLocation = ReadLocation(lat: Field<real>, lng: Field<real>)

  /** The domain `Polaroid` as the repository returns it. Fields copied from
      the document without a default keep their raw form (`kind` is the
      stored field `type`). */
  datatype Polaroid = Polaroid(
    id: string,
    mapId: Field<string>,
    ownerUid: Field<string>,
    kind: Field<string>,
    photoUrl: Field<string>,
    storagePath: Field<string>,
    memo: Field<string>,
    exifLocation: Option<ReadLocation>,
    createdAt: Timestamp)

  /** A file picked by the user; only its name is used (in the storage path). */
  datatype FileRef = FileRef(name: string)
}
