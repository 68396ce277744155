/** The pin gateway of the Firebase package: create a pin in a map's pins
    subcollection, append a polaroid id to a pin, and the pin list a
    subscription delivers. */
module PinRepository {
  import opened Wrappers
  import opened Values
  import opened PinConverter
  import opened PinSchema
  import opened IdList
  import opened Store

  /** The document `createPin` writes: the whole input (mapId included) and
      a createdAt; no attachments and no updatedAt. */
  function NewPinDoc(input: CreatePinInput, now: Timestamp): PinData {
    PinData(Has(input.mapId), Has(input.ownerUid), Has(input.location), Has(input.style),
            Missing, Has(now), Missing)
  }

  /** The stored document gives the input back, and is a valid pin document
      exactly when the input is a valid create input. */
  lemma NewPinDocReadsBack(input: CreatePinInput, now: Timestamp)
    ensures PinSchema.InputOf(NewPinDoc(input, now)) == Some(input)
    ensures ValidPinDoc(NewPinDoc(input, now)) <==> ValidCreatePinInput(input)
  {
  }

  /** `createPin`: a new document under a fresh id in `maps/{mapId}/pins`. */
  method CreatePin(db: Firestore, input: CreatePinInput, now: Timestamp, online: bool)
    returns (r: Result<string, StoreError>)
    modifies db
    ensures !online ==> r == Err(Unavailable) && db.pins == old(db.pins)
    ensures online ==> r.Ok? && r.value != "" && DocPath(input.mapId, r.value) !in old(db.pins)
                       && db.pins == old(db.pins)[DocPath(input.mapId, r.value) := NewPinDoc(input, now)]
    ensures db.maps == old(db.maps) && db.polaroids == old(db.polaroids) && db.blobs == old(db.blobs)
  {
    if !online {
      return Err(Unavailable);
    }
    var id := FreshId(db.PinIds(input.mapId));
    assert DocPath(input.mapId, id) !in db.pins;
    db.pins := db.pins[DocPath(input.mapId, id) := NewPinDoc(input, now)];
    r := Ok(id);
  }

  /** `arrayUnion(polaroidId)` with a new updatedAt: the id is appended unless
      already present; a field that is not an array becomes `[polaroidId]`. */
  function Attached(d: PinData, polaroidId: string, now: Timestamp): (r: PinData)
    ensures r.attachedPolaroidIds.Has? && polaroidId in r.attachedPolaroidIds.value
    ensures r.updatedAt == Has(now)
    ensures r.(attachedPolaroidIds := d.attachedPolaroidIds, updatedAt := d.updatedAt) == d
  {
    d.(attachedPolaroidIds :=
         Has(if d.attachedPolaroidIds.Has? then AppendIfAbsent(d.attachedPolaroidIds.value, polaroidId)
             else [polaroidId]),
       updatedAt := Has(now))
  }

  /** `attachPolaroidToPin`: an update, so it fails on a missing pin. */
  method AttachPolaroidToPin(db: Firestore, mapId: string, pinId: string, polaroidId: string,
                             now: Timestamp, online: bool)
    returns (r: Result<(), StoreError>)
    modifies db
    ensures !online ==> r == Err(Unavailable) && db.pins == old(db.pins)
    ensures online && DocPath(mapId, pinId) !in old(db.pins) ==> r == Err(NotFound) && db.pins == old(db.pins)
    ensures online && DocPath(mapId, pinId) in old(db.pins) ==>
      r.Ok? && db.pins == old(db.pins)[DocPath(mapId, pinId) := Attached(old(db.pins)[DocPath(mapId, pinId)], polaroidId, now)]
    ensures db.maps == old(db.maps) && db.polaroids == old(db.polaroids) && db.blobs == old(db.blobs)
  {
    if !online {
      return Err(Unavailable);
    }
    var path := DocPath(mapId, pinId);
    if path !in db.pins {
      return Err(NotFound);
    }
    db.pins := db.pins[path := Attached(db.pins[path], polaroidId, now)];
    r := Ok(());
  }

  /** Attaching keeps the list free of duplicates, puts a new id last and
      keeps the earlier ids in order; attaching the same id twice changes the
      list no further. */
  lemma AttachProperties(d: PinData, x: string, t1: Timestamp, t2: Timestamp)
    requires d.attachedPolaroidIds.Has? ==> NoDuplicates(d.attachedPolaroidIds.value)
    ensures NoDuplicates(Attached(d, x, t1).attachedPolaroidIds.value)
    ensures d.attachedPolaroidIds.Has? && x !in d.attachedPolaroidIds.value ==>
      Attached(d, x, t1).attachedPolaroidIds.value == d.attachedPolaroidIds.value + [x]
    ensures Attached(Attached(d, x, t1), x, t2).attachedPolaroidIds == Attached(d, x, t1).attachedPolaroidIds
  {
    var ids := Attached(d, x, t1).attachedPolaroidIds.value;
    if d.attachedPolaroidIds.Has? {
      var s := d.attachedPolaroidIds.value;
      if x !in s {
        assert ids == s + [x];
      }
    }
    AppendIfAbsentTwice(ids, x);
  }

  /** The pin document schema does not look at attachments, so attaching
      keeps a valid pin valid; and the converter does not read them, so a
      subscriber sees the same pin before and after. */
  lemma AttachInvisibleToReaders(id: string, d: PinData, x: string, now: Timestamp)
    ensures ValidPinDoc(Attached(d, x, now)) <==> ValidPinDoc(d)
    ensures FromFirestore(id, Attached(d, x, now)) == FromFirestore(id, d)
  {
  }

  /** The pins a snapshot of `maps/{mapId}/pins` delivers to `onData`: every
      document of the subcollection, once, through the converter. Document
      order is left open. */
  method SnapshotPins(db: Firestore, mapId: string) returns (pins: seq<PinWithId>)
    ensures forall p :: p in pins ==>
      DocPath(mapId, p.id) in db.pins && p == FromFirestore(p.id, db.pins[DocPath(mapId, p.id)])
    ensures forall path :: path in db.pins && path.parent == mapId ==>
      FromFirestore(path.id, db.pins[path]) in pins
    ensures forall i, j :: 0 <= i < j < |pins| ==> pins[i].id != pins[j].id
  {
    var rest := db.pins.Keys;
    pins := [];
    while rest != {}
      invariant rest <= db.pins.Keys
      invariant forall p :: p in pins ==>
        DocPath(mapId, p.id) in db.pins.Keys - rest && p == FromFirestore(p.id, db.pins[DocPath(mapId, p.id)])
      invariant forall path :: path in db.pins.Keys - rest && path.parent == mapId ==>
        FromFirestore(path.id, db.pins[path]) in pins
      invariant forall i, j :: 0 <= i < j < |pins| ==> pins[i].id != pins[j].id
      decreases |rest|
    {
      var path :| path in rest;
      rest := rest - {path};
      if path.parent == mapId {
        pins := pins + [FromFirestore(path.id, db.pins[path])];
      }
    }
  }
}
