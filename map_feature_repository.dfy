/** The map feature's repository in the web app. `fetchMap`, `createMap` and
    `subscribeToPins` hand their arguments unchanged to the gateway
    (`MapRepository.GetMapById`, `MapRepository.CreateMap`,
    `PinRepository.SnapshotPins`); `dropPinOnMap` is the one aggregate: it
    creates the pin and then increments the map's pin count, as two separate
    writes with no rollback. */
module MapFeatureRepository {
  import opened Wrappers
  import opened Values
  import opened PinConverter
  import opened PinSchema
  import opened Store
  import MapRepository
  import PinRepository

  datatype DropPinParams = DropPinParams(
    mapId: string,
    ownerUid: string,
    location: LatLng,
    color: PinColor,
    iconType: Option<string>)

  /** The create input `dropPinOnMap` builds: the icon type defaults to 'standard'. */
  function PinInputOf(p: DropPinParams): (i: CreatePinInput)
    ensures i.mapId == p.mapId && i.ownerUid == p.ownerUid && i.location == p.location
    ensures i.style.color == p.color.Name()
    ensures i.style.iconType == (if p.iconType.Some? then p.iconType.value else "standard")
  {
    CreatePinInput(p.mapId, p.ownerUid, p.location, Style(p.color.Name(), p.iconType.GetOr("standard")))
  }

  /** Dropping a pin with no icon type, a location in range and non-empty ids
      produces an input the create-pin schema accepts. */
  lemma DroppedPinIsValid(p: DropPinParams)
    requires p.iconType.None? && p.mapId != "" && p.ownerUid != ""
    requires -90.0 <= p.location.lat <= 90.0 && -180.0 <= p.location.lng <= 180.0
    ensures ValidCreatePinInput(PinInputOf(p))
  {
    match p.color
    case Red =>
    case Blue =>
    case Yellow =>
  }

  /** The stored pin count agrees with the number of pins in the map's
      subcollection. */
  predicate CountConsistent(maps: map<string, MapConverter.MapData>, pinIds: set<string>, mapId: string) {
    mapId in maps && maps[mapId].pinCount == Has(|pinIds| as real)
  }

  /** `dropPinOnMap`. A failed create writes nothing; a failed increment
      (unreachable service, or no such map) leaves the new pin in place and
      the count as it was; otherwise both writes land and the pin id is
      returned. A drop that writes both or nothing keeps the count consistent
      with the pins; a drop that fails after the create breaks that agreement. */
  method DropPinOnMap(db: Firestore, params: DropPinParams, now: Timestamp, createOnline: bool, adjustOnline: bool)
    returns (r: Result<string, StoreError>)
    modifies db
    ensures !createOnline ==> r == Err(Unavailable) && db.pins == old(db.pins) && db.maps == old(db.maps)
    ensures createOnline ==> exists id :: (
      && id != "" && DocPath(params.mapId, id) !in old(db.pins)
      && db.pins == old(db.pins)[DocPath(params.mapId, id) := PinRepository.NewPinDoc(PinInputOf(params), now)]
      && (r.Ok? ==> r.value == id))
    ensures createOnline && (!adjustOnline || params.mapId !in old(db.maps)) ==> r.Err? && db.maps == old(db.maps)
    ensures createOnline && adjustOnline && params.mapId in old(db.maps) ==>
      r.Ok? && db.maps == old(db.maps)[params.mapId := MapRepository.Adjusted(old(db.maps)[params.mapId], 1.0, now)]
    ensures CountConsistent(old(db.maps), old(db.PinIds(params.mapId)), params.mapId) ==>
      (CountConsistent(db.maps, db.PinIds(params.mapId), params.mapId) <==> r.Ok? || db.pins == old(db.pins))
    ensures db.polaroids == old(db.polaroids) && db.blobs == old(db.blobs)
  {
    ghost var before := db.PinIds(params.mapId);
    var created := PinRepository.CreatePin(db, PinInputOf(params), now, createOnline);
    if created.Err? {
      return Err(created.error);
    }
    var id := created.value;
    assert db.PinIds(params.mapId) == before + {id} by {
      assert DocPath(params.mapId, id) in db.pins;
      forall x | x in db.PinIds(params.mapId) ensures x in before + {id} {
        var k :| k in db.pins && k.parent == params.mapId && k.id == x;
        if k != DocPath(params.mapId, id) {
          assert k in old(db.pins);
        }
      }
    }
    assert id !in before;
    var adjusted := MapRepository.AdjustPinCount(db, params.mapId, 1.0, now, adjustOnline);
    if adjusted.Err? {
      return Err(adjusted.error);
    }
    r := Ok(id);
  }

  /** The map document after a run of successful drops, one per timestamp. */
  function AfterDrops(d: MapConverter.MapData, times: seq<Timestamp>): MapConverter.MapData
    decreases times
  {
    if times == [] then d else AfterDrops(MapRepository.Adjusted(d, 1.0, times[0]), times[1..])
  }

  /** N successful drops raise a numeric pin count by exactly N, and touch
      nothing but the count and the update time. */
  lemma {:induction false} DropsAddCount(d: MapConverter.MapData, times: seq<Timestamp>)
    requires d.pinCount.Has?
    ensures AfterDrops(d, times).pinCount == Has(d.pinCount.value + |times| as real)
    ensures AfterDrops(d, times).(pinCount := d.pinCount, updatedAt := d.updatedAt) == d
    decreases times
  {
    if times != [] {
      DropsAddCount(MapRepository.Adjusted(d, 1.0, times[0]), times[1..]);
    }
  }
}
