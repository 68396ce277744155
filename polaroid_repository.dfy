/** The polaroid gateway of the Firebase package: upload a photo to storage,
    create a polaroid document, and read one or several polaroids back.
    `nowMs` stands for `Date.now()` and `now` for the server time. */
module PolaroidRepository {
  import opened Wrappers
  import opened Values
  import opened Text
  import opened PolaroidTypes
  import opened Store

  // ── Upload ───────────────────────────────────────────────────

  /** `users/{userId}/maps/{mapId}/polaroids/{timestamp}_{filename}`. */
  function StoragePath(userId: string, mapId: string, nowMs: nat, fileName: string): string {
    "users/" + userId + "/maps/" + mapId + "/polaroids/" + NatToString(nowMs) + "_" + fileName
  }

  /** The text before the first '/', and the text after it. */
  function FirstSegment(s: string): (r: Option<(string, string)>)
    ensures r.None? <==> '/' !in s
    ensures r.Some? ==> s == r.value.0 + "/" + r.value.1 && '/' !in r.value.0
  {
    if s == [] then None
    else if s[0] == '/' then Some(([], s[1..]))
    else match FirstSegment(s[1..])
      case None => None
      case Some(p) => Some(([s[0]] + p.0, p.1))
  }

  lemma {:induction false} FirstSegmentOf(a: string, b: string)
    requires '/' !in a
    ensures FirstSegment(a + "/" + b) == Some((a, b))
  {
    var s := a + "/" + b;
    if a == [] {
      assert s[0] == '/' && s[1..] == b;
    } else {
      assert s[0] == a[0] != '/';
      assert s[1..] == a[1..] + "/" + b;
      FirstSegmentOf(a[1..], b);
      assert [a[0]] + a[1..] == a;
    }
  }

  datatype StoragePathParts = StoragePathParts(userId: string, mapId: string, fileTail: string)

  /** Reads the owner, the map and the file part back out of a storage path. */
  function ParseStoragePath(p: string): Option<StoragePathParts> {
    if |p| >= 6 && p[..6] == "users/" then ParseAfterUsers(p[6..]) else None
  }

  /** `{userId}/maps/{mapId}/polaroids/{tail}`. */
  function ParseAfterUsers(s: string): Option<StoragePathParts> {
    match FirstSegment(s)
    case None => None
    case Some(split) =>
      if |split.1| >= 5 && split.1[..5] == "maps/" then ParseAfterMaps(split.0, split.1[5..]) else None
  }

  /** `{mapId}/polaroids/{tail}`, for the owner `userId`. */
  function ParseAfterMaps(userId: string, s: string): Option<StoragePathParts> {
    match FirstSegment(s)
    case None => None
    case Some(split) =>
      if |split.1| >= 10 && split.1[..10] == "polaroids/" then Some(StoragePathParts(userId, split.0, split.1[10..]))
      else None
  }

  lemma ParseAfterMapsOf(userId: string, mapId: string, tail: string)
    requires '/' !in mapId
    ensures ParseAfterMaps(userId, mapId + "/" + ("polaroids/" + tail)) == Some(StoragePathParts(userId, mapId, tail))
  {
    FirstSegmentOf(mapId, "polaroids/" + tail);
    assert ("polaroids/" + tail)[..10] == "polaroids/";
    assert ("polaroids/" + tail)[10..] == tail;
  }

  lemma ParseAfterUsersOf(userId: string, mapId: string, tail: string)
    requires '/' !in userId && '/' !in mapId
    ensures ParseAfterUsers(userId + "/" + ("maps/" + (mapId + "/" + ("polaroids/" + tail))))
            == Some(StoragePathParts(userId, mapId, tail))
  {
    var rest := "maps/" + (mapId + "/" + ("polaroids/" + tail));
    FirstSegmentOf(userId, rest);
    assert rest[..5] == "maps/";
    assert rest[5..] == mapId + "/" + ("polaroids/" + tail);
    ParseAfterMapsOf(userId, mapId, tail);
  }

  /** For plain (slash-free) user and map ids the storage path names its
      owner and its map, and its last segment starts with the upload time. */
  lemma StoragePathParses(userId: string, mapId: string, nowMs: nat, fileName: string)
    requires '/' !in userId && '/' !in mapId
    ensures ParseStoragePath(StoragePath(userId, mapId, nowMs, fileName)) ==
            Some(StoragePathParts(userId, mapId, NatToString(nowMs) + "_" + fileName))
  {
    var tail := NatToString(nowMs) + "_" + fileName;
    var after := userId + "/" + ("maps/" + (mapId + "/" + ("polaroids/" + tail)));
    var p := StoragePath(userId, mapId, nowMs, fileName);
    assert p == "users/" + after;
    assert p[..6] == "users/" && p[6..] == after;
    ParseAfterUsersOf(userId, mapId, tail);
  }

  /** Two uploads of a file with the same name into the same map get different
      paths exactly when they happen at different milliseconds. */
  lemma StoragePathsDiffer(userId: string, mapId: string, t1: nat, t2: nat, fileName: string)
    ensures StoragePath(userId, mapId, t1, fileName) != StoragePath(userId, mapId, t2, fileName) <==> t1 != t2
  {
    var head := "users/" + userId + "/maps/" + mapId + "/polaroids/";
    var p1, p2 := StoragePath(userId, mapId, t1, fileName), StoragePath(userId, mapId, t2, fileName);
    if p1 == p2 {
      var n1, n2 := NatToString(t1), NatToString(t2);
      assert p1 == head + n1 + "_" + fileName;
      assert p2 == head + n2 + "_" + fileName;
      assert |n1| == |n2|;
      assert n1 == p1[|head|..|head| + |n1|];
      assert n2 == p2[|head|..|head| + |n2|];
      NatToStringInjective(t1, t2);
    }
  }

  datatype Upload = Upload(url: string, path: string)

  /** `uploadPolaroidPhoto`: stores the file under its storage path and
      returns that path with its download URL (`urlFor`). */
  method UploadPolaroidPhoto(db: Firestore, userId: string, mapId: string, file: FileRef,
                             nowMs: nat, urlFor: string -> string, online: bool)
    returns (r: Result<Upload, StoreError>)
    modifies db
    ensures !online ==> r == Err(Unavailable) && db.blobs == old(db.blobs)
    ensures online ==> r.Ok? && r.value.path == StoragePath(userId, mapId, nowMs, file.name)
                       && r.value.url == urlFor(r.value.path)
                       && db.blobs == old(db.blobs)[r.value.path := file]
    ensures db.maps == old(db.maps) && db.pins == old(db.pins) && db.polaroids == old(db.polaroids)
  {
    if !online {
      return Err(Unavailable);
    }
    var path := StoragePath(userId, mapId, nowMs, file.name);
    db.blobs := db.blobs[path := file];
    r := Ok(Upload(urlFor(path), path));
  }

  // ── Create ───────────────────────────────────────────────────

  /** `CreatePolaroidData`; `kind` is the optional `type`. */
  datatype CreatePolaroidData = CreatePolaroidData(
    mapId: string,
    ownerUid: string,
    kind: Option<string>,
    photoUrl: Option<string>,
    storagePath: Option<string>,
    memo: Option<string>,
    exifLocation: Option<LatLng>)

  /** A JavaScript truthiness test on an optional string. */
  predicate Truthy(s: Option<string>) {
    s.Some? && s.value != ""
  }

  /** `...(x && { key: x })`: the key is written only for a truthy value. */
  function WrittenIfTruthy(s: Option<string>): (f: Field<string>)
    ensures f.Has? <==> Truthy(s)
    ensures f.Has? ==> f.value == s.value
    ensures !f.Has? ==> f.Missing?
  {
    if Truthy(s) then Has(s.value) else Missing
  }

  /** The document `createPolaroid` writes. */
  function PolaroidDocument(data: CreatePolaroidData, now: Timestamp): PolaroidData {
    PolaroidData(
      Has(data.mapId), Has(data.ownerUid), Has(data.kind.GetOr("default")),
      WrittenIfTruthy(data.photoUrl), WrittenIfTruthy(data.storagePath), WrittenIfTruthy(data.memo),
      if data.exifLocation.Some? then Has(PlainLatLng(data.exifLocation.value.lat, data.exifLocation.value.lng))
      else Missing,
      Has(now))
  }

  /** `createPolaroid`: a new document under a fresh id in `maps/{mapId}/polaroids`. */
  method CreatePolaroid(db: Firestore, data: CreatePolaroidData, now: Timestamp, online: bool)
    returns (r: Result<string, StoreError>)
    modifies db
    ensures !online ==> r == Err(Unavailable) && db.polaroids == old(db.polaroids)
    ensures online ==> r.Ok? && r.value != "" && DocPath(data.mapId, r.value) !in old(db.polaroids)
                       && db.polaroids == old(db.polaroids)[DocPath(data.mapId, r.value) := PolaroidDocument(data, now)]
    ensures db.maps == old(db.maps) && db.pins == old(db.pins) && db.blobs == old(db.blobs)
  {
    if !online {
      return Err(Unavailable);
    }
    var id := FreshId(db.PolaroidIds(data.mapId));
    assert DocPath(data.mapId, id) !in db.polaroids;
    db.polaroids := db.polaroids[DocPath(data.mapId, id) := PolaroidDocument(data, now)];
    r := Ok(id);
  }

  // ── Read ─────────────────────────────────────────────────────

  /** `{ lat: x.latitude, lng: x.longitude }` over a stored location. */
  function ReadExif(g: GeoValue): ReadLocation {
    match g
    case PlainLatLng(_, _) => ReadLocation(Missing, Missing)
    case GeoPoint(latitude, longitude) => ReadLocation(Has(latitude), Has(longitude))
  }

  /** `createdAt?.toMillis() || Date.now()`: a missing, null or zero time
      becomes the current time. */
  function CreatedMillis(f: Field<Timestamp>, nowMs: Timestamp): (t: Timestamp)
    ensures f.Has? && f.value != 0 ==> t == f.value
    ensures !(f.Has? && f.value != 0) ==> t == nowMs
  {
    if f.Has? && f.value != 0 then f.value else nowMs
  }

  /** The domain object built from a document; the batch query leaves the
      location out (`withExif` false). */
  function ToPolaroid(id: string, d: PolaroidData, nowMs: Timestamp, withExif: bool): Polaroid {
    Polaroid(id, d.mapId, d.ownerUid, d.kind, d.photoUrl, d.storagePath, d.memo,
             if withExif && d.exifLocation.Has? then Some(ReadExif(d.exifLocation.value)) else None,
             CreatedMillis(d.createdAt, nowMs))
  }

  /** `getPolaroid`: null without a read when either id is empty, null when
      there is no document, else the document under its own id. */
  function GetPolaroid(db: Firestore, mapId: string, polaroidId: string, nowMs: Timestamp): (r: Option<Polaroid>)
    reads db
    ensures r.None? <==> mapId == "" || polaroidId == "" || DocPath(mapId, polaroidId) !in db.polaroids
    ensures r.Some? ==> r.value.id == polaroidId
  {
    if mapId == "" || polaroidId == "" then None
    else if DocPath(mapId, polaroidId) !in db.polaroids then None
    else Some(ToPolaroid(polaroidId, db.polaroids[DocPath(mapId, polaroidId)], nowMs, true))
  }

  /** What reading a freshly created polaroid gives: the ids and kind as
      written, each optional string present exactly when it was truthy, the
      creation time (when non-zero) — and, because the location is written
      as `{lat, lng}` but read from `latitude` and `longitude`, a location
      whose two components are both undefined. */
  lemma CreatedPolaroidReadsBack(id: string, data: CreatePolaroidData, now: Timestamp, nowMs: Timestamp)
    requires id != "" && data.mapId != ""
    ensures var p := ToPolaroid(id, PolaroidDocument(data, now), nowMs, true);
      && p.id == id && p.mapId == Has(data.mapId) && p.ownerUid == Has(data.ownerUid)
      && p.kind == Has(if data.kind.Some? then data.kind.value else "default")
      && (p.memo.Has? <==> Truthy(data.memo))
      && (p.photoUrl.Has? <==> Truthy(data.photoUrl))
      && (now != 0 ==> p.createdAt == now)
      && (p.exifLocation.Some? <==> data.exifLocation.Some?)
      && (data.exifLocation.Some? ==> p.exifLocation == Some(ReadLocation(Missing, Missing)))
  {
  }

  /** The per-id fallback: each id looked up in order, misses dropped. */
  function LookupAll(db: Firestore, mapId: string, ids: seq<string>, nowMs: Timestamp): (r: seq<Polaroid>)
    reads db
    ensures |r| <= |ids|
    ensures forall p :: p in r ==> p.id in ids && GetPolaroid(db, mapId, p.id, nowMs) == Some(p)
  {
    if ids == [] then []
    else
      var init := LookupAll(db, mapId, ids[..|ids| - 1], nowMs);
      match GetPolaroid(db, mapId, ids[|ids| - 1], nowMs)
      case Some(p) => init + [p]
      case None => init
  }

  /** When every id names a document, the fallback returns one polaroid per
      id, in the order of the ids, repeated ids included. */
  lemma {:induction false} LookupAllComplete(db: Firestore, mapId: string, ids: seq<string>, nowMs: Timestamp)
    requires forall id :: id in ids ==> GetPolaroid(db, mapId, id, nowMs).Some?
    ensures |LookupAll(db, mapId, ids, nowMs)| == |ids|
    ensures forall i :: 0 <= i < |ids| ==> LookupAll(db, mapId, ids, nowMs)[i].id == ids[i]
  {
    if ids != [] {
      var init := ids[..|ids| - 1];
      var last := ids[|ids| - 1];
      assert forall id :: id in init ==> id in ids;
      LookupAllComplete(db, mapId, init, nowMs);
      var p := GetPolaroid(db, mapId, last, nowMs);
      assert p.Some? && p.value.id == last;
      var front := LookupAll(db, mapId, init, nowMs);
      var r := LookupAll(db, mapId, ids, nowMs);
      assert r == front + [p.value];
      forall i | 0 <= i < |ids|
        ensures r[i].id == ids[i]
      {
        if i < |ids| - 1 {
          assert r[i] == front[i] && ids[i] == init[i];
        }
      }
    }
  }

  predicate DistinctPolaroids(s: seq<Polaroid>) {
    forall i, j :: 0 <= i < j < |s| ==> s[i].id != s[j].id
  }

  /** `getPolaroidsByIds`. An empty map id or id list gives `[]`. Up to ten
      ids go into one `in` query on the document id: the SDK rejects an
      empty id there, and the answer holds each existing document once,
      without its location. Beyond ten, each id is read with `getPolaroid`
      in order and the misses dropped. */
  method GetPolaroidsByIds(db: Firestore, mapId: string, ids: seq<string>, nowMs: Timestamp)
    returns (r: Result<seq<Polaroid>, StoreError>)
    ensures mapId == "" || ids == [] ==> r == Ok([])
    ensures mapId != "" && 0 < |ids| <= 10 && "" in ids ==> r == Err(InvalidArgument)
    ensures mapId != "" && 0 < |ids| <= 10 && "" !in ids ==>
      && r.Ok?
      && (forall p :: p in r.value ==>
            p.id in ids && DocPath(mapId, p.id) in db.polaroids
            && p == ToPolaroid(p.id, db.polaroids[DocPath(mapId, p.id)], nowMs, false)
            && p.exifLocation.None?)
      && (forall id :: id in ids && DocPath(mapId, id) in db.polaroids ==>
            ToPolaroid(id, db.polaroids[DocPath(mapId, id)], nowMs, false) in r.value)
      && DistinctPolaroids(r.value)
    ensures mapId != "" && |ids| > 10 ==> r == Ok(LookupAll(db, mapId, ids, nowMs))
  {
    if mapId == "" || ids == [] {
      return Ok([]);
    }
    if |ids| <= 10 {
      if "" in ids {
        return Err(InvalidArgument);
      }
      var rest := set id | id in ids;
      var found: seq<Polaroid> := [];
      while rest != {}
        invariant rest <= set id | id in ids
        invariant forall p :: p in found ==>
          p.id in ids && p.id !in rest && DocPath(mapId, p.id) in db.polaroids
          && p == ToPolaroid(p.id, db.polaroids[DocPath(mapId, p.id)], nowMs, false)
          && p.exifLocation.None?
        invariant forall id :: id in ids && id !in rest && DocPath(mapId, id) in db.polaroids ==>
          ToPolaroid(id, db.polaroids[DocPath(mapId, id)], nowMs, false) in found
        invariant DistinctPolaroids(found)
        decreases |rest|
      {
        var id :| id in rest;
        rest := rest - {id};
        if DocPath(mapId, id) in db.polaroids {
          found := found + [ToPolaroid(id, db.polaroids[DocPath(mapId, id)], nowMs, false)];
        }
      }
      return Ok(found);
    }
    var i := 0;
    var acc: seq<Polaroid> := [];
    while i < |ids|
      invariant 0 <= i <= |ids|
      invariant acc == LookupAll(db, mapId, ids[..i], nowMs)
    {
      assert ids[..i + 1][..i] == ids[..i];
      var p := GetPolaroid(db, mapId, ids[i], nowMs);
      if p.Some? {
        acc := acc + [p.value];
      }
      i := i + 1;
    }
    assert ids[..|ids|] == ids;
    r := Ok(acc);
  }
}
