/** The map gateway of the Firebase package: read one map, list a user's maps
    newest first, create a map, and adjust a map's pin count. Writes take the
    server time `now` and whether the service is reachable (`online`). */
module MapRepository {
  import opened Wrappers
  import opened Values
  import opened MapConverter
  import opened MapSchema
  import opened Store

  /** `getMapById`: the converted map, or null when there is no document. */
  function GetMapById(db: Firestore, mapId: string): (r: Option<MapWithId>)
    reads db
    ensures r.None? <==> mapId !in db.maps
    ensures r.Some? ==> r.value.id == mapId
    ensures r.Some? && db.maps[mapId].ownerUid.Has? ==> r.value.ownerUid == db.maps[mapId].ownerUid.value
  {
    if mapId in db.maps then Some(FromFirestore(mapId, db.maps[mapId])) else None
  }

  /** The query `where('ownerUid', '==', uid)` with `orderBy('createdAt')`:
      a document without a createdAt field is not in an ordered query. */
  predicate Listed(d: MapData, ownerUid: string) {
    d.ownerUid == Has(ownerUid) && !d.createdAt.Missing?
  }

  /** Descending order on createdAt: a null sorts below every timestamp. */
  predicate AtLeastAsNew(a: Field<Timestamp>, b: Field<Timestamp>) {
    if a.Has? then b.Has? ==> a.value >= b.value else !b.Has?
  }

  predicate NewestFirst(s: seq<MapWithId>) {
    forall i, j :: 0 <= i < j < |s| ==> AtLeastAsNew(s[i].createdAt, s[j].createdAt)
  }

  /** Where a map created at `c` goes in a newest-first list: before the first
      map it is at least as new as. */
  function InsertionPoint(s: seq<MapWithId>, c: Field<Timestamp>): (k: nat)
    ensures k <= |s|
    ensures forall i :: 0 <= i < k ==> !AtLeastAsNew(c, s[i].createdAt)
    ensures k < |s| ==> AtLeastAsNew(c, s[k].createdAt)
  {
    if s == [] then 0
    else if AtLeastAsNew(c, s[0].createdAt) then 0
    else 1 + InsertionPoint(s[1..], c)
  }

  predicate DistinctIds(s: seq<MapWithId>) {
    forall i, j :: 0 <= i < j < |s| ==> s[i].id != s[j].id
  }

  /** `m` put into a newest-first list at its insertion point. */
  function InsertByCreated(s: seq<MapWithId>, m: MapWithId): (r: seq<MapWithId>)
    ensures |r| == |s| + 1
    ensures forall x :: x in r <==> x in s || x == m
  {
    var k := InsertionPoint(s, m.createdAt);
    assert forall x :: x in s <==> x in s[..k] || x in s[k..] by {
      assert s == s[..k] + s[k..];
    }
    s[..k] + [m] + s[k..]
  }

  /** Insertion keeps a list newest first, and keeps ids distinct when the
      new map's id is not in the list yet. */
  lemma InsertKeepsOrder(s: seq<MapWithId>, m: MapWithId)
    requires NewestFirst(s)
    ensures NewestFirst(InsertByCreated(s, m))
    ensures DistinctIds(s) && (forall x :: x in s ==> x.id != m.id) ==> DistinctIds(InsertByCreated(s, m))
  {
    var k := InsertionPoint(s, m.createdAt);
    var r := InsertByCreated(s, m);
    InsertedAt(s, m);
    forall i, j | 0 <= i < j < |r|
      ensures AtLeastAsNew(r[i].createdAt, r[j].createdAt)
    {
      if i == k {
        assert AtLeastAsNew(m.createdAt, s[k].createdAt);
      } else if j == k {
        assert !AtLeastAsNew(m.createdAt, s[i].createdAt);
      }
    }
  }

  /** Where each element of the inserted list comes from. */
  lemma InsertedAt(s: seq<MapWithId>, m: MapWithId)
    ensures var k := InsertionPoint(s, m.createdAt);
      var r := InsertByCreated(s, m);
      && (forall i :: 0 <= i < k ==> r[i] == s[i])
      && r[k] == m
      && (forall i :: k < i < |r| ==> r[i] == s[i - 1])
  {
  }

  /** `listMapsByOwner`: every map of `ownerUid` that has a createdAt, each
      once, converted, newest first. Maps created at the same time come in
      an order this model leaves open. */
  method ListMapsByOwner(db: Firestore, ownerUid: string) returns (r: seq<MapWithId>)
    ensures NewestFirst(r)
    ensures forall m :: m in r ==>
      m.id in db.maps && Listed(db.maps[m.id], ownerUid) && m == FromFirestore(m.id, db.maps[m.id])
    ensures forall id :: id in db.maps && Listed(db.maps[id], ownerUid) ==> FromFirestore(id, db.maps[id]) in r
    ensures DistinctIds(r)
  {
    var rest := db.maps.Keys;
    r := [];
    while rest != {}
      invariant rest <= db.maps.Keys
      invariant NewestFirst(r) && DistinctIds(r)
      invariant forall m :: m in r ==>
        m.id in db.maps.Keys - rest && Listed(db.maps[m.id], ownerUid) && m == FromFirestore(m.id, db.maps[m.id])
      invariant forall id :: id in db.maps.Keys - rest && Listed(db.maps[id], ownerUid) ==>
        FromFirestore(id, db.maps[id]) in r
      decreases |rest|
    {
      var id :| id in rest;
      rest := rest - {id};
      if Listed(db.maps[id], ownerUid) {
        var m := FromFirestore(id, db.maps[id]);
        InsertKeepsOrder(r, m);
        r := InsertByCreated(r, m);
      }
    }
  }

  /** The document `createMap` writes: the input, a zero pinCount and both
      timestamps set to the server time. */
  function NewMapDoc(input: CreateMapInput, now: Timestamp): MapData {
    MapData(Has(input.name), Has(input.ownerUid), Has(input.styleKey), Has(input.styleUrl),
            Missing, Has(input.boundingBox), Has(input.center), Has(input.zoom),
            Has(0.0), Has(now), Has(now))
  }

  /** `createMap`: a new document under a fresh id, which is returned. */
  method CreateMap(db: Firestore, input: CreateMapInput, now: Timestamp, online: bool)
    returns (r: Result<string, StoreError>)
    modifies db
    ensures !online ==> r == Err(Unavailable) && db.maps == old(db.maps)
    ensures online ==> r.Ok? && r.value != "" && r.value !in old(db.maps)
                       && db.maps == old(db.maps)[r.value := NewMapDoc(input, now)]
    ensures db.pins == old(db.pins) && db.polaroids == old(db.polaroids) && db.blobs == old(db.blobs)
  {
    if !online {
      return Err(Unavailable);
    }
    var id := FreshId(db.maps.Keys);
    db.maps := db.maps[id := NewMapDoc(input, now)];
    r := Ok(id);
  }

  /** A freshly created map reads back as its input with no thumbnail, a zero
      pin count and both timestamps at the creation time; it satisfies the
      map document schema exactly when the input satisfies the create schema. */
  lemma NewMapDocReadsBack(id: string, input: CreateMapInput, now: Timestamp, isUrl: string -> bool)
    ensures FromFirestore(id, NewMapDoc(input, now)) ==
      MapWithId(id, input.name, input.ownerUid, input.styleKey, input.styleUrl, None,
                input.boundingBox, input.center, input.zoom, 0.0, Has(now), Has(now))
    ensures InputOf(NewMapDoc(input, now)) == Some(input)
    ensures ValidMapDoc(NewMapDoc(input, now), isUrl) <==> ValidCreateMapInput(input, isUrl)
  {
    assert ValidPinCount(0.0);
  }

  /** `increment(delta)` with a new updatedAt: a numeric count grows by
      `delta`; an absent or non-numeric one is set to `delta`. */
  function Adjusted(d: MapData, delta: real, now: Timestamp): (r: MapData)
    ensures r.pinCount.Has? && r.updatedAt == Has(now)
    ensures r.pinCount.value == (if d.pinCount.Has? then d.pinCount.value + delta else delta)
    ensures r.(pinCount := d.pinCount, updatedAt := d.updatedAt) == d
  {
    d.(pinCount := Has(d.pinCount.Or(0.0) + delta), updatedAt := Has(now))
  }

  /** `adjustPinCount`: fails when the map does not exist (an update never
      creates a document) or the service is unreachable. */
  method AdjustPinCount(db: Firestore, mapId: string, delta: real, now: Timestamp, online: bool)
    returns (r: Result<(), StoreError>)
    modifies db
    ensures !online ==> r == Err(Unavailable) && db.maps == old(db.maps)
    ensures online && mapId !in old(db.maps) ==> r == Err(NotFound) && db.maps == old(db.maps)
    ensures online && mapId in old(db.maps) ==>
      r.Ok? && db.maps == old(db.maps)[mapId := Adjusted(old(db.maps)[mapId], delta, now)]
    ensures db.pins == old(db.pins) && db.polaroids == old(db.polaroids) && db.blobs == old(db.blobs)
  {
    if !online {
      return Err(Unavailable);
    }
    if mapId !in db.maps {
      return Err(NotFound);
    }
    db.maps := db.maps[mapId := Adjusted(db.maps[mapId], delta, now)];
    r := Ok(());
  }

  /** Adjusting by `delta` and then by `-delta` restores the pin count exactly
      when the count was a number to begin with. */
  lemma AdjustUndo(d: MapData, delta: real, t1: Timestamp, t2: Timestamp)
    ensures Adjusted(Adjusted(d, delta, t1), -delta, t2).pinCount == d.pinCount <==> d.pinCount.Has?
  {
  }

  /** Nothing bounds the count below: a decrement on a map with no pins leaves
      a document that fails the map document schema. */
  lemma DecrementCanBreakSchema(d: MapData, now: Timestamp, isUrl: string -> bool)
    requires ValidMapDoc(d, isUrl) && d.pinCount == Has(0.0)
    ensures !ValidMapDoc(Adjusted(d, -1.0, now), isUrl)
  {
  }

  /** An increment by one, as a dropped pin makes, keeps a valid document
      valid. */
  lemma IncrementKeepsSchema(d: MapData, now: Timestamp, isUrl: string -> bool)
    requires ValidMapDoc(d, isUrl)
    ensures ValidMapDoc(Adjusted(d, 1.0, now), isUrl)
  {
    var n := d.pinCount.value;
    assert (n + 1.0).Floor == n.Floor + 1;
  }
}
