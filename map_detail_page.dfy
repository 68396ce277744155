/** The map detail page: loads the map (checking that the signed-in user owns
    it), mirrors the map's pins from the subscription, selects a pin when its
    marker is clicked and moves the camera to it (restoring the earlier view
    on deselect), and lets the user drag a colored pin from the toolbar onto
    the map, where it is dropped at the point just above the finger or
    cursor.

    The map's camera and `unproject` are opaque: the current pose and the
    projection are inputs, and `cameraMoves` records the `easeTo` calls. */
module MapDetailPage {
  import opened Wrappers
  import opened Values
  import opened MapConverter
  import opened PinConverter
  import opened PinSchema
  import opened Store
  import opened EdgeScroll
  import MapRepository
  import PinRepository
  import MapFeatureRepository

  /** The drag state of the toolbar pin. */
  datatype DragState = DragState(isDragging: bool, color: Option<PinColor>, position: Vec)

  const IdleDrag := DragState(false, None, Vec(0.0, 0.0))

  const MobileDragOffsetY := 60.0
  const DesktopDragOffsetY := 24.0

  /** How far above the cursor the pin's tip is drawn, and so where it lands. */
  function DragOffset(isMobile: bool): (r: real)
    ensures r > 0.0
    ensures isMobile ==> r == MobileDragOffsetY
    ensures !isMobile ==> r == DesktopDragOffsetY
  {
    if isMobile then MobileDragOffsetY else DesktopDragOffsetY
  }

  /** The screen point a pin dropped at (x, y) lands on. */
  function DropPoint(x: real, y: real, isMobile: bool): (r: Vec)
    ensures r.x == x && r.y < y && y - r.y == DragOffset(isMobile)
  {
    Vec(x, y - DragOffset(isMobile))
  }

  /** The toolbar's color toggle: clicking the selected color clears it. */
  function Toggled(selected: Option<PinColor>, clicked: PinColor): (r: Option<PinColor>)
    ensures r.None? <==> selected == Some(clicked)
    ensures r.Some? ==> r.value == clicked
  {
    if selected == Some(clicked) then None else Some(clicked)
  }

  /** Clicking the same color twice restores the selection exactly when the
      selection was empty or was that color. */
  lemma ToggleTwice(selected: Option<PinColor>, clicked: PinColor)
    ensures Toggled(Toggled(selected, clicked), clicked) == selected <==> selected.None? || selected == Some(clicked)
  {
  }

  // ── Camera ───────────────────────────────────────────────────

  datatype CameraPose = CameraPose(center: LatLng, zoom: real, bearing: real, pitch: real)

  /** An `easeTo` call: to a selected pin, or back to a saved pose. */
  datatype CameraMove = EaseToPin(location: LatLng) | EaseToPose(pose: CameraPose)

  datatype CameraStep = CameraStep(cache: Option<CameraPose>, move: Option<CameraMove>)

  /** One run of the camera effect, with `selected` the selected pin's
      location and `current` the camera pose at that moment. */
  function CameraEffect(selected: Option<LatLng>, cache: Option<CameraPose>, current: CameraPose): (r: CameraStep)
    ensures selected.Some? ==> r.move == Some(EaseToPin(selected.value))
    ensures selected.Some? ==> r.cache == (if cache.Some? then cache else Some(current))
    ensures selected.None? ==> r.cache.None?
    ensures selected.None? ==> (r.move.Some? <==> cache.Some?)
    ensures selected.None? && cache.Some? ==> r.move == Some(EaseToPose(cache.value))
  {
    if selected.Some? then
      CameraStep(if cache.Some? then cache else Some(current), Some(EaseToPin(selected.value)))
    else if cache.Some? then CameraStep(None, Some(EaseToPose(cache.value)))
    else CameraStep(None, None)
  }

  /** The cache after a run of selections, each with the pose at its time. */
  function CacheAfter(selections: seq<(LatLng, CameraPose)>, cache: Option<CameraPose>): Option<CameraPose> {
    if selections == [] then cache
    else CacheAfter(selections[1..], CameraEffect(Some(selections[0].0), cache, selections[0].1).cache)
  }

  /** Moving from pin to pin keeps the pose saved at the first selection:
      after any run of selections that starts with nothing cached, the
      deselect eases back to the view from before the first pin was
      selected, and clears the cache. */
  lemma {:induction false} DeselectRestoresFirstPose(selections: seq<(LatLng, CameraPose)>, current: CameraPose)
    requires selections != []
    ensures CacheAfter(selections, None) == Some(selections[0].1)
    ensures CameraEffect(None, CacheAfter(selections, None), current) ==
            CameraStep(None, Some(EaseToPose(selections[0].1)))
  {
    CacheKept(selections[1..], selections[0].1);
  }

  lemma {:induction false} CacheKept(selections: seq<(LatLng, CameraPose)>, pose: CameraPose)
    ensures CacheAfter(selections, Some(pose)) == Some(pose)
  {
    if selections != [] {
      CacheKept(selections[1..], pose);
    }
  }

  // ── The page ─────────────────────────────────────────────────

  datatype PageError = MapNotFound | NoPermission | LoadFailed

  /** What a pointer-up did. */
  datatype DropOutcome = Ignored | NoMapInstance | Dropped(pinId: string) | DropFailed(error: StoreError)

  /** The page's state and refs, as one value: each handler's contract says
      which of them it changes by updating this value. */
  datatype PageState = PageState(
    mapData: Option<MapWithId>,
    isLoading: bool,
    error: Option<PageError>,
    selectedPinColor: Option<PinColor>,
    pins: seq<PinWithId>,
    selectedPin: Option<PinWithId>,
    isMapReady: bool,
    previousCamera: Option<CameraPose>,
    cameraMoves: seq<CameraMove>,
    drag: DragState)

  class MapDetail {
    const db: Firestore
    const edge: EdgeScroller
    /** The route's `mapId` query value when it is a single string. */
    const routeMapId: Option<string>
    /** The signed-in user's uid. */
    const uid: Option<string>

    var mapData: Option<MapWithId>
    var isLoading: bool
    var error: Option<PageError>
    var selectedPinColor: Option<PinColor>
    var pins: seq<PinWithId>
    var selectedPin: Option<PinWithId>
    /** Set together with the map handle ref, so it also says whether
        `getMap()` has a map instance. */
    var isMapReady: bool
    var previousCamera: Option<CameraPose>
    var cameraMoves: seq<CameraMove>
    var drag: DragState

    function State(): PageState
      reads this
    {
      PageState(mapData, isLoading, error, selectedPinColor, pins, selectedPin,
                isMapReady, previousCamera, cameraMoves, drag)
    }

    predicate Valid()
      reads this, edge
    {
      && edge.Valid()
      && (drag.isDragging <==> drag.color.Some?)
    }

    /** `mapId && typeof mapId === 'string'`. */
    predicate HasMapId() {
      routeMapId.Some? && routeMapId.value != ""
    }

    /** `firebaseUser?.uid` is a non-empty string. */
    predicate SignedIn() {
      uid.Some? && uid.value != ""
    }

    constructor (store: Firestore, route: Option<string>, user: Option<string>)
      ensures Valid() && fresh(edge)
      ensures db == store && routeMapId == route && uid == user
      ensures State() == PageState(None, true, None, None, [], None, false, None, [], IdleDrag)
      ensures edge.threshold == 50.0 && edge.maxSpeed == 15.0 && edge.pans == []
    {
      db := store;
      edge := new EdgeScroller.Default();
      routeMapId, uid := route, user;
      mapData, isLoading, error, selectedPinColor := None, true, None, None;
      pins, selectedPin, isMapReady := [], None, false;
      previousCamera, cameraMoves, drag := None, [], IdleDrag;
    }

    /** `loadMap`: nothing without a map id; without a user, stop loading;
        otherwise fetch the map (`online` false is a failed fetch) and show
        it only to its owner. */
    method LoadMap(online: bool)
      requires Valid()
      modifies this
      ensures Valid()
      ensures !HasMapId() ==> isLoading == old(isLoading) && error == old(error) && mapData == old(mapData)
      ensures HasMapId() ==> !isLoading
      ensures HasMapId() && !SignedIn() ==> error == old(error) && mapData == old(mapData)
      ensures HasMapId() && SignedIn() ==>
        var found := MapRepository.GetMapById(db, routeMapId.value);
        && (!online ==> error == Some(LoadFailed) && mapData == old(mapData))
        && (online && found.None? ==> error == Some(MapNotFound) && mapData == old(mapData))
        && (online && found.Some? && found.value.ownerUid != uid.value ==>
              error == Some(NoPermission) && mapData == old(mapData))
        && (online && found.Some? && found.value.ownerUid == uid.value ==>
              error == old(error) && mapData == found)
      ensures State() == old(State()).(mapData := mapData, isLoading := isLoading, error := error)
    {
      if !HasMapId() {
        return;
      }
      if !SignedIn() {
        isLoading := false;
        return;
      }
      if !online {
        error := Some(LoadFailed);
        isLoading := false;
        return;
      }
      var found := MapRepository.GetMapById(db, routeMapId.value);
      if found.None? {
        error := Some(MapNotFound);
      } else if found.value.ownerUid != uid.value {
        error := Some(NoPermission);
      } else {
        mapData := found;
      }
      isLoading := false;
    }

    /** A pin snapshot arrives: the list is replaced by the map's current
        pins, each once and as the converter reads it, and a selected pin
        that is no longer among them is deselected. Without a map id or a
        user there is no subscription. */
    method ReceivePins()
      requires Valid()
      modifies this
      ensures Valid()
      ensures !(HasMapId() && SignedIn()) ==> State() == old(State())
      ensures HasMapId() && SignedIn() ==>
        && (forall p :: p in pins ==>
              DocPath(routeMapId.value, p.id) in db.pins
              && p == PinConverter.FromFirestore(p.id, db.pins[DocPath(routeMapId.value, p.id)]))
        && (forall path :: path in db.pins && path.parent == routeMapId.value ==>
              PinConverter.FromFirestore(path.id, db.pins[path]) in pins)
        && (forall i, j :: 0 <= i < j < |pins| ==> pins[i].id != pins[j].id)
        && (selectedPin.Some? <==> old(selectedPin).Some? && exists p :: p in pins && p.id == old(selectedPin).value.id)
        && (selectedPin.Some? ==> selectedPin == old(selectedPin))
      ensures State() == old(State()).(pins := pins, selectedPin := selectedPin)
    {
      if !(HasMapId() && SignedIn()) {
        return;
      }
      var snapshot := PinRepository.SnapshotPins(db, routeMapId.value);
      pins := snapshot;
      if selectedPin.Some? && !(exists p :: p in pins && p.id == selectedPin.value.id) {
        selectedPin := None;
      }
    }

    /** The map canvas reports ready and hands over its handle. */
    method MapReady()
      requires Valid()
      modifies this
      ensures Valid()
      ensures State() == old(State()).(isMapReady := true)
    {
      isMapReady := true;
    }

    /** A click on the marker of `pins[i]` selects that pin. */
    method ClickMarker(i: nat)
      requires Valid() && i < |pins|
      modifies this
      ensures Valid()
      ensures State() == old(State()).(selectedPin := Some(old(pins)[i]))
    {
      selectedPin := Some(pins[i]);
    }

    /** A click on the blank map deselects; the listener exists only once
        the map is ready. */
    method ClickMap()
      requires Valid()
      modifies this
      ensures Valid()
      ensures State() == old(State()).(selectedPin := if old(isMapReady) then None else old(selectedPin))
    {
      if isMapReady {
        selectedPin := None;
      }
    }

    /** The camera effect, run after a render that changed the selection or
        the map's readiness; `current` is the camera pose at that moment. */
    method RunCameraEffect(current: CameraPose)
      requires Valid()
      modifies this
      ensures Valid()
      ensures !isMapReady ==> State() == old(State())
      ensures isMapReady ==>
        var step := CameraEffect(if selectedPin.Some? then Some(selectedPin.value.location) else None,
                                 old(previousCamera), current);
        && previousCamera == step.cache
        && cameraMoves == old(cameraMoves) + (if step.move.Some? then [step.move.value] else [])
      ensures State() == old(State()).(previousCamera := previousCamera, cameraMoves := cameraMoves)
    {
      if !isMapReady {
        return;
      }
      var step := CameraEffect(if selectedPin.Some? then Some(selectedPin.value.location) else None,
                               previousCamera, current);
      previousCamera := step.cache;
      if step.move.Some? {
        cameraMoves := cameraMoves + [step.move.value];
      }
    }

    method ToggleColor(clicked: PinColor)
      requires Valid()
      modifies this
      ensures Valid()
      ensures State() == old(State()).(selectedPinColor := Toggled(old(selectedPinColor), clicked))
    {
      selectedPinColor := Toggled(selectedPinColor, clicked);
    }

    // ── Drag and drop ──────────────────────────────────────────

    /** `handleDragStart`: dragging the given color from the given point. */
    method DragStart(color: PinColor, position: Vec)
      requires Valid()
      modifies this
      ensures Valid()
      ensures State() == old(State()).(drag := DragState(true, Some(color), position))
    {
      drag := DragState(true, Some(color), position);
    }

    /** `handleDragMove`: ignored when not dragging; otherwise the position
        follows the cursor and, off mobile, edge scrolling is fed. */
    method DragMove(x: real, y: real, isMobile: bool, width: real, height: real)
      requires Valid()
      modifies this, edge
      ensures Valid()
      ensures State() == old(State()).(drag := if old(drag.isDragging) then old(drag).(position := Vec(x, y)) else old(drag))
      ensures !old(drag.isDragging) || isMobile ==>
        edge.pointer == old(edge.pointer) && edge.pending == old(edge.pending)
      ensures old(drag.isDragging) && !isMobile ==>
        var starts := !old(edge.isScrolling) && PanVector(x, y, width, height, edge.threshold, edge.maxSpeed).Some?;
        && edge.pointer == Some(Vec(x, y))
        && (starts ==> edge.pending == {old(edge.nextFrame)} && edge.frameId == Some(old(edge.nextFrame)))
        && (!starts ==> edge.pending == old(edge.pending) && edge.frameId == old(edge.frameId)
                        && edge.isScrolling == old(edge.isScrolling))
      ensures edge.pans == old(edge.pans)
    {
      if !drag.isDragging {
        return;
      }
      drag := drag.(position := Vec(x, y));
      if !isMobile {
        edge.UpdatePosition(x, y, !isMobile && drag.isDragging, width, height);
      }
    }

    /** `handleDragCancel`: stop edge scrolling and reset the drag. */
    method DragCancel()
      requires Valid()
      modifies this, edge
      ensures Valid()
      ensures State() == old(State()).(drag := IdleDrag)
      ensures edge.pointer.None? && !edge.isScrolling && edge.pending == {}
      ensures edge.pans == old(edge.pans)
    {
      edge.StopScroll();
      drag := IdleDrag;
    }

    /** `handleDragEnd` at (x, y). Without a drag, a color, a map id or a
        user nothing happens at all. Otherwise edge scrolling stops, and the
        pin is dropped through `dropPinOnMap` at the map location `unproject`
        gives for the point offset above the cursor — unless the map
        instance is missing; on success the local pin count goes up by one.
        Every path past the guards ends with the drag reset. */
    method DragEnd(x: real, y: real, isMobile: bool, unproject: Vec -> LatLng,
                   now: Timestamp, createOnline: bool, adjustOnline: bool)
      returns (outcome: DropOutcome)
      requires Valid()
      modifies this, edge, db
      ensures Valid()
      ensures outcome.Ignored? <==> !(old(drag.isDragging) && HasMapId() && SignedIn())
      ensures outcome.Ignored? ==>
        State() == old(State()) && edge.pending == old(edge.pending)
        && edge.pointer == old(edge.pointer) && db.pins == old(db.pins) && db.maps == old(db.maps)
      ensures !outcome.Ignored? ==> drag == IdleDrag && edge.pointer.None? && edge.pending == {}
      ensures outcome.NoMapInstance? <==> !outcome.Ignored? && !isMapReady
      ensures outcome.NoMapInstance? ==> mapData == old(mapData) && db.pins == old(db.pins) && db.maps == old(db.maps)
      ensures outcome.Dropped? ==>
        && DocPath(routeMapId.value, outcome.pinId) !in old(db.pins)
        && DocPath(routeMapId.value, outcome.pinId) in db.pins
        && db.pins[DocPath(routeMapId.value, outcome.pinId)] == PinRepository.NewPinDoc(
             CreatePinInput(routeMapId.value, uid.value, unproject(DropPoint(x, y, isMobile)),
                            Style(old(drag.color).value.Name(), "standard")), now)
        && mapData == (if old(mapData).Some? then Some(old(mapData).value.(pinCount := old(mapData).value.pinCount + 1.0))
                       else None)
      ensures outcome.Dropped? ==>
        var k := DocPath(routeMapId.value, outcome.pinId);
        && db.pins == old(db.pins)[k := db.pins[k]]
        && routeMapId.value in old(db.maps)
        && db.maps == old(db.maps)[routeMapId.value := MapRepository.Adjusted(old(db.maps)[routeMapId.value], 1.0, now)]
      ensures outcome.DropFailed? ==> mapData == old(mapData) && db.maps == old(db.maps)
      ensures db.polaroids == old(db.polaroids) && db.blobs == old(db.blobs)
      ensures State() == old(State()).(drag := drag, mapData := mapData)
      ensures edge.pans == old(edge.pans)
    {
      if !drag.isDragging || drag.color.None? {
        return Ignored;
      }
      if !HasMapId() || !SignedIn() {
        return Ignored;
      }
      edge.StopScroll();
      var point := DropPoint(x, y, isMobile);
      if !isMapReady {
        drag := IdleDrag;
        return NoMapInstance;
      }
      var location := unproject(point);
      var params := MapFeatureRepository.DropPinParams(routeMapId.value, uid.value, location, drag.color.value, None);
      var result := MapFeatureRepository.DropPinOnMap(db, params, now, createOnline, adjustOnline);
      if result.Ok? {
        if mapData.Some? {
          mapData := Some(mapData.value.(pinCount := mapData.value.pinCount + 1.0));
        }
        outcome := Dropped(result.value);
      } else {
        outcome := DropFailed(result.error);
      }
      drag := IdleDrag;
    }
  }
}
