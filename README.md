# machi-pin core, modelled in Dafny

machi-pin is a web app for making personal maps. A signed-in user creates a
map, drags colored pins from a toolbar onto it, and pins Polaroid-style cards
(a photo and/or a memo) to each pin. The cards on a pin form a stack; the last
one is the card on top. Everything is stored in Firestore and Firebase
Storage.

This project models the client-side logic underneath those screens and
proves properties about it:

- **Record shaping.** The Firestore converters for maps, pins and users
  (`wrappers.dfy`, `values.dfy`, `map_converter.dfy`, `pin_converter.dfy`,
  `user_converter.dfy`). A raw document field is `Missing`, `Null` or
  `Has(v)`, so JavaScript's `??` and `||` defaults are exact.
- **Schemas.** The zod schemas for pins and maps, as predicates
  (`pin_schema.dfy`, `map_schema.dfy`).
- **The store and its gateway.** `store.dfy` is an in-memory Firestore: maps,
  per-map pins and polaroids, and storage blobs, with fresh document ids. The
  Firebase package's repositories work over it (`map_repository.dfy`,
  `pin_repository.dfy`, `polaroid_repository.dfy`). The web app's map
  repository `dropPinOnMap` is in `map_feature_repository.dfy`. Its
  `fetchMap`, `createMap` and `subscribeToPins` hand their arguments unchanged
  to `MapRepository.GetMapById`, `MapRepository.CreateMap` and
  `PinRepository.SnapshotPins`, so those members model them.
- **Shared helpers.** JavaScript `trim`, number rendering and `join` are in
  `text.dfy`. Append-if-absent (`arrayUnion`) and remove-by-value on id lists
  are in `id_list.dfy`.
- **The pin inspector state machine.** `pin_inspector.dfy` has one class for
  the hook's six state fields. Each run of the hydrate effect gets a new
  epoch, and a fetch result from an older epoch is ignored: this stands for
  the `cancelled` flag. Repository outcomes are inputs, and the requests the
  machine makes are logged.
- **Edge scrolling while dragging.** `edge_scroll.dfy` has the pan vector
  over reals, and a class for the hook's refs. Pending animation frames are
  tracked there, and at most one is ever pending.
- **The map detail page.** `map_detail_page.dfy` covers:
  - loading the map with its owner check;
  - mirroring pin snapshots, and deselecting a pin that vanished;
  - selecting and deselecting pins;
  - the camera cache;
  - the drag-and-drop gesture, which drops the pin through `dropPinOnMap` at
    the point just above the cursor.
- **The map-name dialog.** `map_name_modal.dfy`: when it confirms, when it
  closes, and what name it confirms with.

Some inputs are opaque:

- The server time is the `now` parameter.
- Whether the service is reachable is an `online` flag.
- The map's `unproject` is a function parameter.
- The camera pose, the window size and `isMobile` are parameters.
- The URL validator of the map schema is a predicate parameter.

## Model

| member | source | states |
|---|---|---|
| MapConverter.FromFirestoreDefaults | packages/firebase/src/converters/mapConverter.ts:27-37 | the id is the snapshot id; each absent or null field takes its default ('' for name, ownerUid, styleKey and styleUrl, zoom 1, pinCount 0, an all-zero box and a (0,0) center), while every present value, 0 and '' included, passes through; thumbnailUrl is undefined exactly when not present |
| MapConverter.RoundTrip | packages/firebase/src/converters/mapConverter.ts:16-40 | reading back what toFirestore wrote, under the map's own id, gives the map unchanged |
| MapConverter.StoredRoundTripIff | packages/firebase/src/converters/mapConverter.ts:16-40 | converting a stored document out and back in reproduces it exactly when every defaulted field was present and non-null |
| PinConverter.FromFirestoreShape | packages/firebase/src/converters/pinConverter.ts:26-33 | id from the snapshot; present mapId, ownerUid, location and style pass through, and absent ones default to '', '', (0,0) and red/standard; createdAt is kept as stored; attachments and updatedAt are never read |
| PinConverter.RoundTrip | packages/firebase/src/converters/pinConverter.ts:16-33 | a round trip keeps id, mapId, ownerUid, location, style and createdAt, and drops the attachment list and updatedAt |
| PinConverter.RoundTripLosesAttachments | packages/firebase/src/converters/pinConverter.ts:26-33 | a pin that has an attachment list never survives the round trip |
| UserConverter.ToDate | packages/firebase/src/converters/userConverter.ts:44-50 | a Date or a Timestamp gives its time; anything else gives the current time |
| UserConverter.FromFirestoreShape | packages/firebase/src/converters/userConverter.ts:31-40 | id is uid when uid is non-empty, else the snapshot id; present email, displayName and photoURL pass through; a missing email is ''; null or missing displayName and photoURL are undefined |
| UserConverter.RoundTrip | packages/firebase/src/converters/userConverter.ts:16-40 | a user with a non-empty id survives the round trip; with an empty id it comes back under the snapshot id |
| PinSchema.IsPinColorIff | packages/firebase/src/schema/pin.ts:3 | a color string is accepted exactly when it names one of red, blue and yellow |
| PinSchema.DocValidIffInputValid | packages/firebase/src/schema/pin.ts:19-33 | a pin document is valid exactly when its fields other than createdAt are present and form a valid create input |
| MapSchema.DocValidIff | packages/firebase/src/schema/map.ts:18-41 | a map document is valid exactly when its create-input part is valid, its pinCount is a non-negative integer and its optional thumbnailUrl is a URL |
| MapSchema.AnyBoxAccepted | packages/firebase/src/schema/map.ts:3-8 | any four numbers form an acceptable bounding box; no north/south or east/west order is checked |
| Text.TrimIsSlice | apps/web/components/MapNameModal.tsx:37 | `trim` returns a contiguous piece of its input with no whitespace at either end, and everything cut away is whitespace |
| Text.TrimEmptyIff | apps/web/features/pin/hooks/usePinInspectorMachine.ts:123 | a string trims to '' exactly when it is all whitespace |
| Text.TrimIdempotent | apps/web/features/pin/hooks/usePinInspectorMachine.ts:134 | trimming twice is trimming once |
| Text.NatToStringInjective | packages/firebase/src/repositories/polaroidRepository.ts:39 | different timestamps render as different decimal strings |
| IdList.AppendIfAbsent | packages/firebase/src/repositories/pinRepository.ts:55 | the id ends up in the list; a present id leaves the list unchanged; an absent one is appended last with the rest kept in order |
| IdList.RemoveAllCounts | apps/web/features/pin/hooks/usePinInspectorMachine.ts:170 | filtering out an id keeps the number of occurrences of every other id, and shortens the list by the id's count |
| IdList.RemoveAllAppend | apps/web/features/pin/hooks/usePinInspectorMachine.ts:170 | the filter keeps relative order: it distributes over concatenation |
| IdList.AppendIfAbsentTwice | packages/firebase/src/repositories/pinRepository.ts:55 | on a duplicate-free list, appending twice is appending once, and the id occurs exactly once |
| IdList.RemoveAllNoDuplicates | apps/web/features/pin/hooks/usePinInspectorMachine.ts:170-171 | the filter keeps a duplicate-free list duplicate-free |
| IdList.RemoveAfterAppend | apps/web/features/pin/hooks/usePinInspectorMachine.ts:142-171 | appending an id and then filtering it out equals just filtering it out |
| Store.FreshId | packages/firebase/src/repositories/mapRepository.ts:55 | the generated document id is non-empty and not yet taken |
| MapRepository.GetMapById | packages/firebase/src/repositories/mapRepository.ts:33-36 | null exactly when there is no document for the id; otherwise the converted map, whose id is the requested id |
| MapRepository.ListMapsByOwner | packages/firebase/src/repositories/mapRepository.ts:39-47 | exactly the owner's maps that have a createdAt, each once and converted, newest first, with null after every timestamp |
| MapRepository.InsertKeepsOrder | packages/firebase/src/repositories/mapRepository.ts:43 | inserting a map at its place keeps the list newest first, and keeps ids distinct |
| MapRepository.CreateMap | packages/firebase/src/repositories/mapRepository.ts:53-62 | the new document goes under a fresh id, which is returned; nothing else in the store changes; a write failure changes nothing |
| MapRepository.NewMapDocReadsBack | packages/firebase/src/repositories/mapRepository.ts:55-60 | a created map reads back as its input with pinCount 0, no thumbnail and both timestamps at creation time; the document is valid exactly when the input is |
| MapRepository.Adjusted | packages/firebase/src/repositories/mapRepository.ts:69-72 | increment adds delta to a numeric count and sets a missing or non-numeric count to delta; updatedAt is set; no other field changes |
| MapRepository.AdjustPinCount | packages/firebase/src/repositories/mapRepository.ts:65-73 | a missing map gives NotFound and an unreachable service Unavailable, both with no change; otherwise only that map's document is adjusted |
| MapRepository.AdjustUndo | packages/firebase/src/repositories/mapRepository.ts:65-73 | adjusting by d and then by -d restores the count exactly when the count was numeric |
| MapRepository.DecrementCanBreakSchema | packages/firebase/src/repositories/mapRepository.ts:70 | nothing bounds the count below: decrementing a valid map with count 0 yields an invalid document |
| MapRepository.IncrementKeepsSchema | packages/firebase/src/repositories/mapRepository.ts:70 | incrementing by one keeps a valid map document valid |
| PinRepository.NewPinDocReadsBack | packages/firebase/src/repositories/pinRepository.ts:30-33 | the created pin document holds exactly the input (no attachments, no updatedAt), and it is valid exactly when the input is |
| PinRepository.CreatePin | packages/firebase/src/repositories/pinRepository.ts:27-35 | the document is stored under a fresh id in that map's pins, and the id is returned; nothing else changes; a write failure changes nothing |
| PinRepository.Attached | packages/firebase/src/repositories/pinRepository.ts:54-57 | the id is in the list afterwards; updatedAt is set; no other pin field changes |
| PinRepository.AttachPolaroidToPin | packages/firebase/src/repositories/pinRepository.ts:48-58 | a missing pin gives NotFound and an unreachable service Unavailable, both with no change; otherwise only that pin is updated |
| PinRepository.AttachProperties | packages/firebase/src/repositories/pinRepository.ts:55 | never a duplicate; a new id goes last with the old ids in order; attaching the same id again changes nothing |
| PinRepository.AttachInvisibleToReaders | packages/firebase/src/repositories/pinRepository.ts:54-57 | attaching changes neither schema validity nor what the converter reads |
| PinRepository.SnapshotPins | packages/firebase/src/repositories/pinRepository.ts:60-70 | the snapshot holds every pin document of that map, each once, through the converter, and nothing else |
| PolaroidRepository.FirstSegmentOf | packages/firebase/src/repositories/polaroidRepository.ts:39 | splitting at the first '/' recovers a slash-free head and the rest |
| PolaroidRepository.StoragePathParses | packages/firebase/src/repositories/polaroidRepository.ts:39 | the storage path reads back as the user, the map and `{timestamp}_{filename}` when the ids contain no '/' |
| PolaroidRepository.StoragePathsDiffer | packages/firebase/src/repositories/polaroidRepository.ts:39 | two uploads of the same file differ in path exactly when their timestamps differ |
| PolaroidRepository.UploadPolaroidPhoto | packages/firebase/src/repositories/polaroidRepository.ts:34-46 | the returned path is the path the blob was stored under |
| PolaroidRepository.WrittenIfTruthy | packages/firebase/src/repositories/polaroidRepository.ts:58-60 | an optional string is written exactly when it is truthy, so an empty memo is omitted |
| PolaroidRepository.CreatePolaroid | packages/firebase/src/repositories/polaroidRepository.ts:53-65 | the shaped document goes under a fresh id in that map's polaroids, and the id is returned |
| PolaroidRepository.CreatedMillis | packages/firebase/src/repositories/polaroidRepository.ts:92 | a missing, null or zero createdAt becomes the current time |
| PolaroidRepository.GetPolaroid | packages/firebase/src/repositories/polaroidRepository.ts:69-94 | null exactly when mapId or polaroidId is empty or the document does not exist; otherwise the id is the document id |
| PolaroidRepository.CreatedPolaroidReadsBack | packages/firebase/src/repositories/polaroidRepository.ts:53-94 | type defaults to 'default'; memo and photoUrl are present exactly when they were truthy; a written `{lat,lng}` location reads back with both components undefined |
| PolaroidRepository.LookupAll | packages/firebase/src/repositories/polaroidRepository.ts:127-129 | the per-id fallback returns only found polaroids for requested ids |
| PolaroidRepository.LookupAllComplete | packages/firebase/src/repositories/polaroidRepository.ts:127-129 | when every id exists, the fallback gives one polaroid per id, in input order |
| PolaroidRepository.GetPolaroidsByIds | packages/firebase/src/repositories/polaroidRepository.ts:99-130 | [] for an empty mapId or id list; up to ten ids give exactly the existing documents, once each, without location (an empty id is rejected); more than ten give the fallback |
| MapFeatureRepository.PinInputOf | apps/web/features/map/repositories/mapRepository.ts:54-62 | the pin gets the params' mapId, ownerUid, location and color, and iconType 'standard' unless one is given |
| MapFeatureRepository.DroppedPinIsValid | apps/web/features/map/repositories/mapRepository.ts:54-62 | a drop with non-empty ids and an in-range location passes the create-pin schema |
| MapFeatureRepository.DropPinOnMap | apps/web/features/map/repositories/mapRepository.ts:53-67 | the pin is created first; a failed create writes nothing; a failed increment leaves the pin and fails; on success the count rises by one and the new pin's id is returned; count and pins stay consistent unless the drop fails half-way |
| MapFeatureRepository.DropsAddCount | apps/web/features/map/repositories/mapRepository.ts:64 | N successful drops raise a numeric pin count by exactly N and change nothing else but updatedAt |
| EdgeScroll.PanVector | apps/web/features/map/useEdgeScroll.ts:24-34 | a non-null pan vector is never zero on both axes |
| EdgeScroll.NoPanIff | apps/web/hooks/useEdgeScroll.ts:51-82 | with a non-zero speed the vector is null exactly when the cursor is inside all four margins |
| EdgeScroll.ComponentZeroIff | apps/web/features/map/useEdgeScroll.ts:28-31 | one axis pans zero exactly when the cursor lies between the two margins |
| EdgeScroll.ComponentSign | apps/web/hooks/useEdgeScroll.ts:58-74 | left and top pan negative; right and bottom pan positive; the left/top test wins |
| EdgeScroll.ComponentBounded | apps/web/hooks/useEdgeScroll.ts:59-74 | for an on-screen pointer each component's magnitude is at most maxSpeed |
| EdgeScroll.ComponentMonotone | apps/web/features/map/useEdgeScroll.ts:28 | in the left/top band, deeper into the margin pans strictly faster |
| EdgeScroll.ComponentMonotoneHigh | apps/web/features/map/useEdgeScroll.ts:29 | in the right/bottom band (past the low band, whose test wins), deeper into the margin pans strictly faster |
| EdgeScroll.EdgeScroller.Default | apps/web/hooks/useEdgeScroll.ts:35-39 | defaults are threshold 50 and maxSpeed 15, with no pointer and no pending frame |
| EdgeScroll.EdgeScroller.constructor | apps/web/features/map/useEdgeScroll.ts:19-22 | a configured scroller starts idle with the given threshold and speed |
| EdgeScroll.EdgeScroller.UpdatePosition | apps/web/features/map/useEdgeScroll.ts:48-57 | the cursor is always recorded; a frame is requested only when not already scrolling, enabled, and the vector is non-null; at most one frame is pending |
| EdgeScroll.EdgeScroller.Animate | apps/web/features/map/useEdgeScroll.ts:36-46 | disabled, no pointer, no map or a null vector stop the loop with nothing pending; otherwise it pans by exactly the vector and requests one next frame |
| EdgeScroll.EdgeScroller.StopScroll | apps/web/features/map/useEdgeScroll.ts:59-66 | clears the cursor and isScrolling, cancels the pending frame and nulls its id |
| EdgeScroll.EdgeScroller.Unmount | apps/web/features/map/useEdgeScroll.ts:68-70 | the cleanup cancels the last requested frame, so nothing stays pending |
| PinInspector.PlanFor | apps/web/features/pin/hooks/usePinInspectorMachine.ts:53-83 | no pin, empty list, blank last id, or fetch of exactly the last id, never an earlier one |
| PinInspector.HydratedView | apps/web/features/pin/hooks/usePinInspectorMachine.ts:53-83 | no pin clears everything; an empty list peeks the creator; otherwise the list is mirrored and the creator hidden, and loading is on exactly when the last id is fetched |
| PinInspector.ConvertedPinsHydrateEmpty | packages/firebase/src/converters/pinConverter.ts:26-33 | every pin delivered through the converter hydrates as an empty stack, whatever the document holds |
| PinInspector.KeyCollisions | apps/web/features/pin/hooks/usePinInspectorMachine.ts:47 | the effect key cannot tell ["a\|b"] from ["a","b"], nor no list from an empty one, so such a change does not re-run the effect |
| PinInspector.KeySeparatesPins | apps/web/features/pin/hooks/usePinInspectorMachine.ts:104 | a different pin id or map id always re-runs the effect |
| PinInspector.PinInspectorMachine.constructor | apps/web/features/pin/hooks/usePinInspectorMachine.ts:39-104 | the first render starts from the empty state, and the effect's first run leaves the hydrated view of the initial pin, with at most one fetch (of the last id) in flight |
| PinInspector.PinInspectorMachine.Hydrate | apps/web/features/pin/hooks/usePinInspectorMachine.ts:49-83 | a run cancels the previous one, shows the hydrated view, and issues exactly one fetch, of the last id, when there is one |
| PinInspector.PinInspectorMachine.SetProps | apps/web/features/pin/hooks/usePinInspectorMachine.ts:49-104 | the effect re-runs only when the key changes, showing the new pin's hydrated view and issuing its fetch under a new epoch; otherwise the state is untouched |
| PinInspector.PinInspectorMachine.CompleteFetch | apps/web/features/pin/hooks/usePinInspectorMachine.ts:84-103 | a cancelled run's result changes nothing visible; the current run shows the card or null, on failure no card and an error toast, and ends loading |
| PinInspector.PinInspectorMachine.ExpireToast | apps/web/features/pin/hooks/usePinInspectorMachine.ts:106-110 | the timer clears only the toast |
| PinInspector.PinInspectorMachine.OpenCreator | apps/web/features/pin/hooks/usePinInspectorMachine.ts:112-114 | only creatorOpen becomes true |
| PinInspector.PinInspectorMachine.CloseCreator | apps/web/features/pin/hooks/usePinInspectorMachine.ts:116-118 | only creatorOpen becomes false |
| PinInspector.SentMemo | apps/web/features/pin/hooks/usePinInspectorMachine.ts:134 | the memo is sent trimmed, and left out exactly when blank |
| PinInspector.SavedView | apps/web/features/pin/hooks/usePinInspectorMachine.ts:137-153 | a found card joins the stack once and goes on top, the creator closes and a success toast shows; otherwise only an error toast changes |
| PinInspector.PinInspectorMachine.SavePolaroid | apps/web/features/pin/hooks/usePinInspectorMachine.ts:120-156 | no pin or user: nothing; blank input: only an error toast and no request; otherwise one create request, then a fetch of the new id, ending in SavedView, or an error toast if the create fails; the hook's arguments stay as they were |
| PinInspector.RefetchCalls | apps/web/features/pin/hooks/usePinInspectorMachine.ts:173-185 | after a delete, the new last id is fetched unless the stack is empty or its last id is blank |
| PinInspector.AfterDeleteView | apps/web/features/pin/hooks/usePinInspectorMachine.ts:170-194 | the stack is the filtered one and loading is over; an empty stack or blank top peeks with no card; a failed re-fetch keeps the shortened stack and shows an error |
| PinInspector.PinInspectorMachine.DeletePolaroid | apps/web/features/pin/hooks/usePinInspectorMachine.ts:158-195 | no pin or no active card: nothing; a failed delete changes only the toast and loading; otherwise the state becomes AfterDeleteView |
| PinInspector.PinInspectorMachine.ShowRemaining | apps/web/features/pin/hooks/usePinInspectorMachine.ts:170-188 | the end of a delete issues the refetch and shows AfterDeleteView |
| PinInspector.SaveThenDeleteRestores | apps/web/features/pin/hooks/usePinInspectorMachine.ts:142-171 | saving a new card and then deleting it gives back the stack as it was |
| PinInspector.DeleteRemovesActive | apps/web/features/pin/hooks/usePinInspectorMachine.ts:170-171 | the active id is gone, and a duplicate-free stack loses exactly one id and stays duplicate-free |
| MapDetailPage.DragOffset | apps/web/features/map/presentation/pages/MapDetailPage.tsx:47-48 | the offset is 60 on mobile and 24 otherwise |
| MapDetailPage.DropPoint | apps/web/features/map/presentation/pages/MapDetailPage.tsx:194-195 | the drop point is the cursor moved up by the offset |
| MapDetailPage.Toggled | apps/web/features/map/presentation/pages/MapDetailPage.tsx:444 | clicking the selected color clears it; any other click selects that color |
| MapDetailPage.ToggleTwice | apps/web/features/map/presentation/pages/MapDetailPage.tsx:444 | clicking one color twice restores the selection exactly when it was empty or that color |
| MapDetailPage.CameraEffect | apps/web/features/map/presentation/pages/MapDetailPage.tsx:124-155 | selecting eases to the pin and caches the pose only when none is cached; deselecting with a cache eases back to it and clears it; deselecting without a cache does nothing |
| MapDetailPage.DeselectRestoresFirstPose | apps/web/features/map/presentation/pages/MapDetailPage.tsx:124-155 | after any run of selections, a deselect eases back to the pose from before the first one |
| MapDetailPage.MapDetail.constructor | apps/web/features/map/presentation/pages/MapDetailPage.tsx:56-94 | the page starts loading, with no map, error, color, pins, selection, camera cache or drag, not ready, and with a default edge scroller |
| MapDetailPage.MapDetail.LoadMap | apps/web/features/map/presentation/pages/MapDetailPage.tsx:292-310 | no map id: nothing; no user: loading stops; otherwise a missing map, a foreign map or a failed fetch set their error, the owner's map is shown, and loading stops; nothing else on the page changes |
| MapDetailPage.MapDetail.ReceivePins | apps/web/features/map/presentation/pages/MapDetailPage.tsx:313-335 | the list becomes exactly the map's current pins, each once and as the converter reads it, and a selected pin whose id is gone is deselected; nothing else changes |
| MapDetailPage.MapDetail.MapReady | apps/web/features/map/presentation/pages/MapDetailPage.tsx:97-100 | the map becomes ready and nothing else changes |
| MapDetailPage.MapDetail.ClickMarker | apps/web/features/map/presentation/pages/MapDetailPage.tsx:398-401 | the clicked pin becomes selected and nothing else changes |
| MapDetailPage.MapDetail.ClickMap | apps/web/features/map/presentation/pages/MapDetailPage.tsx:103-116 | once the map is ready, a blank-map click deselects; nothing else changes |
| MapDetailPage.MapDetail.RunCameraEffect | apps/web/features/map/presentation/pages/MapDetailPage.tsx:119-156 | nothing before the map is ready; then the cache and the easeTo log follow CameraEffect, and nothing else changes |
| MapDetailPage.MapDetail.ToggleColor | apps/web/features/map/presentation/pages/MapDetailPage.tsx:442-445 | the toolbar color becomes Toggled of the old one and nothing else changes |
| MapDetailPage.MapDetail.DragStart | apps/web/features/map/presentation/pages/MapDetailPage.tsx:159-165 | dragging starts with exactly the given color and position, and nothing else changes |
| MapDetailPage.MapDetail.DragMove | apps/web/features/map/presentation/pages/MapDetailPage.tsx:168-181 | ignored when not dragging; otherwise only the drag position changes on the page, and off mobile the edge scroller records the cursor and starts exactly one frame when it was idle and the cursor is in an edge band |
| MapDetailPage.MapDetail.DragCancel | apps/web/features/map/presentation/pages/MapDetailPage.tsx:233-240 | edge scrolling stops without panning, the drag resets, and nothing else changes |
| MapDetailPage.MapDetail.DragEnd | apps/web/features/map/presentation/pages/MapDetailPage.tsx:184-230 | no drag, color, map id or user: no change at all; otherwise edge scrolling stops and the drag resets; before the map is ready nothing is written; else the pin lands at unproject of the offset point; a success adds exactly that pin document, raises the stored pin count by one and the local count by one; a failure leaves the stored map and the local count as they were; polaroids, blobs and the other page state never change |
| MapNameModal.ConfirmRequest | apps/web/components/MapNameModal.tsx:45-49 | confirms only with the trimmed name, and never asks to close |
| MapNameModal.KeyRequest | apps/web/components/MapNameModal.tsx:33-42 | only Escape closes; only Enter confirms, with the trimmed name |
| MapNameModal.CloseRequest | apps/web/components/MapNameModal.tsx:62 | the backdrop closes exactly when not loading |
| MapNameModal.EnterMatchesButton | apps/web/components/MapNameModal.tsx:37-49 | Enter does what the confirm button does, and the button confirms exactly when it is not disabled (blank trimmed name or loading) |
| MapNameModal.EscapeMatchesBackdrop | apps/web/components/MapNameModal.tsx:35-36 | Escape closes exactly when the backdrop would, i.e. when not loading |
| MapNameModal.ConfirmedNameIsClean | apps/web/components/MapNameModal.tsx:46-47 | a confirmed name is non-empty, has no whitespace at either end, and is its own trim |
| MapNameModal.BlankNeverConfirmed | apps/web/components/MapNameModal.tsx:37-47 | a whitespace-only name is never confirmed |
| MapNameModal.NameDialog.SetProps | apps/web/components/MapNameModal.tsx:22-30 | opening the dialog clears the name; other prop changes keep it |
| MapNameModal.NameDialog.Type | apps/web/components/MapNameModal.tsx:90-92 | typing sets the name, except while loading (the input is disabled) |
| MapNameModal.NameDialog.PressKey | apps/web/components/MapNameModal.tsx:33-42 | a key press sends KeyRequest's request, if any, while open |
| MapNameModal.NameDialog.ClickConfirm | apps/web/components/MapNameModal.tsx:110-112 | the confirm button sends ConfirmRequest's request, if any, while open |
| MapNameModal.NameDialog.ClickClose | apps/web/components/MapNameModal.tsx:60-63 | a backdrop or cancel click closes only when open and not loading |

## Left out

- Rendering, styling, animation durations, toast texts in the page, and every component whose handlers only log. The inspector the page renders is a placeholder (apps/web/features/map/presentation/pages/MapDetailPage.tsx:413), so the page and the inspector machine are modelled apart.
- Authentication and user sync. The signed-in uid is an input.
- Firestore and Storage SDK internals. The store is an in-memory map. Its writes can fail only as "unreachable" (`online` false) or "no such document". Read failures in the gateway are not modelled.
- Clocks and randomness. `serverTimestamp()`, `Date.now()` and `toMillis()` are `now`/`nowMs` parameters, and document ids come from `Store.FreshId`.
- Real time and animation frames. The three-second toast timer is the `ExpireToast` step, and `requestAnimationFrame` is a numbered pending frame. Elapsed time is not modelled.
- Async interleaving beyond the effect's `cancelled` flag. Save and delete are single atomic steps whose repository outcomes are inputs, so a second save or delete cannot overlap a first.
- The inspector's `createPolaroidForPin`, `deletePolaroid` and `getPolaroid` are imported from a file that only re-exports a type (apps/web/features/pin/repositories/pinRepository.ts:16). They are opaque requests with given outcomes.
- The page's browser event wiring (apps/web/features/map/presentation/pages/MapDetailPage.tsx:243-289). The handlers are methods the environment calls.
- Who runs `RunCameraEffect`. React runs the camera effect whenever the selected pin object or readiness changes; here it is a step the environment takes after such a change.
- The pin-list effect. It re-runs on object identity, while the model compares pins by value.
- The camera's `-innerWidth/4` horizontal offset and the easeTo durations.
- `isMobile` is an input, not a media query.
- EdgeScroll.EdgeScroller.constructor: requires a positive threshold. With threshold 0 the source divides by zero and pans by NaN or Infinity; floating point is not modelled, and all arithmetic is over reals.
- EdgeScroll.NoPanIff: needs a non-zero speed. With speed 0 every vector is null.
- MapDetailPage.MapDetail.DragEnd: the optimistic count is `pinCount + 1`. The source's `|| 0` only differs for NaN, which reals do not have.
- MapDetailPage.MapDetail.DragMove: the edge scroller is fed with `enabled` true. The hook's `enabled` is `!isMobile && isDragging`, which holds in that branch.
- MapDetailPage.MapDetail.ReceivePins: the subscription's `onError` only logs, so errors are not modelled.
- PinRepository.SnapshotPins: the order of pins and the forwarding of errors to `onError` are not modelled.
- MapRepository.ListMapsByOwner: Firestore's order among maps with equal createdAt is left open.
- PolaroidRepository.GetPolaroidsByIds: with up to ten ids the result order (document-id order in Firestore) is left open, and so are repeated ids in the `in` list.
- PolaroidRepository.StoragePathParses: ids that contain '/' make the path ambiguous, and the lemma excludes them.
- MapNameModal.NameDialog.Type: the input's `maxLength` of 50 is enforced by the browser and not modelled.
- The map schema's URL check is a predicate parameter (zod's URL validator is not visible).
- `dashboardRepository`, user repositories and the user schema are not part of this model.
