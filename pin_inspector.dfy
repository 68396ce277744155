/** The Pin Inspector state machine: which Polaroid card of a pin is on top,
    the pin's stack of attachment ids, the loading flag, a toast, and the
    creator panel's "peeking" and "open" flags.

    The hydrate effect is split into the synchronous part, run whenever the
    effect's key changes, and `CompleteFetch`, the late arrival of the one
    fetch it may start. Each run takes a new `epoch`; the cleanup's
    `cancelled` flag is "this run's epoch is no longer current". The
    repository operations the hook imports are not defined anywhere in the
    program, so their outcomes are inputs, and `calls` records the requests
    made to them. */
module PinInspector {
  import opened Wrappers
  import opened Values
  import opened Text
  import opened IdList
  import opened PinConverter
  import opened PolaroidTypes

  datatype ToastKind = Success | Error
  datatype Toast = Toast(message: string, kind: ToastKind)

  /** What a `getPolaroid` call came back with. */
  datatype FetchOutcome = Found(polaroid: Polaroid) | NotFound | Failed

  /** A request made to the repository operations. */
  datatype RepoCall =
    | GetPolaroidCall(mapId: string, polaroidId: string)
    | CreatePolaroidCall(mapId: string, pinId: string, userId: string, file: Option<FileRef>, memo: Option<string>)
    | DeletePolaroidCall(mapId: string, pinId: string, polaroidId: string, storagePath: Field<string>)

  /** The six fields the hook returns. */
  datatype View = View(
    activePolaroid: Option<Polaroid>,
    attachedPolaroidIds: seq<string>,
    isLoading: bool,
    toast: Option<Toast>,
    creatorPeeking: bool,
    creatorOpen: bool)

  // ── Hydration ────────────────────────────────────────────────

  /** The three cases of `hydrateLatestPolaroid`, the non-empty one split by
      whether the last id is blank. */
  datatype Plan = NoPin | EmptyList | BlankLatest | FetchLatest(polaroidId: string)

  /** `pin.attachedPolaroidIds ?? []`. */
  function IdsOf(pin: PinWithId): seq<string> {
    pin.attachedPolaroidIds.GetOr([])
  }

  /** Which case the effect takes. Only the last id can be fetched. */
  function PlanFor(pin: Option<PinWithId>): (r: Plan)
    ensures r.NoPin? <==> pin.None?
    ensures r.EmptyList? <==> pin.Some? && IdsOf(pin.value) == []
    ensures r.FetchLatest? ==> pin.Some? && |IdsOf(pin.value)| > 0
                               && r.polaroidId == IdsOf(pin.value)[|IdsOf(pin.value)| - 1] && r.polaroidId != ""
    ensures r.BlankLatest? ==> pin.Some? && |IdsOf(pin.value)| > 0 && IdsOf(pin.value)[|IdsOf(pin.value)| - 1] == ""
  {
    if pin.None? then NoPin
    else
      var ids := IdsOf(pin.value);
      if ids == [] then EmptyList
      else if ids[|ids| - 1] == "" then BlankLatest
      else FetchLatest(ids[|ids| - 1])
  }

  /** Every pin a map subscription delivers comes through the pin converter,
      which never reads `attachedPolaroidIds`; such a pin always hydrates as
      an empty stack, so the inspector peeks and fetches nothing, whatever
      the stored document holds. */
  lemma ConvertedPinsHydrateEmpty(id: string, d: PinData)
    ensures PlanFor(Some(FromFirestore(id, d))) == EmptyList
  {
  }

  /** The effect's dependency list `[pin?.id, pin?.mapId, attachedIdsKey]`. */
  datatype EffectKey = EffectKey(pinId: Option<string>, mapId: Option<string>, idsKey: string)

  function KeyOf(pin: Option<PinWithId>): EffectKey {
    if pin.None? then EffectKey(None, None, "")
    else EffectKey(Some(pin.value.id), Some(pin.value.mapId),
                   if pin.value.attachedPolaroidIds.Some? then Join(pin.value.attachedPolaroidIds.value, "|") else "")
  }

  /** The key joins the ids with '|', so two different stacks can share a
      key: a pin whose one id contains '|' and a pin with the two halves as
      ids, or a pin with no list and one with an empty list. A change between
      such stacks does not re-run the effect. */
  lemma KeyCollisions(p: PinWithId)
    ensures KeyOf(Some(p.(attachedPolaroidIds := Some(["a|b"])))) == KeyOf(Some(p.(attachedPolaroidIds := Some(["a", "b"]))))
    ensures KeyOf(Some(p.(attachedPolaroidIds := None))) == KeyOf(Some(p.(attachedPolaroidIds := Some([]))))
  {
    assert Join(["a", "b"], "|") == "a" + "|" + Join(["b"], "|");
  }

  /** Selecting a different pin, or the same pin id in another map, always
      re-runs the effect. */
  lemma KeySeparatesPins(p: Option<PinWithId>, q: Option<PinWithId>)
    requires p.Some? && q.Some? && (p.value.id != q.value.id || p.value.mapId != q.value.mapId)
    ensures KeyOf(p) != KeyOf(q)
  {
  }

  /** The view a run of the effect leaves behind, before its fetch settles:
      no pin clears everything; an empty stack peeks the creator; otherwise
      the stack is mirrored and the creator hidden, and the old card stays
      up while the last id loads (a blank last id loads nothing and shows no
      card). The toast is never touched. */
  function HydratedView(v: View, pin: Option<PinWithId>): (r: View)
    ensures r.toast == v.toast
    ensures PlanFor(pin).NoPin? ==> r == View(None, [], false, v.toast, false, false)
    ensures PlanFor(pin).EmptyList? ==> r == View(None, [], false, v.toast, true, false)
    ensures PlanFor(pin).BlankLatest? ==> r == View(None, IdsOf(pin.value), false, v.toast, false, false)
    ensures PlanFor(pin).FetchLatest? ==> r == View(v.activePolaroid, IdsOf(pin.value), true, v.toast, false, false)
    ensures r.isLoading <==> PlanFor(pin).FetchLatest?
  {
    match PlanFor(pin)
    case NoPin => View(None, [], false, v.toast, false, false)
    case EmptyList => View(None, [], false, v.toast, true, false)
    case BlankLatest => View(None, IdsOf(pin.value), false, v.toast, false, false)
    case FetchLatest(_) => View(v.activePolaroid, IdsOf(pin.value), true, v.toast, false, false)
  }

  // ── The machine ──────────────────────────────────────────────

  const LoadFailedMessage := "Failed to load polaroid"
  const BlankInputMessage := "Add a photo or memo first"
  const HydrateFailedMessage := "Saved, but failed to hydrate card"
  const PinnedMessage := "Polaroid pinned!"
  const SaveFailedMessage := "Failed to save polaroid"
  const DeletedMessage := "Polaroid deleted"
  const DeleteFailedMessage := "Failed to delete polaroid"

  class PinInspectorMachine {
    // the hook's arguments
    var pin: Option<PinWithId>
    var mapId: string
    var userId: string
    // the hook's state
    var activePolaroid: Option<Polaroid>
    var attachedPolaroidIds: seq<string>
    var isLoading: bool
    var toast: Option<Toast>
    var creatorPeeking: bool
    var creatorOpen: bool
    // the effect's bookkeeping
    var key: EffectKey
    var epoch: nat
    var inFlight: set<nat>
    var calls: seq<RepoCall>

    function ViewOf(): View
      reads this
    {
      View(activePolaroid, attachedPolaroidIds, isLoading, toast, creatorPeeking, creatorOpen)
    }

    /** Only runs that have started can have a fetch in flight, and the
        loading flag is only left up by the current run's fetch. */
    predicate Valid()
      reads this
    {
      && (forall e :: e in inFlight ==> e <= epoch)
      && (isLoading ==> epoch in inFlight)
      && key == KeyOf(pin)
    }

    /** The first render: initial state, then the effect's first run. */
    constructor (initialPin: Option<PinWithId>, hookMapId: string, hookUserId: string)
      ensures Valid()
      ensures pin == initialPin && mapId == hookMapId && userId == hookUserId
      ensures toast == None && epoch == 1
      ensures ViewOf() == HydratedView(View(None, [], false, None, false, false), initialPin)
      ensures var plan := PlanFor(initialPin);
        && (plan.FetchLatest? ==> inFlight == {1} && calls == [GetPolaroidCall(initialPin.value.mapId, plan.polaroidId)])
        && (!plan.FetchLatest? ==> inFlight == {} && calls == [])
    {
      pin, mapId, userId := initialPin, hookMapId, hookUserId;
      activePolaroid, attachedPolaroidIds, isLoading, toast := None, [], false, None;
      creatorPeeking, creatorOpen := false, false;
      key, epoch, inFlight, calls := KeyOf(initialPin), 0, {}, [];
      new;
      Hydrate();
    }

    /** The synchronous part of a run of the effect: the previous run is
        cancelled (the epoch moves on), the plan's case is applied and, when
        there is a card to fetch, the fetch is issued under the new epoch. */
    method Hydrate()
      requires forall e :: e in inFlight ==> e <= epoch
      requires key == KeyOf(pin)
      modifies this
      ensures Valid()
      ensures epoch == old(epoch) + 1
      ensures pin == old(pin) && mapId == old(mapId) && userId == old(userId)
      ensures ViewOf() == HydratedView(old(ViewOf()), pin)
      ensures var plan := PlanFor(pin);
        && (plan.FetchLatest? ==>
              calls == old(calls) + [GetPolaroidCall(pin.value.mapId, plan.polaroidId)]
              && inFlight == old(inFlight) + {epoch})
        && (!plan.FetchLatest? ==> calls == old(calls) && inFlight == old(inFlight))
    {
      epoch := epoch + 1;
      var plan := PlanFor(pin);
      if plan.FetchLatest? {
        calls := calls + [GetPolaroidCall(pin.value.mapId, plan.polaroidId)];
        inFlight := inFlight + {epoch};
      }
      Show(HydratedView(ViewOf(), pin));
    }

    /** Sets the six state fields to `v`. */
    method Show(v: View)
      modifies this
      ensures ViewOf() == v
      ensures pin == old(pin) && mapId == old(mapId) && userId == old(userId) && key == old(key)
      ensures epoch == old(epoch) && inFlight == old(inFlight) && calls == old(calls)
    {
      activePolaroid, attachedPolaroidIds, isLoading := v.activePolaroid, v.attachedPolaroidIds, v.isLoading;
      toast, creatorPeeking, creatorOpen := v.toast, v.creatorPeeking, v.creatorOpen;
    }

    /** A re-render with new arguments: the effect re-runs only when its key
        changed; otherwise the state is left as it was. */
    method SetProps(newPin: Option<PinWithId>, newMapId: string, newUserId: string)
      requires Valid()
      modifies this
      ensures Valid()
      ensures pin == newPin && mapId == newMapId && userId == newUserId
      ensures KeyOf(newPin) == old(key) ==>
        ViewOf() == old(ViewOf()) && epoch == old(epoch) && inFlight == old(inFlight) && calls == old(calls)
      ensures KeyOf(newPin) != old(key) ==>
        && epoch == old(epoch) + 1
        && ViewOf() == HydratedView(old(ViewOf()), newPin)
        && var plan := PlanFor(newPin);
           && (plan.FetchLatest? ==>
                 calls == old(calls) + [GetPolaroidCall(newPin.value.mapId, plan.polaroidId)]
                 && inFlight == old(inFlight) + {epoch})
           && (!plan.FetchLatest? ==> calls == old(calls) && inFlight == old(inFlight))
    {
      pin, mapId, userId := newPin, newMapId, newUserId;
      if KeyOf(newPin) != key {
        key := KeyOf(newPin);
        Hydrate();
      }
    }

    /** The fetch started by run `e` settles. A run that is no longer
        current changes nothing visible; the current run shows the card
        (null when there is none), or on failure no card and an error toast,
        and clears the loading flag. */
    method CompleteFetch(e: nat, outcome: FetchOutcome)
      requires Valid() && e in inFlight
      modifies this
      ensures Valid()
      ensures inFlight == old(inFlight) - {e}
      ensures epoch == old(epoch) && calls == old(calls)
      ensures pin == old(pin) && mapId == old(mapId) && userId == old(userId)
      ensures e != epoch ==> ViewOf() == old(ViewOf())
      ensures e == epoch ==> ViewOf() == old(ViewOf()).(
        activePolaroid := if outcome.Found? then Some(outcome.polaroid) else None,
        isLoading := false,
        toast := if outcome.Failed? then Some(Toast(LoadFailedMessage, Error)) else old(toast))
    {
      inFlight := inFlight - {e};
      if e == epoch {
        isLoading := false;
        match outcome
        case Found(p) => activePolaroid := Some(p);
        case NotFound => activePolaroid := None;
        case Failed =>
          activePolaroid := None;
          toast := Some(Toast(LoadFailedMessage, Error));
      }
    }

    /** The toast timer fires. */
    method ExpireToast()
      requires Valid()
      modifies this
      ensures Valid()
      ensures ViewOf() == old(ViewOf()).(toast := None)
      ensures epoch == old(epoch) && inFlight == old(inFlight) && calls == old(calls)
      ensures pin == old(pin) && mapId == old(mapId) && userId == old(userId)
    {
      toast := None;
    }

    method OpenCreator()
      requires Valid()
      modifies this
      ensures Valid()
      ensures ViewOf() == old(ViewOf()).(creatorOpen := true)
      ensures epoch == old(epoch) && inFlight == old(inFlight) && calls == old(calls)
      ensures pin == old(pin) && mapId == old(mapId) && userId == old(userId)
    {
      creatorOpen := true;
    }

    method CloseCreator()
      requires Valid()
      modifies this
      ensures Valid()
      ensures ViewOf() == old(ViewOf()).(creatorOpen := false)
      ensures epoch == old(epoch) && inFlight == old(inFlight) && calls == old(calls)
      ensures pin == old(pin) && mapId == old(mapId) && userId == old(userId)
    {
      creatorOpen := false;
    }

    /** `savePolaroid(file, memo)`; `created` is what `createPolaroidForPin`
        gave back and `latest` what the re-fetch of the new card gave back. */
    method SavePolaroid(file: Option<FileRef>, memo: string, created: Result<string, ()>, latest: FetchOutcome)
      requires Valid()
      modifies this
      ensures Valid()
      ensures epoch == old(epoch) && inFlight == old(inFlight)
      ensures pin == old(pin) && mapId == old(mapId) && userId == old(userId)
      ensures old(pin).None? || old(userId) == "" ==> ViewOf() == old(ViewOf()) && calls == old(calls)
      ensures old(pin).Some? && old(userId) != "" && file.None? && Trim(memo) == "" ==>
        ViewOf() == old(ViewOf()).(toast := Some(Toast(BlankInputMessage, Error))) && calls == old(calls)
      ensures old(pin).Some? && old(userId) != "" && (file.Some? || Trim(memo) != "") ==>
        var request := CreatePolaroidCall(old(mapId), old(pin).value.id, old(userId), file, SentMemo(memo));
        && (created.Err? ==> calls == old(calls) + [request]
                             && ViewOf() == old(ViewOf()).(toast := Some(Toast(SaveFailedMessage, Error))))
        && (created.Ok? ==> calls == old(calls) + [request, GetPolaroidCall(old(mapId), created.value)]
                            && ViewOf() == SavedView(old(ViewOf()), created.value, latest))
    {
      if pin.None? || userId == "" {
        return;
      }
      if file.None? && Trim(memo) == "" {
        toast := Some(Toast(BlankInputMessage, Error));
        return;
      }
      calls := calls + [CreatePolaroidCall(mapId, pin.value.id, userId, file, SentMemo(memo))];
      if created.Err? {
        toast := Some(Toast(SaveFailedMessage, Error));
        return;
      }
      calls := calls + [GetPolaroidCall(mapId, created.value)];
      Show(SavedView(ViewOf(), created.value, latest));
    }

    /** `deletePolaroid()`; `removed` is what the repository's delete gave
        back and `latest` what the re-fetch of the new top card gave back. */
    method DeletePolaroid(removed: Result<(), ()>, latest: FetchOutcome)
      requires Valid()
      modifies this
      ensures Valid()
      ensures epoch == old(epoch) && inFlight == old(inFlight)
      ensures pin == old(pin) && mapId == old(mapId) && userId == old(userId)
      ensures old(pin).None? || old(activePolaroid).None? ==> ViewOf() == old(ViewOf()) && calls == old(calls)
      ensures old(pin).Some? && old(activePolaroid).Some? ==>
        var active := old(activePolaroid).value;
        var request := DeletePolaroidCall(old(pin).value.mapId, old(pin).value.id, active.id, active.storagePath);
        var newIds := RemoveAll(old(attachedPolaroidIds), active.id);
        && (removed.Err? ==>
              calls == old(calls) + [request]
              && ViewOf() == old(ViewOf()).(isLoading := false, toast := Some(Toast(DeleteFailedMessage, Error))))
        && (removed.Ok? ==>
              calls == old(calls) + [request] + RefetchCalls(old(pin).value.mapId, newIds)
              && ViewOf() == AfterDeleteView(old(ViewOf()), newIds, latest))
    {
      if pin.None? || activePolaroid.None? {
        return;
      }
      var active := activePolaroid.value;
      isLoading := true;
      calls := calls + [DeletePolaroidCall(pin.value.mapId, pin.value.id, active.id, active.storagePath)];
      if removed.Err? {
        toast := Some(Toast(DeleteFailedMessage, Error));
        isLoading := false;
        return;
      }
      ShowRemaining(RemoveAll(attachedPolaroidIds, active.id), latest);
    }

    /** The end of a delete that went through, leaving `newIds`. */
    method ShowRemaining(newIds: seq<string>, latest: FetchOutcome)
      requires forall e :: e in inFlight ==> e <= epoch
      requires key == KeyOf(pin) && pin.Some?
      modifies this
      ensures Valid()
      ensures epoch == old(epoch) && inFlight == old(inFlight)
      ensures pin == old(pin) && mapId == old(mapId) && userId == old(userId)
      ensures calls == old(calls) + RefetchCalls(old(pin).value.mapId, newIds)
      ensures ViewOf() == AfterDeleteView(old(ViewOf()), newIds, latest)
    {
      if newIds != [] && newIds[|newIds| - 1] != "" {
        calls := calls + [GetPolaroidCall(pin.value.mapId, newIds[|newIds| - 1])];
      }
      Show(AfterDeleteView(ViewOf(), newIds, latest));
    }
  }

  /** The memo a save sends: trimmed, and left out when blank. */
  function SentMemo(memo: string): (r: Option<string>)
    ensures r.None? <==> Trim(memo) == ""
    ensures r.Some? ==> r.value == Trim(memo) && r.value != ""
  {
    if Trim(memo) == "" then None else Some(Trim(memo))
  }

  /** The state a save that created `newId` ends in: on a re-fetch failure
      only an error toast; when the new card is not found only the "failed
      to hydrate" toast; otherwise the id joins the stack (once), its card
      goes on top, the creator closes and a success toast shows. */
  function SavedView(v: View, newId: string, latest: FetchOutcome): (r: View)
    ensures r.isLoading == v.isLoading
    ensures latest.Found? <==> r.toast == Some(Toast(PinnedMessage, Success))
    ensures !latest.Found? ==> r == v.(toast := r.toast) && r.toast.Some? && r.toast.value.kind == Error
    ensures latest.Found? ==> newId in r.attachedPolaroidIds && r.activePolaroid == Some(latest.polaroid)
                              && !r.creatorOpen && !r.creatorPeeking
    ensures latest.Found? && newId !in v.attachedPolaroidIds ==> r.attachedPolaroidIds == v.attachedPolaroidIds + [newId]
    ensures latest.Found? && newId in v.attachedPolaroidIds ==> r.attachedPolaroidIds == v.attachedPolaroidIds
  {
    match latest
    case Failed => v.(toast := Some(Toast(SaveFailedMessage, Error)))
    case NotFound => v.(toast := Some(Toast(HydrateFailedMessage, Error)))
    case Found(p) =>
      v.(attachedPolaroidIds := AppendIfAbsent(v.attachedPolaroidIds, newId), activePolaroid := Some(p),
         creatorOpen := false, creatorPeeking := false, toast := Some(Toast(PinnedMessage, Success)))
  }

  /** The re-fetch a delete makes: the new top card, unless the stack is
      empty or its last id is blank. */
  function RefetchCalls(mapId: string, newIds: seq<string>): (r: seq<RepoCall>)
    ensures |r| <= 1
    ensures r != [] <==> newIds != [] && newIds[|newIds| - 1] != ""
    ensures r != [] ==> r[0] == GetPolaroidCall(mapId, newIds[|newIds| - 1])
  {
    if newIds == [] || newIds[|newIds| - 1] == "" then [] else [GetPolaroidCall(mapId, newIds[|newIds| - 1])]
  }

  /** The state a delete that went through ends in, with `newIds` left:
      the stack is always the shortened one and loading is over; an empty
      stack or a blank top means no card and the creator peeking; otherwise
      the re-fetched card goes on top, and a failed re-fetch keeps the old
      card and shows an error. */
  function AfterDeleteView(v: View, newIds: seq<string>, latest: FetchOutcome): (r: View)
    ensures r.attachedPolaroidIds == newIds && !r.isLoading
    ensures newIds == [] ==> r.activePolaroid.None? && r.creatorPeeking && !r.creatorOpen
    ensures newIds != [] && newIds[|newIds| - 1] == "" ==>
      r.activePolaroid.None? && r.creatorPeeking && r.creatorOpen == v.creatorOpen
    ensures newIds != [] && newIds[|newIds| - 1] != "" ==>
      r.creatorPeeking == v.creatorPeeking && r.creatorOpen == v.creatorOpen
      && r.activePolaroid == (if latest.Found? then Some(latest.polaroid)
                              else if latest.NotFound? then None else v.activePolaroid)
    ensures r.toast == Some(Toast(DeleteFailedMessage, Error)) <==>
      newIds != [] && newIds[|newIds| - 1] != "" && latest.Failed?
    ensures r.toast.Some? && (r.toast.value.kind == Success <==> r.toast.value.message == DeletedMessage)
  {
    if newIds == [] then
      v.(attachedPolaroidIds := [], activePolaroid := None, creatorPeeking := true, creatorOpen := false,
         isLoading := false, toast := Some(Toast(DeletedMessage, Success)))
    else if newIds[|newIds| - 1] == "" then
      v.(attachedPolaroidIds := newIds, activePolaroid := None, creatorPeeking := true,
         isLoading := false, toast := Some(Toast(DeletedMessage, Success)))
    else match latest
      case Found(p) =>
        v.(attachedPolaroidIds := newIds, activePolaroid := Some(p), isLoading := false,
           toast := Some(Toast(DeletedMessage, Success)))
      case NotFound =>
        v.(attachedPolaroidIds := newIds, activePolaroid := None, isLoading := false,
           toast := Some(Toast(DeletedMessage, Success)))
      case Failed =>
        v.(attachedPolaroidIds := newIds, isLoading := false, toast := Some(Toast(DeleteFailedMessage, Error)))
  }

  // ── Properties of the stack updates ──────────────────────────

  /** Saving a card and then deleting it (while it is the active card)
      gives back the stack as it was, when the new id was not in it. */
  lemma SaveThenDeleteRestores(ids: seq<string>, newId: string)
    requires newId !in ids
    ensures RemoveAll(AppendIfAbsent(ids, newId), newId) == ids
  {
    RemoveAfterAppend(ids, newId);
    RemoveAllAbsent(ids, newId);
  }

  /** After a successful delete the active id is gone from the stack, and
      a stack without duplicates loses exactly one id. */
  lemma DeleteRemovesActive(ids: seq<string>, activeId: string)
    requires NoDuplicates(ids) && activeId in ids
    ensures activeId !in RemoveAll(ids, activeId)
    ensures |RemoveAll(ids, activeId)| == |ids| - 1
    ensures NoDuplicates(RemoveAll(ids, activeId))
  {
    RemoveAllNoDuplicates(ids, activeId);
    RemoveAllCounts(ids, activeId);
    var k :| 0 <= k < |ids| && ids[k] == activeId;
    MultisetCountOne(ids, k);
  }
}
