/** The zod schemas for pins, as predicates. A zod object schema checks the
    keys it names and ignores the others, so `attachedPolaroidIds` and
    `updatedAt` play no part; `createdAt` is `z.unknown()` and accepts
    anything, absence included. */
module PinSchema {
  import opened Wrappers
  import opened Values
  import opened PinConverter

  /** The three toolbar colors, `z.infer<typeof pinColorSchema>`. */
  datatype PinColor = Red | Blue | Yellow {
    function Name(): string {
      match this
      case Red => "red"
      case Blue => "blue"
      case Yellow => "yellow"
    }
  }

  /** `pinColorSchema = z.enum(['red', 'blue', 'yellow'])`. */
  predicate IsPinColor(s: string) {
    s == "red" || s == "blue" || s == "yellow"
  }

  /** `pinIconTypeSchema = z.enum(['standard'])`. */
  predicate IsPinIconType(s: string) {
    s == "standard"
  }

  /** `locationSchema`: both bounds inclusive. */
  predicate ValidLocation(l: LatLng) {
    -90.0 <= l.lat <= 90.0 && -180.0 <= l.lng <= 180.0
  }

  predicate ValidStyle(s: Style) {
    IsPinColor(s.color) && IsPinIconType(s.iconType)
  }

  /** `z.string().min(1)` on a field that must be present. */
  predicate NonEmptyString(f: Field<string>) {
    f.Has? && |f.value| >= 1
  }

  /** `CreatePinInput = z.infer<typeof createPinInputSchema>`. */
  datatype CreatePinInput = CreatePinInput(mapId: string, ownerUid: string, location: LatLng, style: Style)

  /** `createPinInputSchema`. */
  predicate ValidCreatePinInput(i: CreatePinInput) {
    |i.mapId| >= 1 && |i.ownerUid| >= 1 && ValidLocation(i.location) && ValidStyle(i.style)
  }

  /** `pinDocSchema` over a stored document. */
  predicate ValidPinDoc(d: PinData) {
    && NonEmptyString(d.mapId)
    && NonEmptyString(d.ownerUid)
    && d.location.Has? && ValidLocation(d.location.value)
    && d.style.Has? && ValidStyle(d.style.value)
  }

  /** The create-input part of a stored document, when its four fields are present. */
  function InputOf(d: PinData): Option<CreatePinInput> {
    if d.mapId.Has? && d.ownerUid.Has? && d.location.Has? && d.style.Has? then
      Some(CreatePinInput(d.mapId.value, d.ownerUid.value, d.location.value, d.style.value))
    else None
  }

  /** The color enum accepts exactly the names of the three toolbar colors. */
  lemma IsPinColorIff(s: string)
    ensures IsPinColor(s) <==> exists c: PinColor :: c.Name() == s
  {
    if IsPinColor(s) {
      var c := if s == "red" then Red else if s == "blue" then Blue else Yellow;
      assert c.Name() == s;
    }
  }

  /** Ignoring `createdAt` and the keys the schema does not name, a document
      is a valid pin document exactly when it is a valid create input. */
  lemma DocValidIffInputValid(d: PinData)
    ensures ValidPinDoc(d) <==> InputOf(d).Some? && ValidCreatePinInput(InputOf(d).value)
  {
  }
}
