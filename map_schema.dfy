/** The zod schemas for maps, as predicates. `z.string().url()` is zod's own
    URL parser, which is not part of this model: it is the parameter
    `isUrl`. */
module MapSchema {
  import opened Wrappers
  import opened Values
  import opened MapConverter

  /** `CreateMapInput = z.infer<typeof createMapInputSchema>`. */
  datatype CreateMapInput = CreateMapInput(
    name: string,
    ownerUid: string,
    styleKey: string,
    styleUrl: string,
    boundingBox: BoundingBox,
    center: LatLng,
    zoom: real)

  /** `z.number().int().nonnegative()`. */
  predicate ValidPinCount(n: real) {
    n >= 0.0 && n == n.Floor as real
  }

  /** `z.string().url().optional()`: absent, or a URL. Null is rejected. */
  predicate ValidOptionalUrl(f: Field<string>, isUrl: string -> bool) {
    f.Missing? || (f.Has? && isUrl(f.value))
  }

  /** `createMapInputSchema`. The box is four numbers with no ordering between
      north and south or east and west. */
  predicate ValidCreateMapInput(i: CreateMapInput, isUrl: string -> bool) {
    |i.name| >= 1 && |i.ownerUid| >= 1 && isUrl(i.styleUrl)
  }

  /** The create-input part of a stored document, when its fields are present. */
  function InputOf(d: MapData): Option<CreateMapInput> {
    if d.name.Has? && d.ownerUid.Has? && d.styleKey.Has? && d.styleUrl.Has?
       && d.boundingBox.Has? && d.center.Has? && d.zoom.Has?
    then Some(CreateMapInput(d.name.value, d.ownerUid.value, d.styleKey.value, d.styleUrl.value,
                             d.boundingBox.value, d.center.value, d.zoom.value))
    else None
  }

  /** `mapDocSchema` over a stored document. */
  predicate ValidMapDoc(d: MapData, isUrl: string -> bool) {
    && d.name.Has? && |d.name.value| >= 1
    && d.ownerUid.Has? && |d.ownerUid.value| >= 1
    && d.styleKey.Has?
    && d.styleUrl.Has? && isUrl(d.styleUrl.value)
    && ValidOptionalUrl(d.thumbnailUrl, isUrl)
    && d.boundingBox.Has? && d.center.Has? && d.zoom.Has?
    && d.pinCount.Has? && ValidPinCount(d.pinCount.value)
  }

  /** A map document is valid exactly when its create-input part is valid,
      its pinCount is a non-negative integer and its thumbnail, if any, is a
      URL: the create input has no pinCount, thumbnail or timestamps, and
      everything else is checked alike. */
  lemma DocValidIff(d: MapData, isUrl: string -> bool)
    ensures ValidMapDoc(d, isUrl) <==>
      && InputOf(d).Some? && ValidCreateMapInput(InputOf(d).value, isUrl)
      && d.pinCount.Has? && ValidPinCount(d.pinCount.value)
      && ValidOptionalUrl(d.thumbnailUrl, isUrl)
  {
  }

  /** The box is not checked for order: replacing it by any box keeps a valid
      document valid. */
  lemma AnyBoxAccepted(d: MapData, isUrl: string -> bool, b: BoundingBox)
    requires ValidMapDoc(d, isUrl)
    ensures ValidMapDoc(d.(boundingBox := Has(b)), isUrl)
  {
  }
}
