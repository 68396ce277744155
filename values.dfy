/** Values as they sit in a stored document. A field read from a document can
    be absent (`undefined`), `null`, or hold a value; the converters' `??`
    defaults depend on telling these apart. */
module Values {

  /** A document field: absent, explicitly null, or present. */
  datatype Field<+T> = Missing | Null | Has(value: T) {
    /** JavaScript's `field ?? default`: the value unless absent or null. */
    function Or(default: T): T {
      if Has? then value else default
    }
  }

  /** Plain latitude/longitude, the domain's `ILocation`. */
  datatype LatLng = LatLng(lat: real, lng: real)

  datatype BoundingBox = BoundingBox(north: real, south: real, east: real, west: real)

  /** A server or client clock reading in milliseconds; opaque to the model. */
  type Timestamp = int
}
