/** The Firestore converter for `/users/{uid}` documents: the domain's `id`
    is stored as `uid`, optional names are stored as null, and stored times
    are turned back into dates by `toDate`. */
module UserConverter {
  import opened Wrappers
  import opened Values

  /** What a stored time field can hold: a JavaScript Date, a Firestore
      Timestamp (an object with `toDate`), or anything else. */
  datatype TimeValue = JsDate(ms: Timestamp) | FirestoreTimestamp(ms: Timestamp) | OtherValue

  datatype UserData = UserData(
    uid: Field<string>,
    email: Field<string>,
    displayName: Field<string>,
    photoURL: Field<string>,
    createdAt: Field<TimeValue>,
    updatedAt: Field<TimeValue>)

  /** The domain `User`; dates are milliseconds. */
  datatype User = User(
    id: string,
    email: string,
    displayName: Option<string>,
    photoURL: Option<string>,
    createdAt: Timestamp,
    updatedAt: Timestamp)

  /** `toDate(value)`: a Date is returned as is, an object with `toDate` is
      converted, and anything else becomes the current date `now`. */
  function ToDate(value: Field<TimeValue>, now: Timestamp): (r: Timestamp)
    ensures value.Has? && !value.value.OtherValue? ==> r == value.value.ms
    ensures (!value.Has? || value.value.OtherValue?) ==> r == now
  {
    match value
    case Has(JsDate(ms)) => ms
    case Has(FirestoreTimestamp(ms)) => ms
    case _ => now
  }

  /** `toFirestore`: `uid` from `id`, undefined names become null. */
  function ToFirestore(u: User): UserData {
    UserData(Has(u.id), Has(u.email),
             if u.displayName.Some? then Has(u.displayName.value) else Null,
             if u.photoURL.Some? then Has(u.photoURL.value) else Null,
             Has(JsDate(u.createdAt)), Has(JsDate(u.updatedAt)))
  }

  /** `fromFirestore(snapshot)` for a snapshot with id `snapshotId`, read at `now`. */
  function FromFirestore(snapshotId: string, d: UserData, now: Timestamp): User {
    User(
      if d.uid.Has? && d.uid.value != "" then d.uid.value else snapshotId,
      d.email.Or(""),
      if d.displayName.Has? then Some(d.displayName.value) else None,
      if d.photoURL.Has? then Some(d.photoURL.value) else None,
      ToDate(d.createdAt, now),
      ToDate(d.updatedAt, now))
  }

  /** The id comes from a non-empty `uid`, else from the snapshot; present
      values pass through; a missing email reads as ''; a null or missing
      name or photo reads as undefined. */
  lemma FromFirestoreShape(snapshotId: string, d: UserData, now: Timestamp)
    ensures FromFirestore(snapshotId, d, now).id ==
            (if d.uid.Has? && d.uid.value != "" then d.uid.value else snapshotId)
    ensures d.email.Has? ==> FromFirestore(snapshotId, d, now).email == d.email.value
    ensures !d.email.Has? ==> FromFirestore(snapshotId, d, now).email == ""
    ensures d.displayName.Has? ==> FromFirestore(snapshotId, d, now).displayName == Some(d.displayName.value)
    ensures !d.displayName.Has? ==> FromFirestore(snapshotId, d, now).displayName == None
    ensures d.photoURL.Has? ==> FromFirestore(snapshotId, d, now).photoURL == Some(d.photoURL.value)
    ensures !d.photoURL.Has? ==> FromFirestore(snapshotId, d, now).photoURL == None
  {
  }

  /** Writing then reading preserves the user, whatever the snapshot id, as
      long as the user's id is non-empty; with an empty id the snapshot id
      takes its place. */
  lemma RoundTrip(u: User, snapshotId: string, now: Timestamp)
    ensures u.id != "" ==> FromFirestore(snapshotId, ToFirestore(u), now) == u
    ensures u.id == "" ==> FromFirestore(snapshotId, ToFirestore(u), now) == u.(id := snapshotId)
  {
  }
}
