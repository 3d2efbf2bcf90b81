/**
 The in-memory key store of the activation service: a two-level map from a
 package name to its key ids, and from each key id to its binding record.
 */
module KeyStore {

  /** A value that may be absent, standing for Python's `None`. */
  datatype Option<+T> = None | Some(value: T)

  /** A wall-clock reading as the service stores it (an ISO-8601 string).
      The model never reads a clock: every handler receives `now`. */
  type Timestamp = string

  /** The binding record kept for one key. `deviceId` and `lastVerified`
      are `None` until the key is first claimed. */
  datatype Record = Record(isUsed: bool, deviceId: Option<string>, lastVerified: Option<Timestamp>)

  /** package name -> key id -> record */
  type Store = map<string, map<string, Record>>

  /** Identifies one record: (package name, key id). */
  type KeyRef = (string, string)

  /** A record nobody has claimed yet. */
  const Fresh: Record := Record(false, None, None)

  /** The record a successful claim by `device` at `now` leaves behind. */
  function Claimed(device: string, now: Timestamp): Record {
    Record(true, Some(device), Some(now))
  }

  /** The store the service starts with: two packages of two unclaimed keys each. */
  function InitialStore(): (s: Store)
    ensures s.Keys == {"com.sahil.worl", "com.dark"}
    ensures s["com.sahil.worl"].Keys == {"dark", "darkss"}
    ensures s["com.dark"].Keys == {"gggg", "hhhh"}
    ensures forall p, k :: p in s && k in s[p] ==> s[p][k] == Fresh
  {
    map[
      "com.sahil.worl" := map["dark" := Fresh, "darkss" := Fresh],
      "com.dark" := map["gggg" := Fresh, "hhhh" := Fresh]
    ]
  }

  /** Python's `not x` on a request parameter: absent or the empty string. */
  predicate Missing(x: Option<string>) {
    x.None? || x.value == ""
  }

  /** The store holds a record for key `k` of package `p`. */
  predicate HasKey(s: Store, p: string, k: string) {
    p in s && k in s[p]
  }

  /** The record is claimed by a device other than `device`. */
  predicate HeldByOther(r: Record, device: string) {
    r.isUsed && r.deviceId != Some(device)
  }

  /** Every record is either unclaimed (no device, no timestamp) or claimed
      (a non-empty device id and a timestamp). */
  ghost predicate WellFormed(s: Store) {
    forall p, k :: HasKey(s, p, k) ==> RecordWellFormed(s[p][k])
  }

  predicate RecordWellFormed(r: Record) {
    && (r.isUsed <==> r.deviceId.Some?)
    && (r.isUsed <==> r.lastVerified.Some?)
    && (r.deviceId.Some? ==> r.deviceId.value != "")
  }

  /** Both stores have the same packages, and each package the same key ids. */
  ghost predicate SameShape(s: Store, s': Store) {
    && s'.Keys == s.Keys
    && forall p :: p in s ==> s'[p].Keys == s[p].Keys
  }

  /** `s'` has the shape of `s`, holds `r` at (p, k) and agrees with `s`
      on every other record. */
  ghost predicate OnlyRecordChanged(s: Store, s': Store, p: string, k: string, r: Record)
    requires HasKey(s, p, k)
  {
    && SameShape(s, s')
    && s'[p][k] == r
    && forall p', k' :: HasKey(s, p', k') && (p', k') != (p, k) ==> s'[p'][k'] == s[p'][k']
  }
}
