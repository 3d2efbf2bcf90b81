/**
 The two request handlers that claim a key for a device (`verify_key` and
 the POST branch of `manage_device_ids`) and the read-only listing of bound
 keys (the GET branch). Each handler is a pure transition from the store
 before the request to a reply and the store after it.
 */
module Handlers {
  import opened KeyStore

  /** Why a claim was refused, in the order the handlers test for it. */
  datatype Failure = MissingParameter | InvalidPackage | InvalidKey | KeyInUse

  datatype Outcome = Bound | Rejected(why: Failure)

  /** The HTTP status the handlers send with each refusal. */
  function StatusOf(f: Failure): int {
    match f
    case MissingParameter => 400
    case InvalidPackage => 401
    case InvalidKey => 401
    case KeyInUse => 403
  }

  /** Success statuses: `verify_key` relies on Flask's default, the POST
      branch names 201. */
  const VerifiedStatus := 200
  const RegisteredStatus := 201

  /** What a handler answers and the store it leaves. */
  datatype Transition = Transition(status: int, outcome: Outcome, store: Store)

  /** The claim rule both handlers implement, stated as what a transition
      `t` from `s` may be for a request naming `key`, `device` and
      `package` at time `now`:
      - each refusal happens exactly when its check is the first one to fail;
      - a refusal carries its status and leaves the store as it was;
      - a success carries `okStatus`, and the target record, and only that
        record, becomes claimed by the caller at `now`. */
  ghost predicate FollowsClaimRule(s: Store, key: Option<string>, device: Option<string>,
                                   package: Option<string>, now: Timestamp,
                                   okStatus: int, t: Transition)
  {
    && (t.outcome == Rejected(MissingParameter) <==> Missing(key) || Missing(device) || Missing(package))
    && (t.outcome == Rejected(InvalidPackage) <==>
          !Missing(key) && !Missing(device) && !Missing(package) && package.value !in s)
    && (t.outcome == Rejected(InvalidKey) <==>
          !Missing(key) && !Missing(device) && !Missing(package)
          && package.value in s && key.value !in s[package.value])
    && (t.outcome == Rejected(KeyInUse) <==>
          !Missing(key) && !Missing(device) && !Missing(package)
          && HasKey(s, package.value, key.value)
          && HeldByOther(s[package.value][key.value], device.value))
    && (t.outcome.Rejected? ==> t.status == StatusOf(t.outcome.why) && t.store == s)
    && (t.outcome == Bound ==>
          && t.status == okStatus
          && !Missing(key) && !Missing(device) && !Missing(package)
          && HasKey(s, package.value, key.value)
          && OnlyRecordChanged(s, t.store, package.value, key.value, Claimed(device.value, now)))
  }

  /** `GET /keys?key=..&device_id=..&package=..`: claims or re-verifies a key,
      replacing the whole record on success. */
  function VerifyKey(s: Store, key: Option<string>, device: Option<string>,
                     package: Option<string>, now: Timestamp): (t: Transition)
    ensures FollowsClaimRule(s, key, device, package, now, VerifiedStatus, t)
  {
    if Missing(key) || Missing(device) || Missing(package) then
      Transition(StatusOf(MissingParameter), Rejected(MissingParameter), s)
    else if package.value !in s then
      Transition(StatusOf(InvalidPackage), Rejected(InvalidPackage), s)
    else
      var packageKeys := s[package.value];
      if key.value !in packageKeys then
        Transition(StatusOf(InvalidKey), Rejected(InvalidKey), s)
      else
        var keyData := packageKeys[key.value];
        if keyData.isUsed && keyData.deviceId != Some(device.value) then
          Transition(StatusOf(KeyInUse), Rejected(KeyInUse), s)
        else
          var record := Record(true, Some(device.value), Some(now));
          Transition(VerifiedStatus, Bound, s[package.value := packageKeys[key.value := record]])
  }

  /** `POST /ids?key=..&package=..` with the device id as the request body
      (always present, possibly empty): claims or re-verifies a key by
      assigning the record's fields one after another. */
  function RegisterDevice(s: Store, body: string, key: Option<string>,
                          package: Option<string>, now: Timestamp): (t: Transition)
    ensures FollowsClaimRule(s, key, Some(body), package, now, RegisteredStatus, t)
  {
    if body == "" || Missing(key) || Missing(package) then
      Transition(StatusOf(MissingParameter), Rejected(MissingParameter), s)
    else if package.value !in s then
      Transition(StatusOf(InvalidPackage), Rejected(InvalidPackage), s)
    else
      var packageKeys := s[package.value];
      if key.value !in packageKeys then
        Transition(StatusOf(InvalidKey), Rejected(InvalidKey), s)
      else
        var keyData := packageKeys[key.value];
        if keyData.isUsed && keyData.deviceId != Some(body) then
          Transition(StatusOf(KeyInUse), Rejected(KeyInUse), s)
        else
          var record := keyData.(deviceId := Some(body)).(isUsed := true).(lastVerified := Some(now));
          Transition(RegisteredStatus, Bound, s[package.value := packageKeys[key.value := record]])
  }

  /** The references of every claimed record. */
  function UsedRefs(s: Store): set<KeyRef> {
    set p, k | p in s && k in s[p] && s[p][k].isUsed :: (p, k)
  }

  /** The claimed records among `refs`, each mapped to its device. */
  function DevicesAmong(s: Store, refs: set<KeyRef>): map<KeyRef, Option<string>> {
    map q | q in refs && q in UsedRefs(s) :: s[q.0][q.1].deviceId
  }

  /** The listing `GET /ids` answers: every claimed record, mapped to its device. */
  function UsedDevices(s: Store): (m: map<KeyRef, Option<string>>)
    ensures forall p, k :: (p, k) in m <==> HasKey(s, p, k) && s[p][k].isUsed
    ensures forall p, k :: HasKey(s, p, k) && s[p][k].isUsed ==> m[(p, k)] == s[p][k].deviceId
  {
    DevicesAmong(s, UsedRefs(s))
  }

  /** The references of every record of the packages in `packages`. */
  ghost function RefsOf(s: Store, packages: set<string>): set<KeyRef> {
    set p, k | p in packages && p in s && k in s[p] :: (p, k)
  }

  /** `GET /ids`, computed the way the handler does: visit every package,
      then every key of it, and keep the claimed ones. */
  method ListUsedDevices(s: Store) returns (m: map<KeyRef, Option<string>>)
    ensures m == UsedDevices(s)
  {
    m := map[];
    ghost var seen: set<KeyRef> := {};
    var packages := s.Keys;
    while packages != {}
      invariant packages <= s.Keys
      invariant seen == RefsOf(s, s.Keys - packages)
      invariant m == DevicesAmong(s, seen)
      decreases packages
    {
      var p :| p in packages;
      var keys := s[p].Keys;
      ghost var before := seen;
      while keys != {}
        invariant keys <= s[p].Keys
        invariant seen == before + set k | k in s[p].Keys - keys :: (p, k)
        invariant m == DevicesAmong(s, seen)
        decreases keys
      {
        var k :| k in keys;
        if s[p][k].isUsed {
          m := m[(p, k) := s[p][k].deviceId];
        }
        seen := seen + {(p, k)};
        keys := keys - {k};
      }
      packages := packages - {p};
    }
  }
}
