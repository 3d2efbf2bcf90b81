/**
 Facts about a single request: the two claiming entry points agree, a
 repeated claim only refreshes the timestamp, a claim keeps the store
 well-formed, and the listing follows the store.
 */
module Properties {
  import opened KeyStore
  import opened Handlers

  /** `verify_key` and the POST branch of `manage_device_ids` are the same
      transition: given the same key, package and device they refuse for the
      same reason with the same status, or both succeed, and they leave the
      same store. Only the success status differs (200 against 201). */
  lemma EntryPointsAgree(s: Store, device: string, key: Option<string>,
                         package: Option<string>, now: Timestamp)
    ensures VerifyKey(s, key, Some(device), package, now).outcome
         == RegisterDevice(s, device, key, package, now).outcome
    ensures VerifyKey(s, key, Some(device), package, now).store
         == RegisterDevice(s, device, key, package, now).store
    ensures VerifyKey(s, key, Some(device), package, now).outcome.Rejected? ==>
      VerifyKey(s, key, Some(device), package, now).status
        == RegisterDevice(s, device, key, package, now).status
  {
  }

  /** A claim that succeeded may be repeated with the same key, package and
      device through either entry point: it succeeds again, and the store
      differs from the one the first claim left only in the record's
      `lastVerified`, which becomes the new time. */
  lemma ReclaimRefreshesOnlyTimestamp(s: Store, device: string, key: string, package: string,
                                      first: Timestamp, again: Timestamp)
    requires VerifyKey(s, Some(key), Some(device), Some(package), first).outcome == Bound
    ensures var s1 := VerifyKey(s, Some(key), Some(device), Some(package), first).store;
            var t := VerifyKey(s1, Some(key), Some(device), Some(package), again);
            && t.outcome == Bound
            && t.store == s1[package := s1[package][key := s1[package][key].(lastVerified := Some(again))]]
            && t.store[package][key].isUsed == s1[package][key].isUsed
            && t.store[package][key].deviceId == s1[package][key].deviceId
    ensures var s1 := RegisterDevice(s, device, Some(key), Some(package), first).store;
            var t := RegisterDevice(s1, device, Some(key), Some(package), again);
            && t.outcome == Bound
            && t.store == s1[package := s1[package][key := s1[package][key].(lastVerified := Some(again))]]
  {
  }

  /** A claim never produces a malformed record: a well-formed store stays
      well-formed whatever the `verify_key` request. `EntryPointsAgree`
      carries this over to the POST branch, and
      `Sessions.SessionKeepsWellFormed` states it for both entry points. */
  lemma ClaimKeepsWellFormed(s: Store, key: Option<string>, device: Option<string>,
                             package: Option<string>, now: Timestamp)
    requires WellFormed(s)
    ensures WellFormed(VerifyKey(s, key, device, package, now).store)
  {
  }

  /** The service starts well-formed and with an empty listing. */
  lemma InitialStoreWellFormed()
    ensures WellFormed(InitialStore())
    ensures UsedDevices(InitialStore()) == map[]
  {
  }

  /** After a successful `verify_key` claim the listing is the old one with
      the target entry set to the caller's device; nothing else appears or
      disappears. Since `EntryPointsAgree` gives the POST branch the same
      outcome and store, the same holds for it. */
  lemma ListingAfterClaim(s: Store, key: Option<string>, device: Option<string>,
                          package: Option<string>, now: Timestamp)
    requires VerifyKey(s, key, device, package, now).outcome == Bound
    ensures UsedDevices(VerifyKey(s, key, device, package, now).store)
         == UsedDevices(s)[(package.value, key.value) := device]
  {
  }

  /** A refused claim leaves the listing as it was. */
  lemma ListingAfterRefusal(s: Store, key: Option<string>, device: Option<string>,
                            package: Option<string>, now: Timestamp)
    requires VerifyKey(s, key, device, package, now).outcome.Rejected?
    ensures UsedDevices(VerifyKey(s, key, device, package, now).store) == UsedDevices(s)
  {
  }

  /** In a well-formed store every listed key names a real device. */
  lemma ListedDevicesPresent(s: Store)
    requires WellFormed(s)
    ensures forall q :: q in UsedDevices(s) ==> !Missing(UsedDevices(s)[q])
  {
  }

  /** A walk through the shipped key table: device A claims key "dark",
      device B is then refused, and A re-verifies through the other entry
      point. */
  lemma ShippedTableWalkthrough()
    ensures var s0 := InitialStore();
            var t1 := VerifyKey(s0, Some("dark"), Some("dev-A"), Some("com.sahil.worl"), "t1");
            var t2 := VerifyKey(t1.store, Some("dark"), Some("dev-B"), Some("com.sahil.worl"), "t2");
            var t3 := RegisterDevice(t2.store, "dev-A", Some("dark"), Some("com.sahil.worl"), "t3");
            && t1.outcome == Bound && t1.status == 200
            && t1.store["com.sahil.worl"]["dark"] == Record(true, Some("dev-A"), Some("t1"))
            && t2.outcome == Rejected(KeyInUse) && t2.status == 403
            && t3.outcome == Bound && t3.status == 201
            && t3.store["com.sahil.worl"]["dark"] == Record(true, Some("dev-A"), Some("t3"))
  {
  }

  /** Requests naming an unknown package, an unknown key or no device are
      refused with their statuses. */
  lemma ShippedTableRefusals()
    ensures VerifyKey(InitialStore(), Some("dark"), Some("dev-A"), Some("com.other"), "t").status == 401
    ensures VerifyKey(InitialStore(), Some("nokey"), Some("dev-A"), Some("com.dark"), "t").outcome == Rejected(InvalidKey)
    ensures VerifyKey(InitialStore(), Some("gggg"), None, Some("com.dark"), "t").status == 400
    ensures RegisterDevice(InitialStore(), "", Some("gggg"), Some("com.dark"), "t").status == 400
  {
  }
}
