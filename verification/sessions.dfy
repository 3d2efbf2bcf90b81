/**
 Sequences of claiming requests, each applied atomically to the store the
 previous one left: the exclusivity, idempotence and no-creation guarantees
 of the service stated over any number of requests.
 */
module Sessions {
  import opened KeyStore
  import opened Handlers
  import opened Properties

  /** A claiming request through one of the two entry points. */
  datatype Request =
    | VerifyKeyCall(key: Option<string>, device: Option<string>, package: Option<string>)
    | RegisterDeviceCall(body: string, key: Option<string>, package: Option<string>)
  {
    /** The device the request claims for. */
    function Device(): Option<string> {
      match this
      case VerifyKeyCall(_, device, _) => device
      case RegisterDeviceCall(body, _, _) => Some(body)
    }

    /** The request names key `k` of package `p`. */
    predicate Targets(p: string, k: string) {
      key == Some(k) && package == Some(p)
    }

    /** The status a success is answered with. */
    function SuccessStatus(): int {
      if VerifyKeyCall? then VerifiedStatus else RegisteredStatus
    }
  }

  /** One request together with the time it is served at. */
  datatype Call = Call(request: Request, now: Timestamp)

  /** Serves one request through its entry point. */
  function Handle(s: Store, c: Call): (t: Transition)
    ensures FollowsClaimRule(s, c.request.key, c.request.Device(), c.request.package,
                             c.now, c.request.SuccessStatus(), t)
  {
    match c.request
    case VerifyKeyCall(key, device, package) => VerifyKey(s, key, device, package, c.now)
    case RegisterDeviceCall(body, key, package) => RegisterDevice(s, body, key, package, c.now)
  }

  /** The store after serving `calls` in order, starting from `s`. */
  function After(s: Store, calls: seq<Call>): Store
    decreases |calls|
  {
    if |calls| == 0 then s
    else Handle(After(s, calls[..|calls| - 1]), calls[|calls| - 1]).store
  }

  /** The reply to the `i`-th of `calls`, served after the ones before it. */
  function ReplyAt(s: Store, calls: seq<Call>, i: nat): Transition
    requires i < |calls|
  {
    Handle(After(s, calls[..i]), calls[i])
  }

  lemma SameShapeTransitive(a: Store, b: Store, c: Store)
    requires SameShape(a, b) && SameShape(b, c)
    ensures SameShape(a, c)
  {
  }

  /** No implicit creation or deletion: whatever is requested, the store
      keeps exactly its packages and each package exactly its key ids. */
  lemma {:induction false} NoImplicitCreation(s: Store, calls: seq<Call>)
    ensures SameShape(s, After(s, calls))
    decreases |calls|
  {
    if |calls| > 0 {
      var prefix := calls[..|calls| - 1];
      NoImplicitCreation(s, prefix);
      SameShapeTransitive(s, After(s, prefix), After(s, calls));
    }
  }

  /** Requests never make a well-formed store malformed. */
  lemma {:induction false} SessionKeepsWellFormed(s: Store, calls: seq<Call>)
    requires WellFormed(s)
    ensures WellFormed(After(s, calls))
    decreases |calls|
  {
    if |calls| > 0 {
      var prefix := calls[..|calls| - 1];
      var c := calls[|calls| - 1];
      SessionKeepsWellFormed(s, prefix);
      var device := c.request.Device();
      ClaimKeepsWellFormed(After(s, prefix), c.request.key, device, c.request.package, c.now);
      if c.request.RegisterDeviceCall? {
        EntryPointsAgree(After(s, prefix), c.request.body, c.request.key, c.request.package, c.now);
      }
    }
  }

  /** Exclusivity, first half: once key `k` of package `p` is claimed by
      `device`, it stays claimed by `device` whatever is requested after. */
  lemma {:induction false} BindingIsPermanent(s: Store, calls: seq<Call>, p: string, k: string, device: string)
    requires HasKey(s, p, k) && s[p][k].isUsed && s[p][k].deviceId == Some(device)
    ensures HasKey(After(s, calls), p, k)
    ensures After(s, calls)[p][k].isUsed && After(s, calls)[p][k].deviceId == Some(device)
    decreases |calls|
  {
    if |calls| > 0 {
      BindingIsPermanent(s, calls[..|calls| - 1], p, k, device);
    }
  }

  /** Exclusivity, second half: once claimed by `device`, every later request
      for the same key by any other device is refused with 403, and leaves
      the store as it was. */
  lemma OthersAlwaysRefused(s: Store, calls: seq<Call>, i: nat, p: string, k: string, device: string)
    requires HasKey(s, p, k) && s[p][k].isUsed && s[p][k].deviceId == Some(device)
    requires p != "" && k != ""
    requires i < |calls| && calls[i].request.Targets(p, k)
    requires !Missing(calls[i].request.Device()) && calls[i].request.Device() != Some(device)
    ensures ReplyAt(s, calls, i).outcome == Rejected(KeyInUse)
    ensures ReplyAt(s, calls, i).status == 403
    ensures ReplyAt(s, calls, i).store == After(s, calls[..i])
  {
    BindingIsPermanent(s, calls[..i], p, k, device);
  }

  /** Two claims of one unclaimed key by different devices, the second
      served after the first has written: the first succeeds and the second
      is refused with 403. This holds only when requests are served one at
      a time; `Interleaving.OverlappingClaimsBothSucceed` shows what the
      handler does when two claims overlap. */
  lemma SerialClaimsHaveOneWinner(s: Store, p: string, k: string, first: Call, second: Call)
    requires HasKey(s, p, k) && !s[p][k].isUsed
    requires p != "" && k != ""
    requires first.request.Targets(p, k) && second.request.Targets(p, k)
    requires !Missing(first.request.Device()) && !Missing(second.request.Device())
    requires first.request.Device() != second.request.Device()
    ensures Handle(s, first).outcome == Bound
    ensures Handle(Handle(s, first).store, second).outcome == Rejected(KeyInUse)
  {
  }

  /** Every request in `calls` claims key `k` of package `p` for `device`. */
  ghost predicate AllClaim(calls: seq<Call>, p: string, k: string, device: string) {
    forall i :: 0 <= i < |calls| ==>
      calls[i].request.Targets(p, k) && calls[i].request.Device() == Some(device)
  }

  /** A request by a device allowed to claim the key (it is unclaimed, or
      already the device's own) succeeds and changes only that record. */
  lemma AllowedClaimSucceeds(s: Store, c: Call, p: string, k: string, device: string)
    requires HasKey(s, p, k) && !HeldByOther(s[p][k], device)
    requires p != "" && k != "" && device != ""
    requires c.request.Targets(p, k) && c.request.Device() == Some(device)
    ensures Handle(s, c).outcome == Bound
    ensures OnlyRecordChanged(s, Handle(s, c).store, p, k, Claimed(device, c.now))
  {
  }

  /** The store a run of allowed claims leaves: the key is claimed by the
      client with the time of the last request, and no other record
      changes. */
  lemma {:induction false} RepeatedClaimsState(s: Store, calls: seq<Call>, p: string, k: string, device: string)
    requires HasKey(s, p, k) && !HeldByOther(s[p][k], device)
    requires p != "" && k != "" && device != ""
    requires AllClaim(calls, p, k, device)
    ensures HasKey(After(s, calls), p, k) && !HeldByOther(After(s, calls)[p][k], device)
    ensures |calls| > 0 ==> After(s, calls)[p][k] == Claimed(device, calls[|calls| - 1].now)
    ensures |calls| == 0 ==> After(s, calls) == s
    ensures forall p', k' :: HasKey(s, p', k') && (p', k') != (p, k) ==>
      HasKey(After(s, calls), p', k') && After(s, calls)[p'][k'] == s[p'][k']
    decreases |calls|
  {
    if |calls| > 0 {
      var n := |calls| - 1;
      var prefix := calls[..n];
      assert AllClaim(prefix, p, k, device) by {
        forall i | 0 <= i < |prefix|
          ensures prefix[i].request.Targets(p, k) && prefix[i].request.Device() == Some(device)
        {
          assert prefix[i] == calls[i];
        }
      }
      RepeatedClaimsState(s, prefix, p, k, device);
      var mid := After(s, prefix);
      assert calls[n].request.Targets(p, k) && calls[n].request.Device() == Some(device);
      AllowedClaimSucceeds(mid, calls[n], p, k, device);
    }
  }

  /** Idempotent re-verification: a client that may claim a key (it is
      unclaimed, or already its own) can repeat the claim any number of
      times through either entry point. Every repetition succeeds, the key
      ends claimed by the client with the time of the last request, and no
      other record changes. */
  lemma {:induction false} RepeatedClaimsSucceed(s: Store, calls: seq<Call>, p: string, k: string, device: string)
    requires HasKey(s, p, k) && !HeldByOther(s[p][k], device)
    requires p != "" && k != "" && device != ""
    requires AllClaim(calls, p, k, device)
    ensures forall i :: 0 <= i < |calls| ==> ReplyAt(s, calls, i).outcome == Bound
    ensures HasKey(After(s, calls), p, k)
    ensures |calls| > 0 ==> After(s, calls)[p][k] == Claimed(device, calls[|calls| - 1].now)
    ensures forall p', k' :: HasKey(s, p', k') && (p', k') != (p, k) ==>
      HasKey(After(s, calls), p', k') && After(s, calls)[p'][k'] == s[p'][k']
  {
    RepeatedClaimsState(s, calls, p, k, device);
    forall i | 0 <= i < |calls|
      ensures ReplyAt(s, calls, i).outcome == Bound
    {
      var prefix := calls[..i];
      assert AllClaim(prefix, p, k, device) by {
        forall j | 0 <= j < |prefix|
          ensures prefix[j].request.Targets(p, k) && prefix[j].request.Device() == Some(device)
        {
          assert prefix[j] == calls[j];
        }
      }
      RepeatedClaimsState(s, prefix, p, k, device);
      AllowedClaimSucceeds(After(s, prefix), calls[i], p, k, device);
    }
  }
}
