/**
 `verify_key` as two separate steps on the shared dictionary: the checks,
 which read the record, and the write, which replaces it. Flask's server
 runs requests on several threads, so the checks of one request can run
 before the write of another. `Sessions` treats every request as one
 atomic step; this module shows what happens when two claims overlap.
 */
module Interleaving {
  import opened KeyStore
  import opened Handlers

  /** The write of a successful claim, applied to the store as it is when
      the thread reaches it; nothing is checked again at that point. */
  function Commit(s: Store, p: string, k: string, device: string, now: Timestamp): (s': Store)
    requires HasKey(s, p, k)
    ensures OnlyRecordChanged(s, s', p, k, Claimed(device, now))
  {
    s[p := s[p][k := Claimed(device, now)]]
  }

  /** Two claims of one unclaimed key by different devices, both checked
      against the store before either writes: both pass the checks and are
      answered 200, and the later write silently takes the key from the
      first device. */
  lemma OverlappingClaimsBothSucceed(s: Store, p: string, k: string,
                                     first: string, second: string, t1: Timestamp, t2: Timestamp)
    requires HasKey(s, p, k) && !s[p][k].isUsed
    requires p != "" && k != "" && first != "" && second != "" && first != second
    ensures VerifyKey(s, Some(k), Some(first), Some(p), t1).outcome == Bound
    ensures VerifyKey(s, Some(k), Some(second), Some(p), t2).outcome == Bound
    ensures var after := Commit(Commit(s, p, k, first, t1), p, k, second, t2);
            after[p][k].deviceId == Some(second) && after[p][k].deviceId != Some(first)
  {
  }
}
