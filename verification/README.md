# License-key binding service — Dafny model

The service hands out license keys per application package and binds each key
to exactly one device. Its state is a two-level table `valid_keys`:
package name → key id → record `{is_used, device_id, last_verified}`. Two
request handlers claim a key for a device:

- `verify_key` (`GET /keys?key&device_id&package`), and
- the POST branch of `manage_device_ids` (`POST /ids?key&package`, device id in the body).

Both run the same guarded transition. A request is refused when a parameter is
missing or empty (400), the package is unknown (401), the key is unknown in
that package (401), or the key is already used by a different device (403).
Otherwise the record becomes used, bound to the caller's device, and stamped
with the current time. The GET branch of `manage_device_ids` lists every used
key with its device.

The model is written in a functional style:

- `keystore.dfy` (module `KeyStore`) holds the record, the store as
  `map<string, map<string, Record>>`, the shipped key table, and predicates over
  stores: well-formedness, same shape, and "only this record changed".
- `handlers.dfy` (module `Handlers`) holds the two handlers. Each is a pure
  function from the store, the request parameters and the time `now` to a
  `Transition`: status, outcome and the store afterwards. Both promise the
  same claim rule, `FollowsClaimRule`. The module also holds the listing
  and a loop that computes it package by package.
- `properties.dfy` (module `Properties`) holds single-request facts: the
  entry points agree, re-verification only refreshes the timestamp, and
  the listing follows the store.
- `sessions.dfy` (module `Sessions`) states exclusivity, idempotence and
  no-implicit-creation over arbitrary sequences of requests. Each request
  is applied atomically to the store the previous one left.
- `interleaving.dfy` (module `Interleaving`) splits `verify_key` into its
  checks and its write, and shows two overlapping claims both succeeding.
  It records the first finding under Findings.
- `listing_names.dfy` (module `ListingNames`) models the listing as the
  handler keys it, by the joined string `package.key`. It records the
  collision described under Findings.

Request parameters are `Option<string>`. `None` is an absent query parameter.
A parameter counts as missing exactly when Python's `not x` holds, i.e. it is
`None` or `""`. The POST body is always present but may be empty. Timestamps
are an abstract `Timestamp` passed in as `now`.

`app.py` has no secure mode, no credential check, no administration
operations (adding or deleting keys, export or import) and no durable storage;
the key table is a module-level dictionary. The package is always required,
and an unknown package and an unknown key are two distinct refusals, each with
status 401.

## Model

| member | source | states |
|---|---|---|
| KeyStore.InitialStore | app.py:9-18 | the shipped table has packages `com.sahil.worl` (keys `dark`, `darkss`) and `com.dark` (keys `gggg`, `hhhh`), every record unused with no device and no timestamp |
| Handlers.VerifyKey | app.py:25-60 | follows the claim rule. 400 iff key, device or package is missing or empty. 401 "invalid package" iff all are present and the package is unknown. 401 "invalid key" iff the package is known and the key is not. 403 iff the record is used by a different device. Every refusal leaves the store unchanged. Otherwise status 200, and the target record, and only it, becomes used, bound to the caller, stamped `now`; no package or key is added or removed |
| Handlers.RegisterDevice | app.py:76-103 | the same claim rule with the request body as the device id (an empty body is missing), success status 201 |
| Handlers.UsedDevices | app.py:68-74 | the listing holds a (package, key) entry exactly when that record exists and is used, and maps it to the record's device |
| Handlers.ListUsedDevices | app.py:69-73 | visiting every package and every key of it, keeping the used ones, produces exactly the listing |
| Properties.EntryPointsAgree | app.py:25-103 | for the same device, key and package, the whole-record replacement of `verify_key` and the field-by-field update of the POST branch produce the same outcome and the same store, and the same status on every refusal |
| Properties.ReclaimRefreshesOnlyTimestamp | app.py:46-54 | after a successful claim, the same claim through either entry point succeeds again; the new store differs from the previous one only in that record's `last_verified`, so `is_used` and `device_id` stay the same |
| Properties.ClaimKeepsWellFormed | app.py:50-54 | a `verify_key` request (and, by EntryPointsAgree, a POST) never produces a malformed record: a used record always has a non-empty device and a timestamp, an unused one has neither |
| Properties.InitialStoreWellFormed | app.py:9-18 | the shipped table is well-formed and its listing is empty |
| Properties.ListingAfterClaim | app.py:69-73 | after a successful `verify_key` claim (and, by EntryPointsAgree, a POST one), the listing is the previous listing with the target entry set to the caller's device |
| Properties.ListingAfterRefusal | app.py:69-73 | a refused request leaves the listing unchanged |
| Properties.ListedDevicesPresent | app.py:70 | in a well-formed store no listed key maps to a missing device |
| Properties.ShippedTableWalkthrough | app.py:9-60 | on the shipped table, device A claims `dark` (200), device B is then refused (403), and A re-verifies through POST (201) with only the timestamp changing |
| Properties.ShippedTableRefusals | app.py:31-41 | on the shipped table, an unknown package gives 401, an unknown key gives the invalid-key refusal, and an absent device id or an empty body gives 400 |
| Sessions.Handle | app.py:25-103 | serving a request through either entry point follows the claim rule with that entry point's success status |
| Sessions.NoImplicitCreation | app.py:35-41 | after any sequence of requests, the store has exactly the packages it had, and each package exactly its key ids |
| Sessions.SessionKeepsWellFormed | app.py:50-54 | any sequence of requests keeps a well-formed store well-formed |
| Sessions.BindingIsPermanent | app.py:46-47 | once a key is used by a device, it stays used by that same device after any sequence of requests |
| Sessions.OthersAlwaysRefused | app.py:93-94 | once a key is used by a device, every later request for it by another device is refused with 403 and changes nothing, however many requests come between |
| Sessions.SerialClaimsHaveOneWinner | app.py:46-54 | two claims of an unused key by different devices, the second served after the first has written: the first succeeds and the second is refused with 403 |
| Sessions.RepeatedClaimsSucceed | app.py:46-54 | a device allowed to claim a key (the key is unused or already its own) can repeat the claim any number of times through either entry point. Every repetition succeeds. The key ends bound to that device, stamped with the last request's time, and every other record is unchanged |
| ListingNames.NamedListing | app.py:69-73 | the listing as written has one entry per joined name `package.key` of a used record, and each entry holds the device of some used record with that name |
| ListingNames.NamedListingLosesAClaim | app.py:70 | two used records with different devices can share a joined name; the named listing then has one entry while the pair-keyed listing has two |
| ListingNames.ShippedTableNamesDistinct | app.py:9-18 | starting from the shipped table, no sequence of requests makes two used records share a joined name |
| ListingNames.NamedListingMatchesPairs | app.py:69-73 | when no two used records share a joined name, the named listing has exactly one entry per used record, under its joined name, holding the same device as the pair-keyed listing |
| ListingNames.ShippedTableListsEveryClaim | app.py:69-73 | in every store reachable from the shipped table, the named listing reports every used record under its joined name with its own device |
| Interleaving.Commit | app.py:50-54 | the write of a claim changes only the target record, which becomes used by the caller at `now`; it checks nothing |
| Interleaving.OverlappingClaimsBothSucceed | app.py:46-54 | two claims of an unused key by different devices, both checked before either writes, both pass the checks; after both writes the key belongs to the second device, not the first |

## Left out

- Flask routing, reading `request.args` and `request.data`, JSON bodies and response messages, and `app.run` (app.py:1-4, 106-107). Only the status and an abstract refusal kind are modelled. The message texts differ between the two handlers and are not modelled.
- The POST success body echoes the key back (app.py:100-103). The model does not carry response payloads.
- `datetime.now().isoformat()` is a wall-clock read. Each handler takes `now` as a parameter instead.
- Sessions.RepeatedClaimsSucceed: `last_verified` is not proved to be non-decreasing across requests. That depends on the clock, which the model does not constrain.
- Flask serves requests on several threads over the shared dictionary, and the check at app.py:46 / 93 and the write at app.py:50-54 / 96-98 are not under a lock. The source therefore does not guarantee a single winner, or a permanent binding, under concurrent requests. `Sessions` proves exclusivity only for requests served one at a time; `Interleaving` shows one overlap that breaks it, but the model does not enumerate all interleavings.
- Records in the model always have the three fields. A record dictionary missing a field, which would raise `KeyError` in Python, cannot occur with the shipped table.

## Findings

| source | as written | input that shows it | evidently intended | confidence | as-written member | corrected member |
|---|---|---|---|---|---|---|
| app.py:46-54 | the check at line 46 and the write at lines 50-54 are separate steps on a shared dictionary, with no lock, and `app.run` (line 107) serves requests on several threads | two simultaneous claims of `dark` in `com.sahil.worl` by dev-A and dev-B on the shipped table, both checked before either writes: both get 200 and dev-B ends owning the key | exactly one of two competing claims succeeds | medium; not executed, and it depends on the thread scheduling | Interleaving.OverlappingClaimsBothSucceed | Sessions.SerialClaimsHaveOneWinner |
| app.py:70 | the listing keys each used record by `f"{pkg}.{key}"`; package names contain dots, so two records can get the same name and the dictionary keeps only one | package `com.dark` with key `x.y` used by device A, and package `com.dark.x` with key `y` used by device B: both are named `com.dark.x.y` and one device is not listed | one listing entry per used key | low; not executed, and the shipped key table never produces a collision (ListingNames.ShippedTableNamesDistinct) | ListingNames.NamedListingLosesAClaim | Handlers.UsedDevices |
