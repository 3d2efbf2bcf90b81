/**
 The listing as `GET /ids` actually keys it: by the string
 `package + "." + key`. Package names themselves contain dots, so two
 different records can receive the same name, and the dictionary then keeps
 only one of them. The rest of the model keys the listing by
 (package, key) pairs instead (`Handlers.UsedDevices`).
 */
module ListingNames {
  import opened KeyStore
  import opened Handlers
  import Sessions

  /** The listing name of a record. */
  function Join(q: KeyRef): string {
    q.0 + "." + q.1
  }

  /** The names of all claimed records. */
  function UsedNames(s: Store): set<string> {
    set q | q in UsedRefs(s) :: Join(q)
  }

  /** The listing as written: one entry per name. When several claimed
      records share a name the handler keeps whichever its dictionary walk
      reaches last; the model leaves that choice unspecified. */
  ghost function NamedListing(s: Store): (m: map<string, Option<string>>)
    ensures m.Keys == UsedNames(s)
    ensures forall j :: j in m ==>
      exists q :: q in UsedRefs(s) && Join(q) == j && m[j] == s[q.0][q.1].deviceId
  {
    map j | j in UsedNames(s) ::
      var q :| q in UsedRefs(s) && Join(q) == j; s[q.0][q.1].deviceId
  }

  /** Two claimed records, by two different devices, whose names collide:
      the named listing has one entry, so one of the two devices is not
      reported, while the pair-keyed listing reports both. */
  lemma NamedListingLosesAClaim()
    ensures var s := map["com.dark" := map["x.y" := Claimed("A", "t")],
                         "com.dark.x" := map["y" := Claimed("B", "t")]];
            && |UsedDevices(s)| == 2
            && NamedListing(s).Keys == {"com.dark.x.y"}
            && |NamedListing(s)| == 1
  {
    var s := map["com.dark" := map["x.y" := Claimed("A", "t")],
                 "com.dark.x" := map["y" := Claimed("B", "t")]];
    var a, b := ("com.dark", "x.y"), ("com.dark.x", "y");
    assert UsedRefs(s) == {a, b} by {
      assert a in UsedRefs(s) && b in UsedRefs(s);
    }
    assert UsedDevices(s).Keys == {a, b};
    assert a != b;
    assert Join(a) == Join(b) == "com.dark.x.y";
    assert UsedNames(s) == {"com.dark.x.y"};
  }

  /** With the key table the service ships, no sequence of claims ever
      produces a collision: distinct claimed records have distinct names. */
  lemma ShippedTableNamesDistinct(calls: seq<Sessions.Call>)
    ensures NamesDistinct(Sessions.After(InitialStore(), calls))
  {
    var s := Sessions.After(InitialStore(), calls);
    Sessions.NoImplicitCreation(InitialStore(), calls);
    assert UsedRefs(s) <= ShippedRefs;
    ShippedNamesDistinct();
  }

  /** The records of the shipped key table. */
  const ShippedRefs: set<KeyRef> :=
    {("com.sahil.worl", "dark"), ("com.sahil.worl", "darkss"), ("com.dark", "gggg"), ("com.dark", "hhhh")}

  /** The four shipped records have four different names. */
  lemma ShippedNamesDistinct()
    ensures forall q1, q2 :: q1 in ShippedRefs && q2 in ShippedRefs && Join(q1) == Join(q2) ==> q1 == q2
  {
    var a, b, c, d := ("com.sahil.worl", "dark"), ("com.sahil.worl", "darkss"), ("com.dark", "gggg"), ("com.dark", "hhhh");
    assert |Join(a)| == 19 && |Join(b)| == 21 && |Join(c)| == 13 && |Join(d)| == 13;
    assert Join(c)[9] == 'g' && Join(d)[9] == 'h';
  }

  /** No two claimed records share a name. */
  ghost predicate NamesDistinct(s: Store) {
    forall q1, q2 :: q1 in UsedRefs(s) && q2 in UsedRefs(s) && Join(q1) == Join(q2) ==> q1 == q2
  }

  /** When no two claimed records share a name, the named listing reports
      what the pair-keyed listing reports: one entry per claimed record,
      under its joined name, holding that record's device. */
  lemma NamedListingMatchesPairs(s: Store)
    requires NamesDistinct(s)
    ensures NamedListing(s).Keys == set q | q in UsedRefs(s) :: Join(q)
    ensures forall q :: q in UsedRefs(s) ==> NamedListing(s)[Join(q)] == UsedDevices(s)[q]
  {
  }

  /** Every store the shipped table can reach loses no claim in the named
      listing: each claimed record is listed under its name with its own
      device. */
  lemma ShippedTableListsEveryClaim(calls: seq<Sessions.Call>)
    ensures var s := Sessions.After(InitialStore(), calls);
            forall q :: q in UsedRefs(s) ==>
              Join(q) in NamedListing(s) && NamedListing(s)[Join(q)] == UsedDevices(s)[q]
  {
    var s := Sessions.After(InitialStore(), calls);
    ShippedTableNamesDistinct(calls);
    NamedListingMatchesPairs(s);
  }
}
