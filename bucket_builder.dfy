/** createBuckets: the four insertion-ordered charity sets (state/pet,
    state/all, national/pet, national/all) built once from the shuffled pool. */
module BucketBuilder {
  import opened Charities

  /** `Set.add` on an insertion-ordered set. */
  function Inserted(s: seq<Charity>, c: Charity): seq<Charity> {
    if c in s then s else s + [c]
  }

  /** A new member goes to the end; a member already present leaves the set as it was. */
  lemma InsertedFacts(s: seq<Charity>, c: Charity)
    ensures forall x :: x in Inserted(s, c) <==> x in s || x == c
    ensures NoDup(s) ==> NoDup(Inserted(s, c))
    ensures c !in s ==> Inserted(s, c) == s + [c]
    ensures c in s ==> Inserted(s, c) == s
  {
    if c !in s && NoDup(s) {
      forall i, j | 0 <= i < j < |s + [c]| ensures (s + [c])[i] != (s + [c])[j] {
        if j == |s| {
          assert (s + [c])[i] == s[i];
        }
      }
    }
  }

  /** `Set.delete`: drops the member, keeps the order of the others. */
  function Removed(s: seq<Charity>, c: Charity): seq<Charity> {
    if s == [] then []
    else if s[0] == c then Removed(s[1..], c)
    else [s[0]] + Removed(s[1..], c)
  }

  /** Deleting `c` removes it and nothing else; on a duplicate-free bucket it removes one entry. */
  lemma {:induction false} RemovedFacts(s: seq<Charity>, c: Charity)
    ensures forall x :: x in Removed(s, c) <==> x in s && x != c
    ensures c !in s ==> Removed(s, c) == s
    ensures NoDup(s) ==> NoDup(Removed(s, c))
    ensures NoDup(s) && c in s ==> |Removed(s, c)| == |s| - 1
  {
    if s != [] {
      RemovedFacts(s[1..], c);
      assert s == [s[0]] + s[1..];
      assert NoDup(s) ==> NoDup(s[1..]) by {
        if NoDup(s) {
          forall i, j | 0 <= i < j < |s[1..]| ensures s[1..][i] != s[1..][j] {
            assert s[1..][i] == s[i + 1] && s[1..][j] == s[j + 1];
          }
        }
      }
      if s[0] != c && NoDup(s) {
        NoDupCons(s[0], Removed(s[1..], c));
      }
    }
  }

  lemma SetOfRemoved(s: seq<Charity>, c: Charity)
    ensures SetOf(Removed(s, c)) == SetOf(s) - {c}
  {
    RemovedFacts(s, c);
  }

  /** The members of `s` not in `picked`, in order. */
  function Minus(s: seq<Charity>, picked: seq<Charity>): seq<Charity> {
    if s == [] then []
    else (if s[0] in picked then [] else [s[0]]) + Minus(s[1..], picked)
  }

  lemma {:induction false} MinusNothing(s: seq<Charity>)
    ensures Minus(s, []) == s
  {
    if s != [] {
      MinusNothing(s[1..]);
      assert s == [s[0]] + s[1..];
    }
  }

  lemma {:induction false} MinusSteps(s: seq<Charity>, picked: seq<Charity>, c: Charity)
    ensures Minus(s, picked + [c]) == Removed(Minus(s, picked), c)
  {
    if s != [] {
      MinusSteps(s[1..], picked, c);
      assert s == [s[0]] + s[1..];
      RemovedConcat(if s[0] in picked then [] else [s[0]], Minus(s[1..], picked), c);
    }
  }

  lemma {:induction false} RemovedConcat(a: seq<Charity>, b: seq<Charity>, c: Charity)
    ensures Removed(a + b, c) == Removed(a, c) + Removed(b, c)
  {
    if a != [] {
      assert (a + b)[1..] == a[1..] + b;
      RemovedConcat(a[1..], b, c);
    } else {
      assert a + b == b;
    }
  }

  /** Deleting a member keeps the others in their insertion order. */
  lemma RemovedKeepsOrder(a: seq<Charity>, b: seq<Charity>, c: Charity)
    requires c !in a && c !in b
    ensures Removed(a + [c] + b, c) == a + b
  {
    RemovedConcat(a + [c], b, c);
    RemovedConcat(a, [c], c);
    RemovedFacts(a, c);
    RemovedFacts(b, c);
    assert Removed([c], c) == Removed([], c) == [];
    assert a + [] == a;
  }

  datatype BucketKey = StatePet | StateAll | NationalPet | NationalAll

  /** The condition createBuckets checks before adding a charity to bucket `key`. */
  predicate BelongsTo(c: Charity, profile: Profile, key: BucketKey) {
    IsFeatured(c) &&
    match key
    case StatePet => IsPetRelated(c) && IsStateMatch(c, profile)
    case StateAll => IsStateMatch(c, profile)
    case NationalPet => IsPetRelated(c) && IsNational(c)
    case NationalAll => IsNational(c)
  }

  /** Every member of `s` meets the condition of bucket `key`. */
  predicate AllBelong(s: seq<Charity>, profile: Profile, key: BucketKey)
    decreases |s|
  {
    s != [] ==> BelongsTo(s[0], profile, key) && AllBelong(s[1..], profile, key)
  }

  lemma {:induction false} AllBelongMembers(s: seq<Charity>, profile: Profile, key: BucketKey)
    ensures AllBelong(s, profile, key) <==> forall x :: x in s ==> BelongsTo(x, profile, key)
    decreases |s|
  {
    if s != [] {
      AllBelongMembers(s[1..], profile, key);
      assert s == [s[0]] + s[1..];
    }
  }

  lemma RemovedBelongs(s: seq<Charity>, c: Charity, profile: Profile, key: BucketKey)
    requires AllBelong(s, profile, key)
    ensures AllBelong(Removed(s, c), profile, key)
  {
    AllBelongMembers(s, profile, key);
    RemovedFacts(s, c);
    AllBelongMembers(Removed(s, c), profile, key);
  }

  /** Bucket `key` after the builder has seen `charities`, one `add` per qualifying charity. */
  function Collect(charities: seq<Charity>, profile: Profile, key: BucketKey): seq<Charity> {
    if charities == [] then []
    else
      var last := charities[|charities| - 1];
      var before := Collect(charities[..|charities| - 1], profile, key);
      if BelongsTo(last, profile, key) then Inserted(before, last) else before
  }

  /** One more charity seen by the builder: bucket `key` gains it exactly when it qualifies. */
  lemma CollectStep(charities: seq<Charity>, i: nat, profile: Profile, key: BucketKey)
    requires i < |charities|
    ensures Collect(charities[..i + 1], profile, key) ==
      if BelongsTo(charities[i], profile, key) then Inserted(Collect(charities[..i], profile, key), charities[i])
      else Collect(charities[..i], profile, key)
  {
    assert charities[..i + 1][..i] == charities[..i];
  }

  /** Reference definition: the qualifying charities, in input order. */
  function Filter(charities: seq<Charity>, profile: Profile, key: BucketKey): seq<Charity> {
    if charities == [] then []
    else (if BelongsTo(charities[0], profile, key) then [charities[0]] else []) + Filter(charities[1..], profile, key)
  }

  lemma {:induction false} FilterSnoc(s: seq<Charity>, c: Charity, profile: Profile, key: BucketKey)
    ensures Filter(s + [c], profile, key) == Filter(s, profile, key) + (if BelongsTo(c, profile, key) then [c] else [])
  {
    if s == [] {
      assert (s + [c])[1..] == [];
    } else {
      assert (s + [c])[1..] == s[1..] + [c];
      FilterSnoc(s[1..], c, profile, key);
    }
  }

  /** A bucket holds exactly the qualifying charities, each once. */
  lemma {:induction false} CollectMembers(charities: seq<Charity>, profile: Profile, key: BucketKey)
    ensures NoDup(Collect(charities, profile, key))
    ensures forall x :: x in Collect(charities, profile, key) <==> x in charities && BelongsTo(x, profile, key)
  {
    if charities != [] {
      var n := |charities| - 1;
      CollectMembers(charities[..n], profile, key);
      InsertedFacts(Collect(charities[..n], profile, key), charities[n]);
      assert charities == charities[..n] + [charities[n]];
    }
  }

  /** With distinct records (unique ids), a bucket is the qualifying charities in input order. */
  lemma {:induction false} CollectKeepsOrder(charities: seq<Charity>, profile: Profile, key: BucketKey)
    requires NoDup(charities)
    ensures Collect(charities, profile, key) == Filter(charities, profile, key)
  {
    if charities != [] {
      var n := |charities| - 1;
      var init := charities[..n];
      assert charities == init + [charities[n]];
      assert NoDup(init);
      CollectKeepsOrder(init, profile, key);
      CollectMembers(init, profile, key);
      assert charities[n] !in init;
      FilterSnoc(init, charities[n], profile, key);
    }
  }

  /** The value of the bucket structure: four insertion-ordered sets. */
  datatype Buckets = Buckets(
    statePet: seq<Charity>,
    stateAll: seq<Charity>,
    nationalPet: seq<Charity>,
    nationalAll: seq<Charity>)
  {
    /** Every charity still in some bucket. */
    function Elems(): set<Charity> {
      SetOf(statePet) + SetOf(stateAll) + SetOf(nationalPet) + SetOf(nationalAll)
    }

    /** Each bucket holds only charities meeting its condition. */
    predicate WellFormed(profile: Profile) {
      AllBelong(statePet, profile, StatePet) && AllBelong(stateAll, profile, StateAll) &&
      AllBelong(nationalPet, profile, NationalPet) && AllBelong(nationalAll, profile, NationalAll)
    }

    /** Each bucket is a set: no charity appears twice in it. */
    predicate Distinct() {
      NoDup(statePet) && NoDup(stateAll) && NoDup(nationalPet) && NoDup(nationalAll)
    }

    /** The picked charity deleted from all four buckets; nothing else changes. */
    function Without(c: Charity): Buckets {
      Buckets(Removed(statePet, c), Removed(stateAll, c), Removed(nationalPet, c), Removed(nationalAll, c))
    }

    /** Deleting `c` takes exactly `c` out of the buckets, and is a no-op when it is absent. */
    lemma WithoutElems(c: Charity)
      ensures Without(c).Elems() == Elems() - {c}
      ensures c !in Elems() ==> Without(c) == this
    {
      SetOfRemoved(statePet, c);
      SetOfRemoved(stateAll, c);
      SetOfRemoved(nationalPet, c);
      SetOfRemoved(nationalAll, c);
      RemovedFacts(statePet, c);
      RemovedFacts(stateAll, c);
      RemovedFacts(nationalPet, c);
      RemovedFacts(nationalAll, c);
    }

    /** Deleting keeps every bucket within its condition and keeps every bucket a set. */
    lemma WithoutKeepsWellFormed(c: Charity, profile: Profile)
      ensures WellFormed(profile) ==> Without(c).WellFormed(profile)
      ensures Distinct() ==> Without(c).Distinct()
    {
      if WellFormed(profile) {
        RemovedBelongs(statePet, c, profile, StatePet);
        RemovedBelongs(stateAll, c, profile, StateAll);
        RemovedBelongs(nationalPet, c, profile, NationalPet);
        RemovedBelongs(nationalAll, c, profile, NationalAll);
      }
      RemovedFacts(statePet, c);
      RemovedFacts(stateAll, c);
      RemovedFacts(nationalPet, c);
      RemovedFacts(nationalAll, c);
    }

    /** The buckets after deleting each of `picked`. */
    function WithoutAll(picked: seq<Charity>): Buckets {
      Buckets(Minus(statePet, picked), Minus(stateAll, picked), Minus(nationalPet, picked), Minus(nationalAll, picked))
    }

    /** Deleting nothing leaves the buckets alone. */
    lemma WithoutNothing()
      ensures WithoutAll([]) == this
    {
      MinusNothing(statePet);
      MinusNothing(stateAll);
      MinusNothing(nationalPet);
      MinusNothing(nationalAll);
    }

    /** Deleting one more pick is one more `Without`. */
    lemma WithoutAllSteps(picked: seq<Charity>, c: Charity)
      ensures WithoutAll(picked + [c]) == WithoutAll(picked).Without(c)
    {
      MinusSteps(statePet, picked, c);
      MinusSteps(stateAll, picked, c);
      MinusSteps(nationalPet, picked, c);
      MinusSteps(nationalAll, picked, c);
    }
  }

  /** What createBuckets returns for `charities`. */
  function BuildBuckets(charities: seq<Charity>, profile: Profile): Buckets {
    Buckets(
      Collect(charities, profile, StatePet),
      Collect(charities, profile, StateAll),
      Collect(charities, profile, NationalPet),
      Collect(charities, profile, NationalAll))
  }

  /** The built buckets: well formed and sets, pet buckets inside their `all` buckets, no charity in
      both a state and a national bucket, and together exactly the eligible charities. */
  lemma BuildBucketsShape(charities: seq<Charity>, profile: Profile)
    ensures BuildBuckets(charities, profile).WellFormed(profile)
    ensures BuildBuckets(charities, profile).Distinct()
    ensures var b := BuildBuckets(charities, profile);
      (forall x :: x in b.statePet ==> x in b.stateAll) &&
      (forall x :: x in b.nationalPet ==> x in b.nationalAll) &&
      (forall x :: x in b.stateAll ==> x !in b.nationalAll)
    ensures BuildBuckets(charities, profile).Elems() == set x | x in charities && IsEligible(x, profile)
  {
    CollectMembers(charities, profile, StatePet);
    CollectMembers(charities, profile, StateAll);
    CollectMembers(charities, profile, NationalPet);
    CollectMembers(charities, profile, NationalAll);
    var b := BuildBuckets(charities, profile);
    AllBelongMembers(b.statePet, profile, StatePet);
    AllBelongMembers(b.stateAll, profile, StateAll);
    AllBelongMembers(b.nationalPet, profile, NationalPet);
    AllBelongMembers(b.nationalAll, profile, NationalAll);
  }

  /** The bucket structure the engine mutates in place. */
  class CharityBuckets {
    var statePet: seq<Charity>
    var stateAll: seq<Charity>
    var nationalPet: seq<Charity>
    var nationalAll: seq<Charity>

    constructor ()
      ensures Value() == Buckets([], [], [], [])
    {
      statePet, stateAll, nationalPet, nationalAll := [], [], [], [];
    }

    function Value(): Buckets
      reads this
    {
      Buckets(statePet, stateAll, nationalPet, nationalAll)
    }

    /** Deletes `c` from every bucket; a bucket without it is left as it was. */
    method Delete(c: Charity)
      modifies this
      ensures Value() == old(Value()).Without(c)
    {
      statePet := Removed(statePet, c);
      stateAll := Removed(stateAll, c);
      nationalPet := Removed(nationalPet, c);
      nationalAll := Removed(nationalAll, c);
    }
  }

  /** One pass over the pool; unfeatured charities are skipped, the others are
      added to every bucket whose condition they meet. */
  method CreateBuckets(charities: seq<Charity>, profile: Profile) returns (buckets: CharityBuckets)
    ensures fresh(buckets)
    ensures buckets.Value() == BuildBuckets(charities, profile)
  {
    buckets := new CharityBuckets();
    for i := 0 to |charities|
      invariant buckets.Value() == BuildBuckets(charities[..i], profile)
    {
      var charity := charities[i];
      CollectStep(charities, i, profile, StatePet);
      CollectStep(charities, i, profile, StateAll);
      CollectStep(charities, i, profile, NationalPet);
      CollectStep(charities, i, profile, NationalAll);
      ghost var next := BuildBuckets(charities[..i + 1], profile);
      if charity.featured.None? {
        continue;
      }
      if IsPetRelated(charity) {
        if IsStateMatch(charity, profile) {
          buckets.statePet := Inserted(buckets.statePet, charity);
        }
        if IsNational(charity) {
          buckets.nationalPet := Inserted(buckets.nationalPet, charity);
        }
      }
      assert buckets.statePet == next.statePet && buckets.nationalPet == next.nationalPet;
      if IsStateMatch(charity, profile) {
        buckets.stateAll := Inserted(buckets.stateAll, charity);
      }
      assert buckets.stateAll == next.stateAll;
      if IsNational(charity) {
        buckets.nationalAll := Inserted(buckets.nationalAll, charity);
      }
    }
    assert charities[..|charities|] == charities;
  }
}
