/** pickCharities: shuffle the pool, build the buckets, run the search. The shuffle is
    random in the source; here the shuffled pool is an input, constrained only to be a
    permutation of the pool. */
module PickCharities {
  import opened Charities
  import opened SearchModes
  import opened BucketBuilder
  import opened BucketSearch

  /** What pickCharities returns when the shuffle yields `shuffled`. */
  function Picked(shuffled: seq<Charity>, profile: Profile, target: CharityCounts): Result<seq<Charity>> {
    Run(BuildBuckets(shuffled, profile), profile, target, NoCounts, Iterations(target))
  }

  method PickCharities(charities: seq<Charity>, shuffled: seq<Charity>, profile: Profile, target: CharityCounts)
    returns (r: Result<seq<Charity>>)
    requires multiset(shuffled) == multiset(charities)
    ensures r == Picked(shuffled, profile, target)
    ensures r.Success? ==>
      |r.value| == Iterations(target) && NoDup(r.value) &&
      forall x :: x in r.value ==> x in charities && IsEligible(x, profile)
  {
    var buckets := CreateBuckets(shuffled, profile);
    r := SearchBuckets(buckets, profile, target);
    PickedDistinctEligible(charities, shuffled, profile, target);
  }

  /** The built buckets hold exactly the eligible charities of the pool. */
  lemma BuiltFromPool(charities: seq<Charity>, shuffled: seq<Charity>, profile: Profile)
    requires multiset(shuffled) == multiset(charities)
    ensures BuildBuckets(shuffled, profile).WellFormed(profile)
    ensures BuildBuckets(shuffled, profile).Elems() == set x | x in charities && IsEligible(x, profile)
  {
    BuildBucketsShape(shuffled, profile);
    assert forall x :: x in shuffled <==> x in charities by {
      forall x ensures x in shuffled <==> x in charities {
        assert x in shuffled <==> x in multiset(shuffled);
        assert x in charities <==> x in multiset(charities);
      }
    }
  }

  /** A successful pick has one distinct charity per iteration, each from the pool, featured,
      and either state-matched or national. */
  lemma PickedDistinctEligible(charities: seq<Charity>, shuffled: seq<Charity>, profile: Profile, target: CharityCounts)
    requires multiset(shuffled) == multiset(charities)
    ensures var r := Picked(shuffled, profile, target);
      r.Success? ==>
        |r.value| == Iterations(target) && NoDup(r.value) &&
        forall x :: x in r.value ==> x in charities && IsEligible(x, profile)
  {
    BuiltFromPool(charities, shuffled, profile);
    RunPicksDistinct(BuildBuckets(shuffled, profile), profile, target, NoCounts, Iterations(target));
  }

  /** At most `target.state` picks are state-matched (none when the state target is negative). */
  lemma PickedStateCeiling(shuffled: seq<Charity>, profile: Profile, target: CharityCounts)
    ensures var r := Picked(shuffled, profile, target);
      r.Success? ==> StateCount(r.value, profile) <= (if target.state > 0 then target.state else 0)
  {
    BuildBucketsShape(shuffled, profile);
    RunStateCeiling(BuildBuckets(shuffled, profile), profile, target, NoCounts, Iterations(target));
  }

  /** The forced picks by position: pick `i` is pet-related while fewer than `target.pet` of
      the picks before it are; once that is met, it is state-matched while fewer than
      `target.state` of the picks before it are. */
  lemma PickedForcedAt(shuffled: seq<Charity>, profile: Profile, target: CharityCounts, i: nat)
    ensures var r := Picked(shuffled, profile, target);
      r.Success? && i < |r.value| ==>
        (PetCount(r.value[..i]) < target.pet ==> IsPetRelated(r.value[i])) &&
        (PetCount(r.value[..i]) >= target.pet && StateCount(r.value[..i], profile) < target.state ==>
           IsStateMatch(r.value[i], profile))
  {
    var b := BuildBuckets(shuffled, profile);
    BuildBucketsShape(shuffled, profile);
    RunForcedPicks(b, profile, target, NoCounts, Iterations(target));
    var r := Picked(shuffled, profile, target);
    if r.Success? && i < |r.value| {
      PicksForcedAt(r.value, profile, target, NoCounts, i);
    }
  }

  /** Pet priority: when the pet target covers every iteration, every pick is pet-related. */
  lemma PickedAllPet(shuffled: seq<Charity>, profile: Profile, target: CharityCounts)
    requires Iterations(target) <= target.pet
    ensures var r := Picked(shuffled, profile, target);
      r.Success? ==> forall x :: x in r.value ==> IsPetRelated(x)
  {
    var b := BuildBuckets(shuffled, profile);
    BuildBucketsShape(shuffled, profile);
    RunPicksDistinct(b, profile, target, NoCounts, Iterations(target));
    RunForcedPicks(b, profile, target, NoCounts, Iterations(target));
    var r := Picked(shuffled, profile, target);
    if r.Success? {
      PicksForcedAllPet(r.value, profile, target, NoCounts);
    }
  }

  /** Pet floor: at least `min(target.pet, Iterations(target))` picks are pet-related. */
  lemma PickedPetFloor(shuffled: seq<Charity>, profile: Profile, target: CharityCounts)
    ensures var r := Picked(shuffled, profile, target);
      r.Success? ==>
        PetCount(r.value) >= (if target.pet < Iterations(target) then target.pet else Iterations(target))
  {
    var b := BuildBuckets(shuffled, profile);
    BuildBucketsShape(shuffled, profile);
    RunPicksDistinct(b, profile, target, NoCounts, Iterations(target));
    RunForcedPicks(b, profile, target, NoCounts, Iterations(target));
    var r := Picked(shuffled, profile, target);
    if r.Success? {
      PicksForcedPetFloor(r.value, profile, target, NoCounts);
    }
  }

  /** State affinity: with no pet target and a state target covering every iteration, every
      pick is state-matched. */
  lemma PickedAllState(shuffled: seq<Charity>, profile: Profile, target: CharityCounts)
    requires target.pet <= 0 && Iterations(target) <= target.state
    ensures var r := Picked(shuffled, profile, target);
      r.Success? ==> forall x :: x in r.value ==> IsStateMatch(x, profile)
  {
    var b := BuildBuckets(shuffled, profile);
    BuildBucketsShape(shuffled, profile);
    RunPicksDistinct(b, profile, target, NoCounts, Iterations(target));
    RunForcedPicks(b, profile, target, NoCounts, Iterations(target));
    var r := Picked(shuffled, profile, target);
    if r.Success? {
      PicksForcedAllState(r.value, profile, target, NoCounts);
    }
  }

  /** The engine throws when the pool has fewer eligible charities than iterations. */
  lemma PickedNeedsSupply(charities: seq<Charity>, shuffled: seq<Charity>, profile: Profile, target: CharityCounts)
    requires multiset(shuffled) == multiset(charities)
    ensures |set x | x in charities && IsEligible(x, profile)| < Iterations(target) ==>
      Picked(shuffled, profile, target) == Failure(NotFoundMessage)
  {
    BuiltFromPool(charities, shuffled, profile);
    RunNeedsSupply(BuildBuckets(shuffled, profile), profile, target, NoCounts, Iterations(target));
    RunFailsWithMessage(BuildBuckets(shuffled, profile), profile, target, NoCounts, Iterations(target));
  }

  /** The engine throws when the pet target covers every iteration and the pool has fewer
      eligible pet-related charities than iterations. */
  lemma PickedNeedsPetSupply(charities: seq<Charity>, shuffled: seq<Charity>, profile: Profile, target: CharityCounts)
    requires multiset(shuffled) == multiset(charities)
    requires Iterations(target) <= target.pet
    ensures |set x | x in charities && IsEligible(x, profile) && IsPetRelated(x)| < Iterations(target) ==>
      Picked(shuffled, profile, target) == Failure(NotFoundMessage)
  {
    var b := BuildBuckets(shuffled, profile);
    BuiltFromPool(charities, shuffled, profile);
    assert (set x | x in b.Elems() && IsPetRelated(x)) == set x | x in charities && IsEligible(x, profile) && IsPetRelated(x);
    RunNeedsPetSupply(b, profile, target, NoCounts, Iterations(target));
    RunFailsWithMessage(b, profile, target, NoCounts, Iterations(target));
  }

  /** The buckets built from a pool holding one national pet charity. */
  lemma NationalPetBuckets(c: Charity, profile: Profile)
    requires IsPetRelated(c) && IsNational(c)
    ensures BuildBuckets([c], profile) == Buckets([], [], [c], [c])
  {
    assert [c][..0] == [];
    assert !IsStateMatch(c, profile) by {
      assert |StateFeature| != |NationalFeature|;
    }
    assert Collect([c], profile, StatePet) == [];
    assert Collect([c], profile, StateAll) == [];
    assert Collect([c], profile, NationalPet) == Inserted([], c) == [c];
    assert Collect([c], profile, NationalAll) == Inserted([], c) == [c];
  }

  /** The pet target is a floor, not a ceiling: with no pet target and a state target of zero, a national
      pet-related charity is still picked, because the `all` buckets also hold pet-related
      charities. */
  lemma PetTargetIsNotACeiling(c: Charity, profile: Profile, target: CharityCounts)
    requires IsPetRelated(c) && IsNational(c)
    requires target.pet <= 0 && target.state == 0 && target.total == 1
    ensures Picked([c], profile, target) == Success([c])
    ensures PetCount([c]) > target.pet
  {
    var b := Buckets([], [], [c], [c]);
    NationalPetBuckets(c, profile);
    assert NextPick(b, target, NoCounts) == Some(c);
    RunStep(b, profile, target, NoCounts, 1);
    assert [c] + [] == [c];
  }

  /** An unmet state target shuts out national charities outside pet mode: with only a
      national charity in the pool, a positive state target and no pet target, the engine
      throws although an eligible charity is left. */
  lemma StateTargetExcludesNational(c: Charity, profile: Profile, target: CharityCounts)
    requires IsNational(c)
    requires target.pet <= 0 && target.state > 0 && target.total > 0
    ensures IsEligible(c, profile)
    ensures Picked([c], profile, target) == Failure(NotFoundMessage)
  {
    var b := BuildBuckets([c], profile);
    assert [c][..0] == [];
    assert !IsStateMatch(c, profile) by {
      assert |StateFeature| != |NationalFeature|;
    }
    assert b.stateAll == Collect([c], profile, StateAll) == [];
    assert NextPick(b, target, NoCounts) == None;
    RunStep(b, profile, target, NoCounts, Iterations(target));
  }
}
