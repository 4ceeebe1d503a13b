/** searchBuckets: the iteration that picks one charity per step from the
    first non-empty candidate bucket, deletes it everywhere and counts it.
    `Run` is the functional specification of that loop; the lemmas below
    state what every successful run guarantees. */
module BucketSearch {
  import opened Charities
  import opened SearchModes
  import opened BucketBuilder

  const NotFoundMessage: string := "Charity result set within search constraints not found."

  /** The candidate buckets, state before national; pet mode consults only the pet buckets. */
  function Candidates(b: Buckets, pet: bool, mode: FeaturedMode): seq<seq<Charity>> {
    if pet then
      (if mode.state then [b.statePet] else []) + (if mode.national then [b.nationalPet] else [])
    else
      (if mode.state then [b.stateAll] else []) + (if mode.national then [b.nationalAll] else [])
  }

  /** One candidate per eligible category, the state bucket first and the national bucket
      last; pet mode chooses the pet buckets, otherwise the `all` buckets. */
  lemma CandidatesShape(b: Buckets, pet: bool, mode: FeaturedMode)
    ensures var cs := Candidates(b, pet, mode);
      |cs| == (if mode.state then 1 else 0) + (if mode.national then 1 else 0) &&
      (mode.state ==> cs[0] == (if pet then b.statePet else b.stateAll)) &&
      (mode.national ==> cs[|cs| - 1] == (if pet then b.nationalPet else b.nationalAll))
  {
  }

  /** determineSearchBuckets: pushes the candidate buckets in order. */
  method DetermineSearchBuckets(buckets: CharityBuckets, pet: bool, mode: FeaturedMode) returns (cs: seq<seq<Charity>>)
    ensures cs == Candidates(buckets.Value(), pet, mode)
  {
    cs := [];
    if pet {
      if mode.state {
        cs := cs + [buckets.statePet];
      }
      if mode.national {
        cs := cs + [buckets.nationalPet];
      }
      return;
    }
    if mode.state {
      cs := cs + [buckets.stateAll];
    }
    if mode.national {
      cs := cs + [buckets.nationalAll];
    }
  }

  /** The first member of the first non-empty bucket, or nothing when all are empty. */
  function FirstCandidate(cs: seq<seq<Charity>>): Option<Charity> {
    if cs == [] then None
    else if cs[0] != [] then Some(cs[0][0])
    else FirstCandidate(cs[1..])
  }

  lemma {:induction false} FirstCandidateSpec(cs: seq<seq<Charity>>)
    ensures var r := FirstCandidate(cs);
      (r.None? <==> forall k :: 0 <= k < |cs| ==> cs[k] == []) &&
      (r.Some? ==> exists k :: 0 <= k < |cs| && cs[k] != [] && r.value == cs[k][0] &&
                               forall j :: 0 <= j < k ==> cs[j] == [])
  {
    if cs != [] && cs[0] == [] {
      FirstCandidateSpec(cs[1..]);
      var r := FirstCandidate(cs[1..]);
      assert forall k :: 0 < k < |cs| ==> cs[k] == cs[1..][k - 1];
      if r.Some? {
        var k :| 0 <= k < |cs[1..]| && cs[1..][k] != [] && r.value == cs[1..][k][0] &&
                 forall j :: 0 <= j < k ==> cs[1..][j] == [];
        assert cs[k + 1] != [] && r.value == cs[k + 1][0];
        assert forall j :: 0 <= j < k + 1 ==> cs[j] == [];
      }
    }
  }

  /** findCharity: walks the candidate buckets and returns the first member it meets. */
  method FindCharity(cs: seq<seq<Charity>>) returns (r: Option<Charity>)
    ensures r == FirstCandidate(cs)
    ensures r.None? <==> forall k :: 0 <= k < |cs| ==> cs[k] == []
  {
    FirstCandidateSpec(cs);
    for i := 0 to |cs|
      invariant forall j :: 0 <= j < i ==> cs[j] == []
    {
      if cs[i] != [] {
        return Some(cs[i][0]);
      }
    }
    return None;
  }

  /** The charity one iteration picks from buckets `b` with counters `current`: the head of
      the state bucket when state charities are eligible and it has one, else the head of the
      national bucket when national charities are eligible; pet mode reads the pet buckets. */
  function NextPick(b: Buckets, target: CharityCounts, current: CharityCounts): Option<Charity> {
    var pet := DeterminePrioritySearchMode(current, target);
    var mode := DetermineFeaturedSearchMode(current, target, pet);
    var stateBucket := if pet then b.statePet else b.stateAll;
    var nationalBucket := if pet then b.nationalPet else b.nationalAll;
    if mode.state && stateBucket != [] then Some(stateBucket[0])
    else if mode.national && nationalBucket != [] then Some(nationalBucket[0])
    else None
  }

  /** Probing the candidate list built for the current modes yields exactly `NextPick`. */
  lemma CandidatesYieldNextPick(b: Buckets, target: CharityCounts, current: CharityCounts)
    ensures var pet := DeterminePrioritySearchMode(current, target);
      FirstCandidate(Candidates(b, pet, DetermineFeaturedSearchMode(current, target, pet))) == NextPick(b, target, current)
  {
    var pet := DeterminePrioritySearchMode(current, target);
    var mode := DetermineFeaturedSearchMode(current, target, pet);
    var st := if pet then b.statePet else b.stateAll;
    var na := if pet then b.nationalPet else b.nationalAll;
    var cs := Candidates(b, pet, mode);
    if mode.state && mode.national {
      assert cs == [st, na];
      assert cs[1..] == [na] && cs[1..][1..] == [];
      assert FirstCandidate([na]) == if na != [] then Some(na[0]) else FirstCandidate([]);
    } else if mode.state {
      assert cs == [st] && cs[1..] == [];
    } else if mode.national {
      assert cs == [na] && cs[1..] == [];
    } else {
      assert cs == [];
    }
  }

  /** `n` more iterations of the search loop from buckets `b` and counters `current`:
      the picks in order, or the throw that discards them. */
  function Run(b: Buckets, profile: Profile, target: CharityCounts, current: CharityCounts, n: nat): Result<seq<Charity>>
    decreases n
  {
    if n == 0 then Success([])
    else
      match NextPick(b, target, current)
      case None => Failure(NotFoundMessage)
      case Some(c) => Prepend([c], Run(b.Without(c), profile, target, Bump(current, c, profile), n - 1))
  }

  function Prepend(picked: seq<Charity>, r: Result<seq<Charity>>): Result<seq<Charity>> {
    match r
    case Success(rest) => Success(picked + rest)
    case Failure(e) => Failure(e)
  }

  lemma PrependFacts(a: seq<Charity>, b: seq<Charity>, r: Result<seq<Charity>>)
    ensures Prepend([], r) == r
    ensures Prepend(a, Prepend(b, r)) == Prepend(a + b, r)
    ensures Prepend(a, Success([])) == Success(a)
  {
    if r.Success? {
      assert [] + r.value == r.value;
      assert a + (b + r.value) == (a + b) + r.value;
    }
    assert a + [] == a;
  }

  /** The loop runs `target.total` times; a non-positive total runs it not at all. */
  function Iterations(target: CharityCounts): nat {
    if target.total > 0 then target.total else 0
  }

  /** A pick comes from a bucket, obeys the modes and is eligible. */
  lemma PickRespectsModes(b: Buckets, profile: Profile, target: CharityCounts, current: CharityCounts)
    requires b.WellFormed(profile)
    ensures NextPick(b, target, current).Some? ==>
      var c := NextPick(b, target, current).value;
      c in b.Elems() &&
      IsEligible(c, profile) &&
      (current.pet < target.pet ==> IsPetRelated(c)) &&
      (IsStateMatch(c, profile) ==> current.state < target.state) &&
      (current.pet >= target.pet && current.state < target.state ==> IsStateMatch(c, profile))
  {
    var r := NextPick(b, target, current);
    if r.Some? {
      var c := r.value;
      assert c in b.statePet || c in b.stateAll || c in b.nationalPet || c in b.nationalAll;
    }
  }

  /** One iteration of the loop, taken apart. */
  lemma RunStep(b: Buckets, profile: Profile, target: CharityCounts, current: CharityCounts, n: nat)
    requires n > 0
    ensures NextPick(b, target, current).None? ==> Run(b, profile, target, current, n) == Failure(NotFoundMessage)
    ensures NextPick(b, target, current).Some? ==>
      var c := NextPick(b, target, current).value;
      Run(b, profile, target, current, n) == Prepend([c], Run(b.Without(c), profile, target, Bump(current, c, profile), n - 1))
  {
  }

  lemma ConsPick(b: Buckets, profile: Profile, c: Charity, tail: seq<Charity>)
    requires c in b.Elems() && IsEligible(c, profile) && NoDup(tail)
    requires forall x :: x in tail ==> x in b.Without(c).Elems() && IsEligible(x, profile)
    ensures NoDup([c] + tail)
    ensures forall x :: x in [c] + tail ==> x in b.Elems() && IsEligible(x, profile)
  {
    b.WithoutElems(c);
    NoDupCons(c, tail);
  }

  /** A successful run returns `n` distinct charities, all eligible and taken from the buckets. */
  lemma {:induction false} RunPicksDistinct(b: Buckets, profile: Profile, target: CharityCounts, current: CharityCounts, n: nat)
    requires b.WellFormed(profile)
    ensures Run(b, profile, target, current, n).Success? ==>
      var r := Run(b, profile, target, current, n).value;
      |r| == n && NoDup(r) && forall x :: x in r ==> x in b.Elems() && IsEligible(x, profile)
    decreases n
  {
    var res := Run(b, profile, target, current, n);
    if n > 0 {
      RunStep(b, profile, target, current, n);
      if NextPick(b, target, current).Some? {
        var c := NextPick(b, target, current).value;
        PickRespectsModes(b, profile, target, current);
        var next := b.Without(c);
        b.WithoutKeepsWellFormed(c, profile);
        var tail := Run(next, profile, target, Bump(current, c, profile), n - 1);
        RunPicksDistinct(next, profile, target, Bump(current, c, profile), n - 1);
        if tail.Success? {
          assert res == Success([c] + tail.value);
          ConsPick(b, profile, c, tail.value);
        }
      }
    }
  }

  /** State ceiling: state-matched picks stop at the state target, and none are made once
      the counters are already past it. */
  lemma {:induction false} RunStateCeiling(b: Buckets, profile: Profile, target: CharityCounts, current: CharityCounts, n: nat)
    requires b.WellFormed(profile)
    ensures Run(b, profile, target, current, n).Success? ==>
      current.state + StateCount(Run(b, profile, target, current, n).value, profile) <=
      (if current.state > target.state then current.state else target.state)
    decreases n
  {
    var res := Run(b, profile, target, current, n);
    if n > 0 {
      RunStep(b, profile, target, current, n);
      if NextPick(b, target, current).Some? {
        var c := NextPick(b, target, current).value;
        PickRespectsModes(b, profile, target, current);
        b.WithoutKeepsWellFormed(c, profile);
        var next := Bump(current, c, profile);
        var tail := Run(b.Without(c), profile, target, next, n - 1);
        RunStateCeiling(b.Without(c), profile, target, next, n - 1);
        if tail.Success? {
          assert res == Success([c] + tail.value);
          assert ([c] + tail.value)[1..] == tail.value;
        }
      }
    }
  }

  /** Forced picks in `r`, a run started from counters `current`: while the pet target is
      unmet the pick is pet-related; once it is met and the state target is not, the pick
      is state-matched. The counters advance with each pick as the engine's do. */
  predicate PicksForced(r: seq<Charity>, profile: Profile, target: CharityCounts, current: CharityCounts)
    decreases |r|
  {
    r != [] ==>
      (current.pet < target.pet ==> IsPetRelated(r[0])) &&
      (current.pet >= target.pet && current.state < target.state ==> IsStateMatch(r[0], profile)) &&
      PicksForced(r[1..], profile, target, Bump(current, r[0], profile))
  }

  /** The forced picks stated by position: the counters before pick `i` are the starting
      counters plus the tallies of the first `i` picks. */
  lemma {:induction false} PicksForcedAt(r: seq<Charity>, profile: Profile, target: CharityCounts, current: CharityCounts, i: nat)
    requires PicksForced(r, profile, target, current)
    requires i < |r|
    ensures current.pet + PetCount(r[..i]) < target.pet ==> IsPetRelated(r[i])
    ensures current.pet + PetCount(r[..i]) >= target.pet && current.state + StateCount(r[..i], profile) < target.state ==>
            IsStateMatch(r[i], profile)
  {
    if i == 0 {
      assert r[..i] == [];
    } else {
      PicksForcedAt(r[1..], profile, target, Bump(current, r[0], profile), i - 1);
      assert r[..i][1..] == r[1..][..i - 1];
      assert r[..i][0] == r[0];
      assert r[i] == r[1..][i - 1];
    }
  }

  /** While the pet target outlasts the remaining picks, every pick is pet-related. */
  lemma {:induction false} PicksForcedAllPet(r: seq<Charity>, profile: Profile, target: CharityCounts, current: CharityCounts)
    requires PicksForced(r, profile, target, current)
    requires current.pet + |r| <= target.pet
    ensures forall x :: x in r ==> IsPetRelated(x)
    decreases |r|
  {
    if r != [] {
      PicksForcedAllPet(r[1..], profile, target, Bump(current, r[0], profile));
      assert r == [r[0]] + r[1..];
    }
  }

  /** Pet floor: the pet counter ends at least at the pet target, or wherever the picks
      run out first, since every pick made below the target is pet-related. */
  lemma {:induction false} PicksForcedPetFloor(r: seq<Charity>, profile: Profile, target: CharityCounts, current: CharityCounts)
    requires PicksForced(r, profile, target, current)
    ensures current.pet + PetCount(r) >= (if target.pet < current.pet + |r| then target.pet else current.pet + |r|)
    decreases |r|
  {
    if r != [] {
      PicksForcedPetFloor(r[1..], profile, target, Bump(current, r[0], profile));
    }
  }

  /** Once the pet target is met, every pick is state-matched while the state target
      outlasts the remaining picks. */
  lemma {:induction false} PicksForcedAllState(r: seq<Charity>, profile: Profile, target: CharityCounts, current: CharityCounts)
    requires PicksForced(r, profile, target, current)
    requires current.pet >= target.pet && current.state + |r| <= target.state
    ensures forall x :: x in r ==> IsStateMatch(x, profile)
    decreases |r|
  {
    if r != [] {
      PicksForcedAllState(r[1..], profile, target, Bump(current, r[0], profile));
      assert r == [r[0]] + r[1..];
    }
  }

  /** Every successful run obeys the forced picks. */
  lemma {:induction false} RunForcedPicks(b: Buckets, profile: Profile, target: CharityCounts, current: CharityCounts, n: nat)
    requires b.WellFormed(profile)
    ensures Run(b, profile, target, current, n).Success? ==>
      PicksForced(Run(b, profile, target, current, n).value, profile, target, current)
    decreases n
  {
    var res := Run(b, profile, target, current, n);
    if n > 0 {
      RunStep(b, profile, target, current, n);
      if NextPick(b, target, current).Some? {
        var c := NextPick(b, target, current).value;
        PickRespectsModes(b, profile, target, current);
        b.WithoutKeepsWellFormed(c, profile);
        var next := Bump(current, c, profile);
        var tail := Run(b.Without(c), profile, target, next, n - 1);
        RunForcedPicks(b.Without(c), profile, target, next, n - 1);
        if tail.Success? {
          assert res == Success([c] + tail.value);
          assert ([c] + tail.value)[1..] == tail.value;
        }
      }
    }
  }

  /** The only way a run fails is the not-found throw. */
  lemma {:induction false} RunFailsWithMessage(b: Buckets, profile: Profile, target: CharityCounts, current: CharityCounts, n: nat)
    ensures Run(b, profile, target, current, n).Failure? ==> Run(b, profile, target, current, n) == Failure(NotFoundMessage)
    decreases n
  {
    if n > 0 {
      RunStep(b, profile, target, current, n);
      if NextPick(b, target, current).Some? {
        var c := NextPick(b, target, current).value;
        RunFailsWithMessage(b.Without(c), profile, target, Bump(current, c, profile), n - 1);
      }
    }
  }

  /** Exhaustion: a run of `n` picks needs `n` distinct charities in the buckets. */
  lemma RunNeedsSupply(b: Buckets, profile: Profile, target: CharityCounts, current: CharityCounts, n: nat)
    requires b.WellFormed(profile)
    ensures |b.Elems()| < n ==> Run(b, profile, target, current, n).Failure?
  {
    RunPicksDistinct(b, profile, target, current, n);
    var res := Run(b, profile, target, current, n);
    if res.Success? {
      NoDupCardinality(res.value);
      SubsetCardinality(SetOf(res.value), b.Elems());
    }
  }

  /** Exhaustion in pet mode: when the pet target outlasts the run, every pick must be a
      distinct pet-related charity from the buckets. */
  lemma RunNeedsPetSupply(b: Buckets, profile: Profile, target: CharityCounts, current: CharityCounts, n: nat)
    requires b.WellFormed(profile)
    requires current.pet + n <= target.pet
    ensures |set x | x in b.Elems() && IsPetRelated(x)| < n ==> Run(b, profile, target, current, n).Failure?
  {
    RunPicksDistinct(b, profile, target, current, n);
    RunForcedPicks(b, profile, target, current, n);
    var res := Run(b, profile, target, current, n);
    if res.Success? {
      var r := res.value;
      PicksForcedAllPet(r, profile, target, current);
      NoDupCardinality(r);
      SubsetCardinality(SetOf(r), set x | x in b.Elems() && IsPetRelated(x));
    }
  }

  /** Advancing the loop by one pick keeps the spent picks and the remaining run in step. */
  lemma RunAdvance(whole: Result<seq<Charity>>, picked: seq<Charity>, b: Buckets, profile: Profile,
                   target: CharityCounts, current: CharityCounts, k: nat, c: Charity)
    requires k > 0 && NextPick(b, target, current) == Some(c)
    requires whole == Prepend(picked, Run(b, profile, target, current, k))
    ensures whole == Prepend(picked + [c], Run(b.Without(c), profile, target, Bump(current, c, profile), k - 1))
  {
    RunStep(b, profile, target, current, k);
    PrependFacts(picked, [c], Run(b.Without(c), profile, target, Bump(current, c, profile), k - 1));
  }

  lemma SearchStep(initial: Buckets, whole: Result<seq<Charity>>, picked: seq<Charity>, b: Buckets, profile: Profile,
                   target: CharityCounts, current: CharityCounts, k: nat, c: Charity)
    requires k > 0 && NextPick(b, target, current) == Some(c)
    requires b == initial.WithoutAll(picked)
    requires whole == Prepend(picked, Run(b, profile, target, current, k))
    ensures b.Without(c) == initial.WithoutAll(picked + [c])
    ensures whole == Prepend(picked + [c], Run(b.Without(c), profile, target, Bump(current, c, profile), k - 1))
  {
    RunAdvance(whole, picked, b, profile, target, current, k, c);
    initial.WithoutAllSteps(picked, c);
  }

  /** searchBuckets: `target.total` iterations over the shared buckets; throws as soon as no
      candidate bucket has a member, discarding the picks so far. */
  method SearchBuckets(buckets: CharityBuckets, profile: Profile, target: CharityCounts) returns (r: Result<seq<Charity>>)
    modifies buckets
    ensures r == Run(old(buckets.Value()), profile, target, NoCounts, Iterations(target))
    ensures r.Success? ==> buckets.Value() == old(buckets.Value()).WithoutAll(r.value)
  {
    ghost var initial := buckets.Value();
    ghost var whole := Run(initial, profile, target, NoCounts, Iterations(target));
    ghost var left: nat := Iterations(target);
    ghost var cur := initial;
    var currentCounts := NoCounts;
    var charities: seq<Charity> := [];
    var index := 0;
    PrependFacts([], [], whole);
    initial.WithoutNothing();
    while index < target.total
      invariant 0 <= index <= Iterations(target) && |charities| == index && left == Iterations(target) - index
      invariant buckets.Value() == cur && cur == initial.WithoutAll(charities)
      invariant currentCounts == CharityCounts(StateCount(charities, profile), PetCount(charities), |charities|)
      invariant whole == Prepend(charities, Run(cur, profile, target, currentCounts, left))
    {
      var pet := DeterminePrioritySearchMode(currentCounts, target);
      var mode := DetermineFeaturedSearchMode(currentCounts, target, pet);
      var candidates := DetermineSearchBuckets(buckets, pet, mode);
      var charity := FindCharity(candidates);
      ghost var before := cur;
      CandidatesYieldNextPick(before, target, currentCounts);
      if charity.None? {
        RunStep(before, profile, target, currentCounts, left);
        return Failure(NotFoundMessage);
      }
      var c := charity.value;
      ghost var next := Bump(currentCounts, c, profile);
      SearchStep(initial, whole, charities, before, profile, target, currentCounts, left, c);
      BumpCounts(charities, c, profile);
      buckets.Delete(c);
      if IsPetRelated(c) {
        currentCounts := currentCounts.(pet := currentCounts.pet + 1);
      }
      if IsStateMatch(c, profile) {
        currentCounts := currentCounts.(state := currentCounts.state + 1);
      }
      currentCounts := currentCounts.(total := currentCounts.total + 1);
      assert currentCounts == next;
      charities := charities + [c];
      index := index + 1;
      left := left - 1;
      cur := before.Without(c);
    }
    PrependFacts(charities, [], Success([]));
    return Success(charities);
  }
}
