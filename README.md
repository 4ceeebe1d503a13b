# Charity selection engine

A Dafny model of the selection engine of the anonymous charity picker
(`source/pick-charities.ts`). The engine receives a pool of charities, a donor
profile and target counts `{state, pet, total}`. It shuffles the pool and
sorts the featured charities into four insertion-ordered sets: state/pet,
state/all, national/pet and national/all. It then picks `total` charities one
at a time. Each iteration:

- resolves a priority mode: pet while the pet target is unmet;
- resolves a featured mode: state while state picks remain, national once the
  state target is met exactly or while pet mode is on;
- lists the candidate buckets and takes the first member of the first
  non-empty one;
- deletes that charity from every bucket and counts it.

When no candidate bucket has a member, the engine throws
`Charity result set within search constraints not found.`

The model keeps the source's form:

- The predicates and the two mode resolvers are functions (`Charities`,
  `SearchModes`).
- The bucket structure is a class with four `seq` fields. Each field is an
  insertion-ordered, duplicate-free JS `Set`.
- `createBuckets`, `determineSearchBuckets`, `findCharity` and `searchBuckets`
  are methods with the source's loops and branches.
- Each method is proved against a specification function: `BuildBuckets`,
  `Candidates`, `FirstCandidate` and `Run`.
- The properties of the engine are proved about those functions (`Run` most
  of all) and carried over to `pickCharities` in module `PickCharities`.

The shuffle is an input: `PickCharities` receives the pool and a shuffled copy
of it, and requires only that the copy is a permutation of the pool.

The pet target is not a ceiling: at least min(target.pet, max(target.total, 0)) picks are
pet-related (`PickCharities.PickedPetFloor`), but outside pet mode the engine
draws from the `all` buckets, which also hold pet-related charities, so the
pet count can exceed the pet target (`PickCharities.PetTargetIsNotACeiling`). The state target is a ceiling
(`PickCharities.PickedStateCeiling`).

## Model

| member | source | states |
|---|---|---|
| BucketBuilder.InsertedFacts | source/pick-charities.ts:92-105 | `Set.add` on an insertion-ordered set: the result holds exactly the old members plus the new one and stays duplicate-free. A new member is appended at the end; adding a member already present leaves the bucket unchanged, order included |
| BucketBuilder.RemovedFacts | source/pick-charities.ts:169-173 | `Set.delete` removes exactly the given charity and keeps every other member. On an absent charity it changes nothing. On a duplicate-free bucket it removes one entry and keeps the bucket duplicate-free |
| BucketBuilder.RemovedKeepsOrder | source/pick-charities.ts:169-173 | deleting a member from a duplicate-free bucket leaves the members before it and after it in their insertion order |
| BucketBuilder.CollectMembers | source/pick-charities.ts:85-107 | each bucket built by the loop is duplicate-free and holds exactly the pool's charities that meet its condition |
| BucketBuilder.CollectKeepsOrder | source/pick-charities.ts:85-107 | with distinct records, each bucket equals the independent reference: the qualifying charities in pool order |
| BucketBuilder.BuildBucketsShape | source/pick-charities.ts:73-110 | the built buckets meet their conditions and are sets. State/pet is inside state/all and national/pet is inside national/all. No charity is in both a state and a national bucket. Together the buckets hold exactly the featured charities that are state-matched or national |
| BucketBuilder.CreateBuckets | source/pick-charities.ts:73-110 | the loop (skip unfeatured, add to every bucket whose condition holds) builds a fresh bucket structure equal to `BuildBuckets` of the pool |
| BucketBuilder.CharityBuckets.constructor | source/pick-charities.ts:74-83 | the four buckets start empty |
| BucketBuilder.CharityBuckets.Delete | source/pick-charities.ts:169-173 | deleting a charity from all four buckets leaves the structure equal to `Without` of its old value |
| BucketBuilder.Buckets.WithoutElems | source/pick-charities.ts:169-173 | after a pick is deleted, the buckets hold exactly their old members minus that pick, and deleting an absent charity changes nothing |
| BucketBuilder.Buckets.WithoutKeepsWellFormed | source/pick-charities.ts:169-173 | deletion keeps every bucket within its condition and keeps every bucket duplicate-free |
| BucketBuilder.Buckets.WithoutAllSteps | source/pick-charities.ts:159-186 | deleting the picks one per iteration equals deleting them all from the original buckets |
| Charities.ConditionsDisjoint | source/pick-charities.ts:35-45 | the search conditions: no charity is both state-matched and national, both imply a featured charity, and a charity without a state never matches the profile's state |
| Charities.BumpCounts | source/pick-charities.ts:175-183 | the counter update after a pick keeps the counters equal to the number of state-matched picks, of pet-related picks and of picks |
| SearchModes.PetModeSwitchesOffOnce | source/pick-charities.ts:47-55 | pet mode is on while the pet counter is below the pet target. Once off it stays off. While on, a pick never takes the pet counter past the target, and pet mode stays on unless that pick was pet-related and reached the target |
| SearchModes.DetermineFeaturedSearchMode | source/pick-charities.ts:57-71 | state charities are eligible exactly below the state target. National charities are eligible exactly when the state target is met or pet mode is on. In pet mode below the state target, both are eligible. Both are eligible only in pet mode. No category is eligible exactly when the state target is overshot outside pet mode. Below the state target outside pet mode, only state charities are eligible |
| BucketSearch.CandidatesShape | source/pick-charities.ts:124-148 | one candidate bucket per eligible category, the state bucket first and the national bucket last. Pet mode lists the pet buckets, otherwise the `all` buckets |
| BucketSearch.DetermineSearchBuckets | source/pick-charities.ts:124-148 | the pushes yield exactly `Candidates` of the current buckets and modes |
| BucketSearch.FirstCandidateSpec | source/pick-charities.ts:112-122 | the result is nothing exactly when every candidate bucket is empty. Otherwise it is the first member of a non-empty bucket with only empty buckets before it |
| BucketSearch.FindCharity | source/pick-charities.ts:112-122 | the loop returns `FirstCandidate` of the list, and nothing exactly when all buckets are empty |
| BucketSearch.CandidatesYieldNextPick | source/pick-charities.ts:160-163 | probing the candidate list built for the current modes gives the direct reference pick `NextPick` |
| BucketSearch.PickRespectsModes | source/pick-charities.ts:47-71 | every pick comes from the buckets and is eligible. In pet mode it is pet-related. A state-matched pick happens only below the state target. With the pet target met and the state target unmet, the pick is state-matched |
| BucketSearch.RunPicksDistinct | source/pick-charities.ts:159-187 | a successful run of `n` iterations returns `n` distinct charities, each taken from the buckets and eligible |
| BucketSearch.RunStateCeiling | source/pick-charities.ts:57-71 | the state-matched picks never take the state counter past the state target, and none are made once the counter is already past it |
| BucketSearch.PicksForcedAt | source/pick-charities.ts:175-183 | in a forced-pick sequence, pick `i` is pet-related while the earlier picks hold fewer pets than the target. Once they hold enough, pick `i` is state-matched while the earlier picks hold fewer state matches than the target |
| BucketSearch.PicksForcedAllPet | source/pick-charities.ts:127-136 | while the pet target outlasts the remaining picks, every pick is pet-related |
| BucketSearch.PicksForcedAllState | source/pick-charities.ts:139-146 | with the pet target met and the state target outlasting the remaining picks, every pick is state-matched |
| BucketSearch.RunForcedPicks | source/pick-charities.ts:159-187 | every successful run is a forced-pick sequence, with counters bumped by each pick as the loop does |
| BucketSearch.RunFailsWithMessage | source/pick-charities.ts:165-167 | a failed run always carries the not-found message |
| BucketSearch.RunNeedsSupply | source/pick-charities.ts:165-167 | a run needing more picks than the buckets hold distinct charities fails |
| BucketSearch.RunNeedsPetSupply | source/pick-charities.ts:127-136 | when the pet target outlasts the run, it fails if the buckets hold fewer pet-related charities than picks |
| BucketSearch.SearchBuckets | source/pick-charities.ts:150-188 | the loop returns `Run` of the initial buckets from zero counters for `Iterations(target)` = max(target.total, 0) iterations. On success the buckets end as the initial buckets minus every pick. The counters equal the state, pet and total counts of the picks so far (loop invariant) |
| PickCharities.PickCharities | source/pick-charities.ts:190-194 | building the buckets from the shuffled pool and searching them returns `Picked`. A success has max(target.total, 0) distinct picks, each from the pool, featured, and state-matched or national |
| PickCharities.BuiltFromPool | source/pick-charities.ts:190-194 | whatever the shuffle, the buckets hold exactly the pool's eligible charities |
| PickCharities.PickedDistinctEligible | source/pick-charities.test.ts:116-156 | the result is unique, has max(target.total, 0) elements, and holds only featured charities from the pool that are state-matched or national |
| PickCharities.PickedStateCeiling | source/pick-charities.test.ts:56-83 | the number of state-matched picks never exceeds the state target, or zero when the target is negative |
| PickCharities.PickedForcedAt | source/pick-charities.ts:159-187 | at each position the pick obeys the pet priority and then the state priority, judged from the counts of the earlier picks |
| PickCharities.PickedPetFloor | source/pick-charities.ts:47-55 | a successful result holds at least min(target.pet, max(target.total, 0)) pet-related charities: pet mode stays on, and every pick is pet-related, until the pet target is met or the picks run out (evidence: source/pick-charities.test.ts:157-170) |
| PickCharities.PickedAllPet | source/pick-charities.ts:127-136 | when the pet target covers every iteration, every pick is pet-related |
| PickCharities.PickedAllState | source/pick-charities.test.ts:101-115 | with no pet target and a state target covering every iteration, every pick matches the profile's state |
| PickCharities.PickedNeedsSupply | source/pick-charities.test.ts:214-226 | with fewer eligible charities in the pool than iterations, the engine throws the not-found error |
| PickCharities.PickedNeedsPetSupply | source/pick-charities.test.ts:201-213 | when the pet target covers every iteration and the pool has fewer eligible pet-related charities than iterations, the engine throws the not-found error |
| PickCharities.PetTargetIsNotACeiling | source/pick-charities.ts:139-146 | with no pet target and a state target of zero, a pool holding one national pet-related charity yields that charity, so the pet count exceeds the pet target |
| PickCharities.StateTargetExcludesNational | source/pick-charities.ts:57-71 | with a positive state target and no pet target, a pool holding only a national charity makes the engine throw, although that charity is eligible |

## Left out

- The shuffle (`fastShuffle` seeded from `Math.random`) is a foreign, random library call. The shuffled pool is an input that only has to be a permutation of the pool. The "contains random results" test is outside the model for the same reason.
- `source/determine-target-counts.ts` draws the targets with floating-point randomness and is not part of this model. Targets are arbitrary integer inputs.
- The CSV extractors, the runtime type guards and `source/index.ts` (argv, configuration, console output) are I/O and are not part of this model.
- JS numbers are modelled as unbounded integers. Non-integral or non-finite counts are not modelled.
- Charity identity: `Set.add`/`Set.delete` compare objects by reference. The model compares records by value. Two distinct objects with equal fields would be one charity here. With unique ids this makes no difference.
- DetermineSearchBuckets: returns the contents of the candidate buckets rather than references to them. Nothing changes the buckets between building the list and reading it, so the pick is the same.
- SearchBuckets: does not state the bucket contents after a throw. The source discards the buckets once the error propagates.
- Fixture-specific test outcomes, such as the exact national count of the fall-back test, depend on the JSON fixtures and the seeded shuffle and are not restated. The general properties behind them (forced picks, ceilings, exhaustion) are proved.
- The pet target is not a ceiling, and only min(target.pet, max(target.total, 0)) pet picks are guaranteed (`PickCharities.PickedPetFloor`). No lemma states `pet count <= target.pet`, because the code does not guarantee it (see `PickCharities.PetTargetIsNotACeiling`).
