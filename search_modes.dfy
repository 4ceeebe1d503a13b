/** The two per-iteration mode resolvers. The source assembles bit masks;
    here the priority mode is one flag and the featured mode two. */
module SearchModes {
  import opened Charities

  /** Which featured categories are eligible in this iteration. */
  datatype FeaturedMode = FeaturedMode(state: bool, national: bool)

  /** Priority (pet) mode: the pet target is not yet reached. */
  function DeterminePrioritySearchMode(current: CharityCounts, target: CharityCounts): (pet: bool) {
    current.pet < target.pet
  }

  /** Pet mode switches off for good: once the pet target is met, no later pick turns it
      back on, and while it is on a pick raises the pet counter by at most one. */
  lemma PetModeSwitchesOffOnce(current: CharityCounts, target: CharityCounts, c: Charity, profile: Profile)
    ensures !DeterminePrioritySearchMode(current, target) ==> !DeterminePrioritySearchMode(Bump(current, c, profile), target)
    ensures DeterminePrioritySearchMode(current, target) ==>
      Bump(current, c, profile).pet <= target.pet &&
      (DeterminePrioritySearchMode(Bump(current, c, profile), target) <==> !IsPetRelated(c) || current.pet + 1 < target.pet)
  {
  }

  /** State charities stay eligible below the state target; national ones once it is
      met exactly, or whenever pet mode needs them. */
  function DetermineFeaturedSearchMode(current: CharityCounts, target: CharityCounts, pet: bool): (mode: FeaturedMode)
    ensures mode.state <==> current.state < target.state
    ensures mode.national <==> current.state == target.state || pet
    ensures pet && current.state < target.state ==> mode == FeaturedMode(true, true)
    ensures mode.state && mode.national ==> pet
    ensures current.state == target.state ==> !mode.state && mode.national
    ensures !mode.state && !mode.national <==> current.state > target.state && !pet
    ensures current.state < target.state && !pet ==> mode == FeaturedMode(true, false)
  {
    var remaining := target.state - current.state;
    FeaturedMode(remaining > 0, remaining == 0 || pet)
  }
}
