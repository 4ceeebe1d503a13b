/** The records the selection engine works on, the three search conditions
    it classifies them by, and the tallies it keeps of what it picked. */
module Charities {

  datatype Option<T> = None | Some(value: T)

  /** The engine either returns its picks or throws; a throw carries only its message. */
  datatype Result<T> = Success(value: T) | Failure(message: string)

  const PetCategory: string := "ANIMAL_RELATED"
  const StateFeature: string := "STATE"
  const NationalFeature: string := "NATIONAL"

  /** `state` and `featured` are optional in the source (undefined when absent). */
  datatype Charity = Charity(
    id: int,
    name: string,
    state: Option<string>,
    category: string,
    featured: Option<string>)

  datatype Profile = Profile(
    id: int,
    name: string,
    state: string,
    isMarried: bool,
    hasChildren: bool,
    hasPets: bool,
    age: int)

  /** Used both as the target quotas and as the running tally of picks. */
  datatype CharityCounts = CharityCounts(state: int, pet: int, total: int)

  const NoCounts: CharityCounts := CharityCounts(0, 0, 0)

  predicate IsFeatured(c: Charity) {
    c.featured.Some?
  }

  /** The `pet` search condition. */
  predicate IsPetRelated(c: Charity) {
    c.category == PetCategory
  }

  /** The `state` search condition: an undefined charity state never equals the profile's. */
  predicate IsStateMatch(c: Charity, profile: Profile) {
    c.featured == Some(StateFeature) && c.state == Some(profile.state)
  }

  /** The `national` search condition. */
  predicate IsNational(c: Charity) {
    c.featured == Some(NationalFeature)
  }

  /** What the engine may return: featured, and either state-matched or national. */
  predicate IsEligible(c: Charity, profile: Profile) {
    IsFeatured(c) && (IsStateMatch(c, profile) || IsNational(c))
  }

  /** No charity is both state-matched and national, both imply featured, and a charity
      without a state never matches the profile's state. */
  lemma ConditionsDisjoint(c: Charity, profile: Profile)
    ensures !(IsStateMatch(c, profile) && IsNational(c))
    ensures IsStateMatch(c, profile) || IsNational(c) ==> IsFeatured(c)
    ensures c.state.None? ==> !IsStateMatch(c, profile)
  {
    assert |StateFeature| != |NationalFeature|;
  }

  /** The counter update after a pick: pet and state are re-evaluated, total always grows. */
  function Bump(counts: CharityCounts, c: Charity, profile: Profile): CharityCounts {
    var pet := if IsPetRelated(c) then counts.pet + 1 else counts.pet;
    var state := if IsStateMatch(c, profile) then counts.state + 1 else counts.state;
    CharityCounts(state, pet, counts.total + 1)
  }

  function PetCount(s: seq<Charity>): (n: nat)
    ensures n <= |s|
  {
    if s == [] then 0 else (if IsPetRelated(s[0]) then 1 else 0) + PetCount(s[1..])
  }

  function StateCount(s: seq<Charity>, profile: Profile): (n: nat)
    ensures n <= |s|
  {
    if s == [] then 0 else (if IsStateMatch(s[0], profile) then 1 else 0) + StateCount(s[1..], profile)
  }

  /** Counters that equal the counts of the picks so far still equal them after one more
      pick is counted. */
  lemma BumpCounts(s: seq<Charity>, c: Charity, profile: Profile)
    ensures Bump(CharityCounts(StateCount(s, profile), PetCount(s), |s|), c, profile) ==
            CharityCounts(StateCount(s + [c], profile), PetCount(s + [c]), |s + [c]|)
  {
    CountsSnoc(s, c, profile);
  }

  /** Adding a pick at the end adds its own contribution to each count. */
  lemma {:induction false} CountsSnoc(s: seq<Charity>, c: Charity, profile: Profile)
    ensures PetCount(s + [c]) == PetCount(s) + (if IsPetRelated(c) then 1 else 0)
    ensures StateCount(s + [c], profile) == StateCount(s, profile) + (if IsStateMatch(c, profile) then 1 else 0)
  {
    if s != [] {
      assert (s + [c])[1..] == s[1..] + [c];
      CountsSnoc(s[1..], c, profile);
    } else {
      assert (s + [c])[1..] == [];
    }
  }

  /** A sequence without repeated charities (the source compares them by identity). */
  predicate NoDup(s: seq<Charity>) {
    forall i, j :: 0 <= i < j < |s| ==> s[i] != s[j]
  }

  lemma NoDupCons(x: Charity, s: seq<Charity>)
    requires x !in s && NoDup(s)
    ensures NoDup([x] + s)
  {
    forall i, j | 0 <= i < j < |[x] + s| ensures ([x] + s)[i] != ([x] + s)[j] {
      assert ([x] + s)[j] == s[j - 1];
      if i > 0 {
        assert ([x] + s)[i] == s[i - 1];
      }
    }
  }

  function SetOf(s: seq<Charity>): set<Charity> {
    set x | x in s
  }

  /** A duplicate-free sequence has as many distinct elements as positions. */
  lemma {:induction false} NoDupCardinality(s: seq<Charity>)
    requires NoDup(s)
    ensures |SetOf(s)| == |s|
  {
    if s != [] {
      assert NoDup(s[1..]) by {
        forall i, j | 0 <= i < j < |s[1..]| ensures s[1..][i] != s[1..][j] {
          assert s[1..][i] == s[i + 1] && s[1..][j] == s[j + 1];
        }
      }
      NoDupCardinality(s[1..]);
      assert s[0] !in SetOf(s[1..]) by {
        forall k | 0 <= k < |s[1..]| ensures s[1..][k] != s[0] {
          assert s[1..][k] == s[k + 1];
        }
      }
      assert SetOf(s) == SetOf(s[1..]) + {s[0]} by {
        forall x ensures x in SetOf(s) <==> x in SetOf(s[1..]) + {s[0]} {
          if x in s && x != s[0] {
            var k :| 0 <= k < |s| && s[k] == x;
            assert s[1..][k - 1] == x;
          }
        }
      }
    }
  }

  lemma {:induction false} SubsetCardinality(a: set<Charity>, b: set<Charity>)
    requires a <= b
    ensures |a| <= |b|
  {
    if a != {} {
      var x :| x in a;
      SubsetCardinality(a - {x}, b - {x});
    }
  }
}
