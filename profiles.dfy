/** Student profiles (backend/models/StudentProfile.js): preferences, the
    preferred-hostels validator, the enums, and the assignment pointer. */
module Profiles {
  import opened Common
  import opened Rooms

  /** The hostels that are referred to by name rather than by number. */
  const NamedHostels: seq<string> := ["aminity", "largedinning-2"]

  /** An entry of a hostel list: a JavaScript number or a string. */
  datatype HostelRef = HostelNo(number: int) | HostelNamed(name: string)

  /** A hostel reference is a number from 1 to 8 or one of the named hostels. */
  predicate HostelRefValid(h: HostelRef) {
    match h
    case HostelNo(n) => 1 <= n <= 8
    case HostelNamed(s) => s in NamedHostels
  }

  /** The `preferredHostels` validator. `None` stands for an absent value or
      one that is not an array, which the validator lets through. */
  function PreferredHostelsValid(hostels: Option<seq<HostelRef>>): (ok: bool)
    ensures hostels.None? ==> ok
    ensures hostels == Some([]) ==> ok
    ensures hostels.Some? ==> (ok <==> forall i :: 0 <= i < |hostels.value| ==> HostelRefValid(hostels.value[i]))
  {
    match hostels
    case None => true
    case Some(list) => AllValid(list)
  }

  /** `arr.every(...)`, by recursion over the list. */
  function AllValid(list: seq<HostelRef>): (ok: bool)
    ensures ok <==> forall i :: 0 <= i < |list| ==> HostelRefValid(list[i])
  {
    if list == [] then true
    else
      assert forall i :: 0 < i < |list| ==> list[i] == list[1..][i - 1];
      HostelRefValid(list[0]) && AllValid(list[1..])
  }

  predicate FoodPreferenceValid(f: string) {
    f == "vegetarian" || f == "non_vegetarian" || f == "jain"
  }

  datatype ProfileStatus = Pending | Assigned | SwapPending

  /** The status every new profile starts with. */
  const DefaultStatus: ProfileStatus := Pending

  /** A stored profile. Preference fields are optional because the
      preferences upsert does not run the schema validators. */
  datatype Profile = Profile(
    user: UserId,
    foodPreference: Option<string>,
    preferredSeater: Option<int>,
    preferredAC: Option<bool>,
    preferredHostels: Option<seq<HostelRef>>,
    preferredBlock: Option<string>,
    amenities: Amenities,
    assignedRoom: Option<RoomId>,
    status: ProfileStatus)

  /** What `save()` checks: required fields present and every enum and
      validator satisfied. */
  predicate ProfileSchemaValid(p: Profile) {
    p.foodPreference.Some? && FoodPreferenceValid(p.foodPreference.value)
    && p.preferredSeater.Some? && IsSeaterValue(p.preferredSeater.value)
    && p.preferredAC.Some?
    && PreferredHostelsValid(p.preferredHostels)
    && (p.preferredBlock.Some? ==> BlockTypeValid(p.preferredBlock.value))
  }

  /** A profile inserted with only the fields a caller supplies: no room,
      status `pending`, both amenity flags off unless given. */
  function NewProfile(user: UserId, foodPreference: Option<string>, preferredSeater: Option<int>,
                      preferredAC: Option<bool>, preferredHostels: Option<seq<HostelRef>>,
                      preferredBlock: Option<string>, amenities: Option<Amenities>): (p: Profile)
    ensures p.user == user && p.assignedRoom.None? && p.status == Pending
    ensures p.amenities == amenities.GetOr(NoAmenities)
    ensures p.foodPreference == foodPreference && p.preferredSeater == preferredSeater
    ensures p.preferredAC == preferredAC && p.preferredHostels == preferredHostels
    ensures p.preferredBlock == preferredBlock
  {
    Profile(user, foodPreference, preferredSeater, preferredAC, preferredHostels, preferredBlock,
            amenities.GetOr(NoAmenities), None, DefaultStatus)
  }
}
