/** Rooms (backend/models/Room.js): the block-type rule, the field enums,
    the pre-validate defaults hook, and the free-space test the allocator
    uses. */
module Rooms {
  import opened Common

  /** Block types are stored as the strings the schema enumerates. The
      upsert path writes them without running validators, so a stored room
      may hold any text here; `BlockTypeValid` is the enum. */
  const Normal: string := "normal"
  const Premium: string := "premium"

  predicate BlockTypeValid(b: string) {
    b == Normal || b == Premium
  }

  /** The seater enum shared by rooms, profiles, applications and swaps. */
  predicate IsSeaterValue(n: int) {
    n == 1 || n == 2 || n == 3 || n == 4 || n == 6 || n == 8
  }

  datatype Amenities = Amenities(largeDining: bool, extraFacilities: bool)

  /** Both amenity flags default to false. */
  const NoAmenities: Amenities := Amenities(false, false)

  /** A stored room. Fields the upsert may leave unset are optional. */
  datatype Room = Room(
    hostelNumber: Option<int>,
    hostelName: Option<string>,
    blockType: string,
    seater: Option<int>,
    ac: Option<bool>,
    amenities: Amenities,
    occupants: seq<UserId>,
    capacity: Option<int>,
    roomLabel: Option<string>)

  /** Hostels 2, 3, 4, 5, 7 and 8 are premium blocks; every other number is
      normal. */
  function DeriveBlockType(hostelNumber: int): (b: string)
    ensures BlockTypeValid(b)
    ensures 1 <= hostelNumber <= 8 ==> (b == Normal <==> hostelNumber == 1 || hostelNumber == 6)
    ensures !(1 <= hostelNumber <= 8) ==> b == Normal
  {
    var premium := [2, 3, 4, 5, 7, 8];
    if hostelNumber in premium then Premium else Normal
  }

  /** The schema's required fields and enums. */
  predicate RoomSchemaValid(r: Room) {
    BlockTypeValid(r.blockType)
    && r.seater.Some? && IsSeaterValue(r.seater.value)
    && r.ac.Some?
    && r.capacity.Some?
  }

  /** The matcher's test `occupied < capacity`; a missing capacity compares
      false. */
  predicate HasSpace(r: Room) {
    r.capacity.Some? && |r.occupants| < r.capacity.value
  }

  /** The capacity invariant: an occupied room never holds more students
      than its capacity. */
  predicate WithinCapacity(r: Room) {
    r.occupants == [] || (r.capacity.Some? && |r.occupants| <= r.capacity.value)
  }

  /** Adding one new student to a room with space keeps it within capacity. */
  lemma AdmitKeepsCapacity(r: Room, u: UserId)
    requires HasSpace(r)
    ensures WithinCapacity(r.(occupants := AddToSet(r.occupants, u)))
  {
  }

  /** The fields the pre-validate hook reads and writes. */
  datatype RoomDraft = RoomDraft(
    hostelNumber: Option<int>,
    blockType: Option<string>,
    seater: Option<int>,
    capacity: Option<int>)

  /** The pre-validate hook: a present hostel number fills a missing (or
      empty) block type, and a truthy seater fills a falsy capacity. */
  function PreValidateDraft(d: RoomDraft): (r: RoomDraft)
    ensures r.hostelNumber == d.hostelNumber && r.seater == d.seater
    ensures Truthy(d.blockType) ==> r.blockType == d.blockType
    ensures (d.hostelNumber.Some? && !Truthy(d.blockType)) ==>
              r.blockType == Some(DeriveBlockType(d.hostelNumber.value))
    ensures d.hostelNumber.None? ==> r.blockType == d.blockType
    ensures NumberTruthy(d.capacity) ==> r.capacity == d.capacity
    ensures !NumberTruthy(d.capacity) && NumberTruthy(d.seater) ==> r.capacity == d.seater
    ensures !NumberTruthy(d.seater) ==> r.capacity == d.capacity
  {
    var blockType :=
      if d.hostelNumber.Some? && !Truthy(d.blockType) then Some(DeriveBlockType(d.hostelNumber.value))
      else d.blockType;
    var capacity := if !NumberTruthy(d.capacity) && NumberTruthy(d.seater) then d.seater else d.capacity;
    d.(blockType := blockType, capacity := capacity)
  }

  /** Running the hook a second time changes nothing. */
  lemma PreValidateIdempotent(d: RoomDraft)
    ensures PreValidateDraft(PreValidateDraft(d)) == PreValidateDraft(d)
  {
  }

  /** After the hook, a room with a hostel number has a valid block type
      unless one was given explicitly, and a room with a truthy seater has a
      truthy capacity. */
  lemma PreValidateFillsDefaults(d: RoomDraft)
    ensures var r := PreValidateDraft(d);
      (d.hostelNumber.Some? && !Truthy(d.blockType) ==> r.blockType.Some? && BlockTypeValid(r.blockType.value))
      && (NumberTruthy(d.seater) ==> NumberTruthy(r.capacity))
  {
  }

  /** A room document being validated: the hook updates its fields in place. */
  class RoomDocument {
    var hostelNumber: Option<int>
    var blockType: Option<string>
    var seater: Option<int>
    var capacity: Option<int>

    function Draft(): RoomDraft
      reads this
    {
      RoomDraft(hostelNumber, blockType, seater, capacity)
    }

    constructor (hostelNumber: Option<int>, blockType: Option<string>, seater: Option<int>, capacity: Option<int>)
      ensures Draft() == RoomDraft(hostelNumber, blockType, seater, capacity)
    {
      this.hostelNumber := hostelNumber;
      this.blockType := blockType;
      this.seater := seater;
      this.capacity := capacity;
    }

    method PreValidate()
      modifies this
      ensures Draft() == PreValidateDraft(old(Draft()))
    {
      if hostelNumber.Some? && !Truthy(blockType) {
        blockType := Some(DeriveBlockType(hostelNumber.value));
      }
      if !NumberTruthy(capacity) && NumberTruthy(seater) {
        capacity := seater;
      }
    }
  }
}
