/** The first-fit matcher (`findMatchingRoom`,
    backend/controllers/hostelController.js): build a room query from a
    profile's preferences, then take the first room in storage order whose
    occupancy is below its capacity. */
module Matcher {
  import opened Common
  import opened Rooms
  import opened Profiles

  /** The hostel restriction of the query: none, `hostelNumber $in`,
      `hostelName $in`, or the `$or` of both. */
  datatype HostelFilter =
    | AnyHostel
    | NumberIn(nums: seq<int>)
    | NameIn(names: seq<string>)
    | NumberOrName(nums: seq<int>, names: seq<string>)

  /** The query document. An absent seater or AC matches only rooms where
      that field is absent too (a query on `null`). */
  datatype RoomQuery = RoomQuery(
    seater: Option<int>,
    ac: Option<bool>,
    blockType: Option<string>,
    needLargeDining: bool,
    needExtraFacilities: bool,
    hostels: HostelFilter)

  /** The numeric entries of a hostel list, in order. */
  function Numbers(list: seq<HostelRef>): (nums: seq<int>)
    ensures forall n :: n in nums <==> HostelNo(n) in list
    ensures |nums| <= |list|
  {
    if list == [] then []
    else (if list[0].HostelNo? then [list[0].number] else []) + Numbers(list[1..])
  }

  /** The string entries of a hostel list, in order. */
  function Names(list: seq<HostelRef>): (names: seq<string>)
    ensures forall s :: s in names <==> HostelNamed(s) in list
    ensures |names| <= |list|
  {
    if list == [] then []
    else (if list[0].HostelNamed? then [list[0].name] else []) + Names(list[1..])
  }

  /** A non-empty hostel list has a numeric or a string entry. */
  lemma NonEmptyListHasEntry(list: seq<HostelRef>)
    requires list != []
    ensures Numbers(list) != [] || Names(list) != []
  {
    match list[0]
    case HostelNo(n) => assert n in Numbers(list);
    case HostelNamed(s) => assert s in Names(list);
  }

  function HostelFilterOf(hostels: Option<seq<HostelRef>>): (f: HostelFilter)
    ensures hostels.None? || hostels == Some([]) ==> f == AnyHostel
  {
    if hostels.Some? && |hostels.value| > 0 then
      var nums := Numbers(hostels.value);
      var names := Names(hostels.value);
      if |nums| > 0 && |names| > 0 then NumberOrName(nums, names)
      else if |nums| > 0 then NumberIn(nums)
      else if |names| > 0 then NameIn(names)
      else AnyHostel
    else AnyHostel
  }

  /** The query `findMatchingRoom` sends: seater and AC always, block type
      only when the profile's is truthy, each amenity only when requested,
      and the hostel restriction by the kinds of entries in the list. */
  function BuildQuery(p: Profile): (q: RoomQuery)
    ensures q.seater == p.preferredSeater && q.ac == p.preferredAC
    ensures q.blockType.Some? <==> Truthy(p.preferredBlock)
    ensures q.blockType.Some? ==> q.blockType == p.preferredBlock
    ensures q.needLargeDining == p.amenities.largeDining
    ensures q.needExtraFacilities == p.amenities.extraFacilities
    ensures q.hostels == HostelFilterOf(p.preferredHostels)
  {
    RoomQuery(
      p.preferredSeater,
      p.preferredAC,
      if Truthy(p.preferredBlock) then p.preferredBlock else None,
      p.amenities.largeDining,
      p.amenities.extraFacilities,
      HostelFilterOf(p.preferredHostels))
  }

  predicate InHostels(r: Room, f: HostelFilter) {
    match f
    case AnyHostel => true
    case NumberIn(nums) => r.hostelNumber.Some? && r.hostelNumber.value in nums
    case NameIn(names) => r.hostelName.Some? && r.hostelName.value in names
    case NumberOrName(nums, names) =>
      (r.hostelNumber.Some? && r.hostelNumber.value in nums) || (r.hostelName.Some? && r.hostelName.value in names)
  }

  /** A room matches the query document. */
  predicate Satisfies(r: Room, q: RoomQuery) {
    r.seater == q.seater && r.ac == q.ac
    && (q.blockType.Some? ==> r.blockType == q.blockType.value)
    && (q.needLargeDining ==> r.amenities.largeDining)
    && (q.needExtraFacilities ==> r.amenities.extraFacilities)
    && InHostels(r, q.hostels)
  }

  /** A list entry names the room: by number or by name. */
  predicate NamesRoom(h: HostelRef, r: Room) {
    match h
    case HostelNo(n) => r.hostelNumber == Some(n)
    case HostelNamed(s) => r.hostelName == Some(s)
  }

  /** The reference meaning of a match, stated on the profile: the same bed
      type, the preferred block when one is set, every requested amenity,
      and, for a non-empty hostel list, a room that some entry names. */
  predicate Eligible(r: Room, p: Profile) {
    r.seater == p.preferredSeater && r.ac == p.preferredAC
    && (Truthy(p.preferredBlock) ==> Some(r.blockType) == p.preferredBlock)
    && (p.amenities.largeDining ==> r.amenities.largeDining)
    && (p.amenities.extraFacilities ==> r.amenities.extraFacilities)
    && (p.preferredHostels.Some? && p.preferredHostels.value != [] ==>
          exists i :: 0 <= i < |p.preferredHostels.value| && NamesRoom(p.preferredHostels.value[i], r))
  }

  lemma HostelFilterMeaning(r: Room, list: seq<HostelRef>)
    requires list != []
    ensures InHostels(r, HostelFilterOf(Some(list))) <==> exists i :: 0 <= i < |list| && NamesRoom(list[i], r)
  {
    NonEmptyListHasEntry(list);
    if exists i :: 0 <= i < |list| && NamesRoom(list[i], r) {
      var i :| 0 <= i < |list| && NamesRoom(list[i], r);
      match list[i]
      case HostelNo(n) => assert n in Numbers(list);
      case HostelNamed(s) => assert s in Names(list);
    }
    if InHostels(r, HostelFilterOf(Some(list))) {
      if r.hostelNumber.Some? && r.hostelNumber.value in Numbers(list) {
        var i :| 0 <= i < |list| && list[i] == HostelNo(r.hostelNumber.value);
        assert NamesRoom(list[i], r);
      } else {
        var i :| 0 <= i < |list| && list[i] == HostelNamed(r.hostelName.value);
        assert NamesRoom(list[i], r);
      }
    }
  }

  /** The query means exactly what `Eligible` says, in both directions. */
  lemma QueryMeansEligible(r: Room, p: Profile)
    ensures Satisfies(r, BuildQuery(p)) <==> Eligible(r, p)
  {
    if p.preferredHostels.Some? && p.preferredHostels.value != [] {
      HostelFilterMeaning(r, p.preferredHostels.value);
    }
  }

  /** `Room.find(query)`: the stored rooms that satisfy the query, in
      storage order. */
  function Candidates(rooms: map<RoomId, Room>, order: seq<RoomId>, q: RoomQuery): (c: seq<RoomId>)
    ensures forall id :: id in c <==> id in order && id in rooms && Satisfies(rooms[id], q)
    ensures |c| <= |order|
  {
    if order == [] then []
    else
      var rest := Candidates(rooms, order[1..], q);
      if order[0] in rooms && Satisfies(rooms[order[0]], q) then [order[0]] + rest else rest
  }

  /** The scan: the first listed room with space, or none. */
  function FirstWithSpace(rooms: map<RoomId, Room>, c: seq<RoomId>): (r: Option<RoomId>)
    requires forall id :: id in c ==> id in rooms
    ensures r.Some? ==> r.value in c && HasSpace(rooms[r.value])
    ensures r.None? <==> forall id :: id in c ==> !HasSpace(rooms[id])
  {
    if c == [] then None
    else if HasSpace(rooms[c[0]]) then Some(c[0])
    else FirstWithSpace(rooms, c[1..])
  }

  /** `findMatchingRoom`: the first room in storage order that matches the
      profile and has space. A room it returns is eligible and has space, so
      adding the student keeps it within capacity; none is returned only
      when every eligible room is full. */
  function FirstFit(rooms: map<RoomId, Room>, order: seq<RoomId>, p: Profile): (r: Option<RoomId>)
    ensures r.Some? ==> r.value in order && r.value in rooms && Eligible(rooms[r.value], p) && HasSpace(rooms[r.value])
    ensures r.None? <==> forall id :: id in order && id in rooms && Eligible(rooms[id], p) ==> !HasSpace(rooms[id])
  {
    var q := BuildQuery(p);
    var c := Candidates(rooms, order, q);
    var r := FirstWithSpace(rooms, c);
    assert forall id :: id in rooms ==> (Satisfies(rooms[id], q) <==> Eligible(rooms[id], p)) by {
      forall id | id in rooms ensures Satisfies(rooms[id], q) <==> Eligible(rooms[id], p) {
        QueryMeansEligible(rooms[id], p);
      }
    }
    r
  }

  /** A room fits: it is stored, matches the query, and has space. */
  predicate Fits(rooms: map<RoomId, Room>, id: RoomId, q: RoomQuery) {
    id in rooms && Satisfies(rooms[id], q) && HasSpace(rooms[id])
  }

  lemma {:induction false} FirstFitIsFirstIn(rooms: map<RoomId, Room>, order: seq<RoomId>, q: RoomQuery, k: nat)
    requires k < |order| && Fits(rooms, order[k], q)
    requires forall j :: 0 <= j < k ==> !Fits(rooms, order[j], q)
    ensures FirstWithSpace(rooms, Candidates(rooms, order, q)) == Some(order[k])
  {
    var rest := Candidates(rooms, order[1..], q);
    if k == 0 {
      assert Candidates(rooms, order, q) == [order[0]] + rest;
    } else {
      assert !Fits(rooms, order[0], q);
      FirstFitIsFirstIn(rooms, order[1..], q, k - 1);
      if order[0] in rooms && Satisfies(rooms[order[0]], q) {
        assert Candidates(rooms, order, q) == [order[0]] + rest;
        assert ([order[0]] + rest)[1..] == rest;
      }
    }
  }

  /** First fit in storage order: the result is the earliest eligible room
      with space, whatever comes after it. */
  lemma FirstFitIsFirst(rooms: map<RoomId, Room>, order: seq<RoomId>, p: Profile, k: nat)
    requires k < |order| && order[k] in rooms && Eligible(rooms[order[k]], p) && HasSpace(rooms[order[k]])
    requires forall j :: 0 <= j < k && order[j] in rooms && Eligible(rooms[order[j]], p) ==> !HasSpace(rooms[order[j]])
    ensures FirstFit(rooms, order, p) == Some(order[k])
  {
    var q := BuildQuery(p);
    forall j | 0 <= j <= k && order[j] in rooms ensures Satisfies(rooms[order[j]], q) <==> Eligible(rooms[order[j]], p) {
      QueryMeansEligible(rooms[order[j]], p);
    }
    FirstFitIsFirstIn(rooms, order, q, k);
  }

  /** The matcher as the controller runs it: fetch the candidates, then scan
      them with a loop and return the first one with space. */
  method FindMatchingRoom(rooms: map<RoomId, Room>, order: seq<RoomId>, p: Profile) returns (found: Option<RoomId>)
    ensures found == FirstFit(rooms, order, p)
    ensures found.Some? ==> found.value in rooms && Eligible(rooms[found.value], p) && HasSpace(rooms[found.value])
  {
    var candidates := Candidates(rooms, order, BuildQuery(p));
    var i := 0;
    while i < |candidates|
      invariant 0 <= i <= |candidates|
      invariant FirstWithSpace(rooms, candidates[i..]) == FirstWithSpace(rooms, candidates)
    {
      var room := rooms[candidates[i]];
      if room.capacity.Some? && |room.occupants| < room.capacity.value {
        return Some(candidates[i]);
      }
      assert candidates[i..][1..] == candidates[i + 1..];
      i := i + 1;
    }
    return None;
  }
}
