/** The allocation controller (backend/controllers/hostelController.js) as
    an object over the four collections: each handler updates the rooms,
    profiles, swap requests and applications step by step, in the
    controller's order, and is proved to leave exactly the state and answer
    of the matching transition in `Allocation`. The class invariant is the
    store's `Valid`. */
module HostelService {
  import opened Common
  import opened Rooms
  import opened Profiles
  import opened ChangeApplications
  import opened SwapRequests
  import opened Matcher
  import opened AllocationState
  import opened Allocation
  import opened AllocationProofs

  /** The line `results` holds after the batch has handled some profiles,
      followed by what the rest of the batch gives. */
  function PrependAll(done: seq<Assignment>, o: Outcome<seq<Assignment>>): (r: Outcome<seq<Assignment>>)
    ensures r.db == o.db && r.result.Ok? == o.result.Ok?
    ensures r.result.Ok? ==> r.result.value == done + o.result.value
    ensures r.result.Err? ==> r.result == o.result
  {
    if o.result.Ok? then Outcome(o.db, Ok(done + o.result.value)) else o
  }

  lemma PrependNothing(o: Outcome<seq<Assignment>>)
    ensures PrependAll([], o) == o
  {
    if o.result.Ok? {
      assert [] + o.result.value == o.result.value;
    }
  }

  /** A profile no room fits: the batch reports it unassigned and goes on
      with the same store. */
  lemma BatchSkipsAt(db: Db, ps: seq<Profile>, done: seq<Assignment>)
    requires ps != [] && FirstFit(db.rooms, db.roomOrder, ps[0]).None?
    ensures PrependAll(done, BatchFrom(db, ps))
         == PrependAll(done + [Assignment(ps[0].user, None)], BatchFrom(db, ps[1..]))
  {
    var o := BatchFrom(db, ps[1..]);
    assert BatchFrom(db, ps) == Prepend(Assignment(ps[0].user, None), o);
    PrependAllShift(done, Assignment(ps[0].user, None), o);
  }

  /** A profile placed in room `m`: the batch reports the room and goes on
      with the store after the placement. */
  lemma BatchPlacesAt(db: Db, ps: seq<Profile>, done: seq<Assignment>, m: RoomId)
    requires ps != [] && FirstFit(db.rooms, db.roomOrder, ps[0]) == Some(m)
    requires Place(db, ps[0].user, ps[0], m).result.Ok?
    ensures PrependAll(done, BatchFrom(db, ps))
         == PrependAll(done + [Assignment(ps[0].user, Some(m))], BatchFrom(Place(db, ps[0].user, ps[0], m).db, ps[1..]))
  {
    var placed := Place(db, ps[0].user, ps[0], m);
    var o := BatchFrom(placed.db, ps[1..]);
    assert BatchFrom(db, ps) == Prepend(Assignment(ps[0].user, Some(m)), o);
    PrependAllShift(done, Assignment(ps[0].user, Some(m)), o);
  }

  /** A line prepended to a report can as well be appended to the lines
      reported before it. */
  lemma PrependAllShift(done: seq<Assignment>, a: Assignment, o: Outcome<seq<Assignment>>)
    ensures PrependAll(done, Prepend(a, o)) == PrependAll(done + [a], o)
  {
    if o.result.Ok? {
      assert done + ([a] + o.result.value) == (done + [a]) + o.result.value;
    }
  }

  /** A placement whose save fails ends the batch with the store as the
      failed placement left it. */
  lemma BatchStopsAt(db: Db, ps: seq<Profile>, done: seq<Assignment>, m: RoomId)
    requires ps != [] && FirstFit(db.rooms, db.roomOrder, ps[0]) == Some(m)
    requires Place(db, ps[0].user, ps[0], m).result.Err?
    ensures PrependAll(done, BatchFrom(db, ps)) == Outcome(Place(db, ps[0].user, ps[0], m).db, Err(ValidationError))
  {
  }

  class Hostel {
    var rooms: map<RoomId, Room>
    var roomOrder: seq<RoomId>
    var profiles: map<UserId, Profile>
    var profileOrder: seq<UserId>
    var swaps: map<DocId, SwapRequest>
    var applications: map<DocId, ChangeApplication>
    var nextId: nat

    /** The collections as one value. */
    function State(): Db
      reads this
    {
      Db(rooms, roomOrder, profiles, profileOrder, swaps, applications, nextId)
    }

    predicate Valid()
      reads this
    {
      AllocationState.Valid(State())
    }

    /** An empty hostel. */
    constructor()
      ensures State() == Empty && Valid()
    {
      rooms := map[];
      roomOrder := [];
      profiles := map[];
      profileOrder := [];
      swaps := map[];
      applications := map[];
      nextId := 0;
      EmptyValid();
    }

    /* ---------------- single-document writes ---------------- */

    /** `Room.updateOne({_id: id}, {$addToSet: {occupants: u}})`. */
    method AddToRoom(id: RoomId, u: UserId)
      modifies this
      ensures State() == AddOccupant(old(State()), id, u)
    {
      if id in rooms {
        rooms := rooms[id := rooms[id].(occupants := AddToSet(rooms[id].occupants, u))];
      }
    }

    /** `Room.updateOne({_id: id}, {$pull: {occupants: u}})`. */
    method PullFromRoom(id: RoomId, u: UserId)
      modifies this
      ensures State() == PullOccupant(old(State()), id, u)
    {
      if id in rooms {
        rooms := rooms[id := rooms[id].(occupants := RemoveAll(rooms[id].occupants, u))];
      }
    }

    /** `profile.save()`: validate, then write. */
    method SaveProfileDoc(u: UserId, p: Profile) returns (r: Result<(), Failure>)
      modifies this
      ensures Outcome(State(), r) == SaveProfile(old(State()), u, p)
    {
      if !ProfileSchemaValid(p) {
        return Err(ValidationError);
      }
      profiles := profiles[u := p];
      return Ok(());
    }

    /** Add the student to the room, then point the profile at it. */
    method PlaceStudent(u: UserId, p: Profile, id: RoomId) returns (r: Result<RoomId, Failure>)
      modifies this
      ensures Outcome(State(), r) == Place(old(State()), u, p, id)
    {
      AddToRoom(id, u);
      var saved := SaveProfileDoc(u, p.(assignedRoom := Some(id), status := Assigned));
      r := if saved.Ok? then Ok(id) else Err(ValidationError);
    }

    /* ---------------- handlers ---------------- */

    /** `setPreferences`, with the schema check that keeps a stored profile
        matchable. */
    method SetPreferences(u: UserId, body: PreferencesBody) returns (r: Result<Profile, Failure>)
      requires Valid()
      modifies this
      ensures Outcome(State(), r) == SetPreferencesValidated(old(State()), u, body)
      ensures Valid()
    {
      ghost var s0 := State();
      var p := PreferencesApplied(State(), u, body);
      if !ProfileSchemaValid(p) {
        return Err(ValidationError);
      }
      if u !in profiles {
        profileOrder := profileOrder + [u];
      }
      profiles := profiles[u := p];
      r := Ok(p);
      assert Outcome(State(), r) == Allocation.SetPreferences(s0, u, body);
      SetPreferencesValidatedKeepsValid(s0, u, body);
    }

    /** `autoAssignRoom`. */
    method AutoAssignRoom(u: UserId) returns (r: Result<RoomId, Failure>)
      requires Valid()
      modifies this
      ensures Outcome(State(), r) == AutoAssign(old(State()), u)
      ensures Valid()
      ensures r.Ok? || r.error in {PreferencesNotSet, AlreadyAssigned, NoRoomAvailable}
    {
      ghost var s0 := State();
      AutoAssignKeepsValid(s0, u);
      if u !in profiles {
        return Err(PreferencesNotSet);
      }
      var profile := profiles[u];
      if profile.assignedRoom.Some? {
        return Err(AlreadyAssigned);
      }
      var room := FindMatchingRoom(rooms, roomOrder, profile);
      if room.None? {
        return Err(NoRoomAvailable);
      }
      r := PlaceStudent(u, profile, room.value);
    }

    /** The loop of `batchAutoAssign` over the loaded profiles: match each
        against the rooms as they are now, place it when a room fits, and
        push one report line per profile. */
    method AssignEach(pending: seq<Profile>) returns (r: Result<seq<Assignment>, Failure>)
      modifies this
      ensures Outcome(State(), r) == BatchFrom(old(State()), pending)
    {
      ghost var s0 := State();
      var results: seq<Assignment> := [];
      var i := 0;
      assert pending[0..] == pending;
      PrependNothing(BatchFrom(s0, pending));
      while i < |pending|
        invariant 0 <= i <= |pending|
        invariant BatchFrom(s0, pending) == PrependAll(results, BatchFrom(State(), pending[i..]))
      {
        var p := pending[i];
        ghost var before := State();
        assert pending[i..][0] == p && pending[i..][1..] == pending[i + 1..];
        var match_ := FindMatchingRoom(rooms, roomOrder, p);
        if match_.Some? {
          var placed := PlaceStudent(p.user, p, match_.value);
          if placed.Err? {
            BatchStopsAt(before, pending[i..], results, match_.value);
            return Err(ValidationError);
          }
          BatchPlacesAt(before, pending[i..], results, match_.value);
          results := results + [Assignment(p.user, Some(match_.value))];
        } else {
          BatchSkipsAt(before, pending[i..], results);
          results := results + [Assignment(p.user, None)];
        }
        i := i + 1;
      }
      assert pending[i..] == [] && results + [] == results;
      return Ok(results);
    }

    /** `batchAutoAssign`: load the pending profiles, then assign each. */
    method BatchAutoAssign() returns (r: Result<seq<Assignment>, Failure>)
      requires Valid()
      modifies this
      ensures Outcome(State(), r) == Allocation.BatchAutoAssign(old(State()))
      ensures Valid() && r.Ok?
    {
      ghost var s0 := State();
      var pending := Snapshot(profiles, PendingUsers(profiles, profileOrder));
      r := AssignEach(pending);
      BatchAutoAssignKeepsValid(s0);
    }

    /** `SwapRequest.create`: store the request under the next fresh id. */
    method CreateSwap(swap: SwapRequest) returns (id: DocId)
      modifies this
      ensures id == old(nextId)
      ensures State() == old(State()).(swaps := old(swaps)[id := swap], nextId := id + 1)
    {
      id := nextId;
      swaps := swaps[id := swap];
      nextId := nextId + 1;
    }

    /** `StudentProfile.updateOne({user: u}, {status: 'swap_pending'})`: no
        validation, and no effect without a profile. */
    method MarkSwapPending(u: UserId)
      modifies this
      ensures u in old(profiles) ==> State() == old(State()).(profiles := old(profiles)[u := old(profiles)[u].(status := SwapPending)])
      ensures u !in old(profiles) ==> State() == old(State())
    {
      if u in profiles {
        profiles := profiles[u := profiles[u].(status := SwapPending)];
      }
    }

    /** `requestSwap`. */
    method RequestSwap(from: UserId, to: Option<UserId>, reason: Option<string>) returns (r: Result<DocId, Failure>)
      requires Valid()
      modifies this
      ensures Outcome(State(), r) == Allocation.RequestSwap(old(State()), from, to, reason)
      ensures Valid()
    {
      ghost var s0 := State();
      r := OpenSwap(from, to, reason);
      RequestSwapKeepsValid(s0, from, to, reason);
    }

    /** The steps of `requestSwap`: the checks, then the request and the
        initiator's status. */
    method OpenSwap(from: UserId, to: Option<UserId>, reason: Option<string>) returns (r: Result<DocId, Failure>)
      modifies this
      ensures Outcome(State(), r) == Allocation.RequestSwap(old(State()), from, to, reason)
    {
      if to.None? {
        return Err(MissingField);
      }
      if !HoldsRoom(State(), from) || !HoldsRoom(State(), to.value) {
        return Err(MissingAssignment);
      }
      var a := rooms[profiles[from].assignedRoom.value];
      var b := rooms[profiles[to.value].assignedRoom.value];
      if a.seater != b.seater || a.ac != b.ac || a.blockType != b.blockType {
        return Err(IncompatibleRoomTypes);
      }
      var swap := NewSwap(from, to.value, reason, a.seater, a.ac);
      if !SwapSchemaValid(swap) {
        return Err(ValidationError);
      }
      var id := CreateSwap(swap);
      MarkSwapPending(from);
      return Ok(id);
    }

    /** The approval branch of `decideSwap`: exchange the occupants, then
        swap the pointers and save both profiles. */
    method ExchangeRoomsOf(from: UserId, to: UserId) returns (r: Result<(), Failure>)
      modifies this
      ensures Outcome(State(), r) == ExchangeRooms(old(State()), from, to)
    {
      if !(from in profiles && profiles[from].assignedRoom.Some? && to in profiles && profiles[to].assignedRoom.Some?) {
        return Err(MissingAssignment);
      }
      var a := profiles[from];
      var b := profiles[to];
      var roomA := a.assignedRoom.value;
      var roomB := b.assignedRoom.value;
      if roomA !in rooms {
        return Err(ServerError);
      }
      if roomB !in rooms {
        PullFromRoom(roomA, from);
        return Err(ServerError);
      }
      PullFromRoom(roomA, from);
      PullFromRoom(roomB, to);
      AddToRoom(roomA, to);
      AddToRoom(roomB, from);
      r := SaveProfileDoc(from, a.(assignedRoom := Some(roomB), status := Assigned));
      if r.Err? {
        return;
      }
      r := SaveProfileDoc(to, b.(assignedRoom := Some(roomA), status := Assigned));
    }

    /** `decideSwap`. */
    method DecideSwap(id: DocId, decision: string) returns (r: Result<SwapRequest, Failure>)
      requires Valid()
      modifies this
      ensures Outcome(State(), r) == Allocation.DecideSwap(old(State()), id, decision)
      ensures Valid()
      ensures r.Ok? || r.error in {InvalidDecision, NotFound, MissingAssignment}
    {
      ghost var s0 := State();
      DecideSwapKeepsValid(s0, id, decision);
      if !IsDecision(decision) {
        return Err(InvalidDecision);
      }
      if id !in swaps {
        return Err(NotFound);
      }
      var swap := swaps[id].(status := if decision == "approve" then SwapApproved else SwapRejected);
      if !SwapSchemaValid(swap) {
        return Err(ValidationError);
      }
      swaps := swaps[id := swap];
      assert State() == s0.(swaps := s0.swaps[id := swap]);
      if decision == "reject" {
        return Ok(swap);
      }
      ghost var e := ExchangeRooms(State(), swap.fromUser, swap.toUser);
      var exchanged := ExchangeRoomsOf(swap.fromUser, swap.toUser);
      assert State() == e.db && exchanged == e.result;
      r := if exchanged.Ok? then Ok(swap) else Err(exchanged.error);
    }

    /** `applyChange` by student `u`. */
    method ApplyChange(u: UserId, body: ChangeBody) returns (r: Result<DocId, Failure>)
      requires Valid()
      modifies this
      ensures Outcome(State(), r) == Allocation.ApplyChange(old(State()), u, body)
      ensures Valid()
    {
      ghost var s0 := State();
      ApplyChangeKeepsValid(s0, u, body);
      if !Truthy(body.name) || !Truthy(body.registrationNumber) || !Truthy(body.reason) || !Truthy(body.kind) {
        r := Err(MissingField);
      } else if body.kind.value == BedTypeChange && (body.desiredSeater.None? || body.desiredAC.None?) {
        r := Err(MissingField);
      } else if body.kind.value == HostelChange && body.desiredHostel.None? {
        r := Err(MissingField);
      } else {
        var app := ChangeApplication(u, body.name.value, body.registrationNumber.value, body.reason.value,
                                     body.kind.value, body.desiredSeater, body.desiredAC, body.desiredHostel,
                                     AppPending, None);
        if !ApplicationSchemaValid(app) {
          r := Err(ValidationError);
        } else {
          var id := nextId;
          applications := applications[id := app];
          nextId := nextId + 1;
          r := Ok(id);
        }
      }
      assert Outcome(State(), r) == Allocation.ApplyChange(s0, u, body);
    }

    /** Release the student's room if they hold one, then take the first
        fit for the new preferences if there is one. */
    method RematchStudent(u: UserId, p: Profile) returns (r: Result<(), Failure>)
      modifies this
      ensures Outcome(State(), r) == Rematch(old(State()), u, p)
    {
      var profile := p;
      if profile.assignedRoom.Some? {
        PullFromRoom(profile.assignedRoom.value, u);
        profile := profile.(assignedRoom := None, status := Pending);
        r := SaveProfileDoc(u, profile);
        if r.Err? {
          return;
        }
      }
      var match_ := FindMatchingRoom(rooms, roomOrder, profile);
      if match_.None? {
        return Ok(());
      }
      var placed := PlaceStudent(u, profile, match_.value);
      r := if placed.Ok? then Ok(()) else Err(ValidationError);
    }

    /** `decideApplication`. */
    method DecideApplication(id: DocId, decision: string, adminNote: Option<string>)
      returns (r: Result<ChangeApplication, Failure>)
      requires Valid()
      modifies this
      ensures Outcome(State(), r) == Allocation.DecideApplication(old(State()), id, decision, adminNote)
      ensures Valid()
      ensures r.Ok? || r.error in {InvalidDecision, NotFound, ServerError}
    {
      ghost var s0 := State();
      DecideApplicationKeepsValid(s0, id, decision, adminNote);
      if !IsDecision(decision) {
        return Err(InvalidDecision);
      }
      if id !in applications {
        return Err(NotFound);
      }
      var app := applications[id].(status := if decision == "approve" then AppApproved else AppRejected,
                                   adminNote := adminNote);
      if !ApplicationSchemaValid(app) {
        return Err(ValidationError);
      }
      applications := applications[id := app];
      if decision == "reject" {
        return Ok(app);
      }
      if app.user !in profiles {
        return Err(ServerError);
      }
      var profile := ApplyToPreferences(profiles[app.user], app);
      var saved := SaveProfileDoc(app.user, profile);
      if saved.Err? {
        return Err(ValidationError);
      }
      var rematched := RematchStudent(app.user, profile);
      r := if rematched.Ok? then Ok(app) else Err(rematched.error);
    }

    /** `upsertRoom`. The store stays valid when the capacity written fits
        every room the filter matches; a smaller one overfills the room. */
    method UpsertRoom(body: RoomBody) returns (r: Result<RoomId, Failure>)
      requires Valid()
      modifies this
      ensures Outcome(State(), r) == Allocation.UpsertRoom(old(State()), body)
      ensures CapacityFitsMatches(old(State()), body) ==> Valid()
    {
      ghost var s0 := State();
      r := WriteRoom(body);
      if CapacityFitsMatches(s0, body) {
        UpsertKeepsValid(s0, body);
      }
    }

    /** The steps of `upsertRoom`: the checks, then the update of the first
        matching room or the insertion of a new one. */
    method WriteRoom(body: RoomBody) returns (r: Result<RoomId, Failure>)
      modifies this
      ensures Outcome(State(), r) == Allocation.UpsertRoom(old(State()), body)
    {
      if body.hostelNumber.None? && !Truthy(body.hostelName) {
        return Err(MissingField);
      }
      var blockType := UpsertBlockType(body);
      if !Truthy(blockType) {
        return Err(MissingField);
      }
      var found := FirstMatching(rooms, roomOrder, body);
      if found.Some? {
        var id := found.value;
        rooms := rooms[id := UpdatedRoom(rooms[id], body, blockType.value)];
        return Ok(id);
      }
      var id := nextId;
      rooms := rooms[id := InsertedRoom(body, blockType.value)];
      roomOrder := roomOrder + [id];
      nextId := nextId + 1;
      return Ok(id);
    }
  }
}
