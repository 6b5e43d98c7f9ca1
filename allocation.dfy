/** The allocation engine's operations (backend/controllers/hostelController.js)
    as transitions of the store. Each follows the controller's steps in
    order: a failure keeps the writes made before it, as the controller
    does, since it runs no transactions. */
module Allocation {
  import opened Common
  import opened Rooms
  import opened Profiles
  import opened ChangeApplications
  import opened SwapRequests
  import opened Matcher
  import opened AllocationState

  /* ---------------- assignment ---------------- */

  /** Put student `u` (profile `p`) into room `id`: `$addToSet` on the room,
      then point the profile at it with status `assigned` and save. */
  function Place(db: Db, u: UserId, p: Profile, id: RoomId): (o: Outcome<RoomId>)
    ensures o.result.Ok? <==> ProfileSchemaValid(p)
    ensures o.result.Ok? ==>
      o.result.value == id
      && o.db == AddOccupant(db, id, u).(profiles := db.profiles[u := p.(assignedRoom := Some(id), status := Assigned)])
    ensures o.result.Err? ==> o.db == AddOccupant(db, id, u) && o.result.error == ValidationError
  {
    var s := SaveProfile(AddOccupant(db, id, u), u, p.(assignedRoom := Some(id), status := Assigned));
    Outcome(s.db, if s.result.Ok? then Ok(id) else Err(ValidationError))
  }

  /** `autoAssignRoom` for the signed-in user `u`: refused without a
      profile, with a room already held, or with no eligible room that has
      space, each time without any write; otherwise the first fit. */
  function AutoAssign(db: Db, u: UserId): (o: Outcome<RoomId>)
    ensures u !in db.profiles ==> o == Outcome(db, Err(PreferencesNotSet))
    ensures u in db.profiles && db.profiles[u].assignedRoom.Some? ==> o == Outcome(db, Err(AlreadyAssigned))
    ensures (u in db.profiles && db.profiles[u].assignedRoom.None?
             && FirstFit(db.rooms, db.roomOrder, db.profiles[u]).None?) ==> o == Outcome(db, Err(NoRoomAvailable))
    ensures o.result.Ok? ==>
      u in db.profiles && db.profiles[u].assignedRoom.None?
      && FirstFit(db.rooms, db.roomOrder, db.profiles[u]) == Some(o.result.value)
      && o.result.value in db.rooms && o.result.value in o.db.rooms
      && o.db.rooms[o.result.value].occupants == AddToSet(db.rooms[o.result.value].occupants, u)
      && u in o.db.profiles && o.db.profiles[u] == db.profiles[u].(assignedRoom := Some(o.result.value), status := Assigned)
  {
    if u !in db.profiles then Outcome(db, Err(PreferencesNotSet))
    else
      var p := db.profiles[u];
      if p.assignedRoom.Some? then Outcome(db, Err(AlreadyAssigned))
      else
        match FirstFit(db.rooms, db.roomOrder, p)
        case None => Outcome(db, Err(NoRoomAvailable))
        case Some(id) =>
          var placed := Place(db, u, p, id);
          assert placed.result.Ok? ==> placed.db.rooms == AddOccupant(db, id, u).rooms;
          placed
  }

  /* ---------------- batch assignment ---------------- */

  predicate Unassigned(p: Profile) {
    p.status == Pending && p.assignedRoom.None?
  }

  /** The users `batchAutoAssign` selects: profile status `pending` and no
      room, in storage order. */
  function PendingUsers(profiles: map<UserId, Profile>, order: seq<UserId>): (us: seq<UserId>)
    ensures forall u :: u in us <==> u in order && u in profiles && Unassigned(profiles[u])
    ensures |us| <= |order|
  {
    if order == [] then []
    else
      var rest := PendingUsers(profiles, order[1..]);
      if order[0] in profiles && Unassigned(profiles[order[0]]) then [order[0]] + rest else rest
  }

  /** The profile documents the query loads, before the loop starts. */
  function Snapshot(profiles: map<UserId, Profile>, us: seq<UserId>): (ps: seq<Profile>)
    requires forall u :: u in us ==> u in profiles
    ensures |ps| == |us| && forall i :: 0 <= i < |us| ==> ps[i] == profiles[us[i]]
  {
    seq(|us|, i requires 0 <= i < |us| => profiles[us[i]])
  }

  /** One line of the batch report: the student and the room given, if any. */
  datatype Assignment = Assignment(user: UserId, roomId: Option<RoomId>)

  function Prepend(a: Assignment, o: Outcome<seq<Assignment>>): (r: Outcome<seq<Assignment>>)
    ensures r.db == o.db && r.result.Ok? == o.result.Ok?
    ensures r.result.Ok? ==> r.result.value == [a] + o.result.value
    ensures r.result.Err? ==> r.result == o.result
  {
    if o.result.Ok? then Outcome(o.db, Ok([a] + o.result.value)) else o
  }

  /** The loop of `batchAutoAssign` over the loaded profiles: each one is
      matched against the rooms as they are now, so earlier assignments are
      visible to later matches. A failing save ends the batch. */
  function BatchFrom(db: Db, ps: seq<Profile>): (o: Outcome<seq<Assignment>>)
    ensures o.result.Ok? ==>
      |o.result.value| == |ps| && forall i :: 0 <= i < |ps| ==> o.result.value[i].user == ps[i].user
    decreases |ps|
  {
    if ps == [] then Outcome(db, Ok([]))
    else
      var p := ps[0];
      match FirstFit(db.rooms, db.roomOrder, p)
      case None => Prepend(Assignment(p.user, None), BatchFrom(db, ps[1..]))
      case Some(id) =>
        var placed := Place(db, p.user, p, id);
        if placed.result.Err? then Outcome(placed.db, Err(ValidationError))
        else Prepend(Assignment(p.user, Some(id)), BatchFrom(placed.db, ps[1..]))
  }

  /** `batchAutoAssign`. */
  function BatchAutoAssign(db: Db): (o: Outcome<seq<Assignment>>)
    ensures o.result.Ok? ==>
      var us := PendingUsers(db.profiles, db.profileOrder);
      |o.result.value| == |us| && forall i :: 0 <= i < |us| ==> o.result.value[i].user == db.profiles[us[i]].user
  {
    var us := PendingUsers(db.profiles, db.profileOrder);
    BatchFrom(db, Snapshot(db.profiles, us))
  }

  /* ---------------- swaps ---------------- */

  /** Both rooms have the same seater, AC flag and block type. */
  predicate SameBedType(a: Room, b: Room) {
    a.seater == b.seater && a.ac == b.ac && a.blockType == b.blockType
  }

  /** `requestSwap` from `from` to `to` (absent or empty: `None`). On success
      the request snapshots the initiator room's seater and AC, and only the
      initiator's profile becomes `swap_pending`. */
  function RequestSwap(db: Db, from: UserId, to: Option<UserId>, reason: Option<string>): (o: Outcome<DocId>)
    ensures to.None? ==> o == Outcome(db, Err(MissingField))
    ensures to.Some? && !(HoldsRoom(db, from) && HoldsRoom(db, to.value)) ==> o == Outcome(db, Err(MissingAssignment))
    ensures o.result.Err? ==> o.db == db
    ensures o.result.Ok? ==>
      var a := db.rooms[db.profiles[from].assignedRoom.value];
      var b := db.rooms[db.profiles[to.value].assignedRoom.value];
      HoldsRoom(db, from) && HoldsRoom(db, to.value) && SameBedType(a, b)
      && o.result.value == db.nextId
      && o.db == db.(swaps := db.swaps[db.nextId := NewSwap(from, to.value, reason, a.seater, a.ac)],
                     nextId := db.nextId + 1,
                     profiles := db.profiles[from := db.profiles[from].(status := SwapPending)])
  {
    if to.None? then Outcome(db, Err(MissingField))
    else if !HoldsRoom(db, from) || !HoldsRoom(db, to.value) then Outcome(db, Err(MissingAssignment))
    else
      var a := db.rooms[db.profiles[from].assignedRoom.value];
      var b := db.rooms[db.profiles[to.value].assignedRoom.value];
      if a.seater != b.seater || a.ac != b.ac || a.blockType != b.blockType then
        Outcome(db, Err(IncompatibleRoomTypes))
      else
        var s := NewSwap(from, to.value, reason, a.seater, a.ac);
        if !SwapSchemaValid(s) then Outcome(db, Err(ValidationError))
        else
          var id := db.nextId;
          var created := db.(swaps := db.swaps[id := s], nextId := id + 1);
          Outcome(created.(profiles := created.profiles[from := created.profiles[from].(status := SwapPending)]), Ok(id))
  }

  /** The four occupant updates of an approved swap, in the controller's
      order: pull `from` from `ra`, pull `to` from `rb`, add `to` to `ra`,
      add `from` to `rb`. */
  function ExchangeOccupants(db: Db, from: UserId, ra: RoomId, to: UserId, rb: RoomId): Db {
    var pulledA := PullOccupant(db, ra, from);
    var pulledB := PullOccupant(pulledA, rb, to);
    var addedA := AddOccupant(pulledB, ra, to);
    AddOccupant(addedA, rb, from)
  }

  /** The approval branch of `decideSwap`: both students must still hold a
      room; both rooms are loaded and a missing one is dereferenced (a 500)
      where the source first uses it: a missing first room before any write,
      a missing second room after `from` has been pulled from the first; the
      occupants are exchanged, then the two profiles swap pointers, are
      marked `assigned` and are saved one after the other. */
  function ExchangeRooms(db: Db, from: UserId, to: UserId): (o: Outcome<()>)
    ensures (from !in db.profiles || db.profiles[from].assignedRoom.None?
             || to !in db.profiles || db.profiles[to].assignedRoom.None?) ==> o == Outcome(db, Err(MissingAssignment))
    ensures from in db.profiles && db.profiles[from].assignedRoom.Some?
            && to in db.profiles && db.profiles[to].assignedRoom.Some? ==>
      var ra := db.profiles[from].assignedRoom.value;
      var rb := db.profiles[to].assignedRoom.value;
      (ra !in db.rooms ==> o == Outcome(db, Err(ServerError)))
      && (ra in db.rooms && rb !in db.rooms ==> o == Outcome(PullOccupant(db, ra, from), Err(ServerError)))
    ensures o.result.Ok? ==>
      var ra := db.profiles[from].assignedRoom.value;
      var rb := db.profiles[to].assignedRoom.value;
      ra in db.rooms && rb in db.rooms
      && o.db == ExchangeOccupants(db, from, ra, to, rb).(
           profiles := db.profiles[from := db.profiles[from].(assignedRoom := Some(rb), status := Assigned)]
                                  [to := db.profiles[to].(assignedRoom := Some(ra), status := Assigned)])
  {
    if !(from in db.profiles && db.profiles[from].assignedRoom.Some?
         && to in db.profiles && db.profiles[to].assignedRoom.Some?) then
      Outcome(db, Err(MissingAssignment))
    else
      var a := db.profiles[from];
      var b := db.profiles[to];
      var ra := a.assignedRoom.value;
      var rb := b.assignedRoom.value;
      if ra !in db.rooms then Outcome(db, Err(ServerError))
      else if rb !in db.rooms then Outcome(PullOccupant(db, ra, from), Err(ServerError))
      else
        var exchanged := ExchangeOccupants(db, from, ra, to, rb);
        var savedA := SaveProfile(exchanged, from, a.(assignedRoom := Some(rb), status := Assigned));
        if savedA.result.Err? then savedA
        else SaveProfile(savedA.db, to, b.(assignedRoom := Some(ra), status := Assigned))
  }

  predicate IsDecision(decision: string) {
    decision == "approve" || decision == "reject"
  }

  /** `decideSwap`: the decision is checked, the request is loaded and its
      new status saved before anything else; a rejection stops there. The
      previous status is not looked at. */
  function DecideSwap(db: Db, id: DocId, decision: string): (o: Outcome<SwapRequest>)
    ensures !IsDecision(decision) ==> o == Outcome(db, Err(InvalidDecision))
    ensures IsDecision(decision) && id !in db.swaps ==> o == Outcome(db, Err(NotFound))
    ensures decision == "reject" && id in db.swaps && SwapSchemaValid(db.swaps[id]) ==>
      o == Outcome(db.(swaps := db.swaps[id := db.swaps[id].(status := SwapRejected)]),
                   Ok(db.swaps[id].(status := SwapRejected)))
    ensures decision == "approve" && id in db.swaps && SwapSchemaValid(db.swaps[id]) ==>
      var s := db.swaps[id].(status := SwapApproved);
      var e := ExchangeRooms(db.(swaps := db.swaps[id := s]), s.fromUser, s.toUser);
      o.db == e.db && (e.result.Ok? ==> o.result == Ok(s)) && (e.result.Err? ==> o.result == Err(e.result.error))
  {
    if !IsDecision(decision) then Outcome(db, Err(InvalidDecision))
    else if id !in db.swaps then Outcome(db, Err(NotFound))
    else
      var s := db.swaps[id].(status := if decision == "approve" then SwapApproved else SwapRejected);
      if !SwapSchemaValid(s) then Outcome(db, Err(ValidationError))
      else
        var saved := db.(swaps := db.swaps[id := s]);
        if decision == "reject" then Outcome(saved, Ok(s))
        else
          var exchanged := ExchangeRooms(saved, s.fromUser, s.toUser);
          Outcome(exchanged.db, if exchanged.result.Ok? then Ok(s) else Err(exchanged.result.error))
  }

  /* ---------------- change applications ---------------- */

  /** The request body of `applyChange`; absent or empty texts are `None`
      or `""`. */
  datatype ChangeBody = ChangeBody(
    name: Option<string>,
    registrationNumber: Option<string>,
    reason: Option<string>,
    kind: Option<string>,
    desiredSeater: Option<int>,
    desiredAC: Option<bool>,
    desiredHostel: Option<HostelRef>)

  /** `applyChange` by user `u`: the four texts must be truthy, a bed-type
      change needs seater and AC, a hostel change needs the hostel; then the
      application is created (and validated) with status `pending`. */
  function ApplyChange(db: Db, u: UserId, body: ChangeBody): (o: Outcome<DocId>)
    ensures !(Truthy(body.name) && Truthy(body.registrationNumber) && Truthy(body.reason) && Truthy(body.kind))
            ==> o == Outcome(db, Err(MissingField))
    ensures body.kind == Some(BedTypeChange) && (body.desiredSeater.None? || body.desiredAC.None?)
            ==> o == Outcome(db, Err(MissingField))
    ensures body.kind == Some(HostelChange) && body.desiredHostel.None? ==> o == Outcome(db, Err(MissingField))
    ensures o.result.Err? ==> o.db == db
    ensures o.result.Ok? ==>
      o.result.value == db.nextId && db.nextId in o.db.applications
      && o.db == db.(applications := db.applications[db.nextId := o.db.applications[db.nextId]], nextId := db.nextId + 1)
      && ApplicationComplete(o.db.applications[db.nextId])
      && o.db.applications[db.nextId]
         == ChangeApplication(u, body.name.value, body.registrationNumber.value, body.reason.value,
                              body.kind.value, body.desiredSeater, body.desiredAC, body.desiredHostel,
                              AppPending, None)
    ensures Truthy(body.name) && Truthy(body.registrationNumber) && Truthy(body.reason) && Truthy(body.kind)
            && !(body.kind.value == BedTypeChange && (body.desiredSeater.None? || body.desiredAC.None?))
            && !(body.kind.value == HostelChange && body.desiredHostel.None?)
            ==> (o.result.Ok? <==>
                   ApplicationSchemaValid(ChangeApplication(u, body.name.value, body.registrationNumber.value,
                                                            body.reason.value, body.kind.value, body.desiredSeater,
                                                            body.desiredAC, body.desiredHostel, AppPending, None)))
  {
    if !Truthy(body.name) || !Truthy(body.registrationNumber) || !Truthy(body.reason) || !Truthy(body.kind) then
      Outcome(db, Err(MissingField))
    else if body.kind.value == BedTypeChange && (body.desiredSeater.None? || body.desiredAC.None?) then
      Outcome(db, Err(MissingField))
    else if body.kind.value == HostelChange && body.desiredHostel.None? then
      Outcome(db, Err(MissingField))
    else
      var app := ChangeApplication(u, body.name.value, body.registrationNumber.value, body.reason.value,
                                   body.kind.value, body.desiredSeater, body.desiredAC, body.desiredHostel,
                                   AppPending, None);
      if !ApplicationSchemaValid(app) then Outcome(db, Err(ValidationError))
      else Outcome(db.(applications := db.applications[db.nextId := app], nextId := db.nextId + 1), Ok(db.nextId))
  }

  /** How an approved application rewrites the preferences: a bed-type
      change overwrites seater and AC; a hostel change makes the desired
      hostel the only preferred one and re-derives the block only for a
      numbered hostel. */
  function ApplyToPreferences(p: Profile, a: ChangeApplication): (q: Profile)
    ensures q.user == p.user && q.assignedRoom == p.assignedRoom && q.status == p.status
    ensures q.foodPreference == p.foodPreference && q.amenities == p.amenities
    ensures a.kind == BedTypeChange ==>
      q == p.(preferredSeater := a.desiredSeater, preferredAC := a.desiredAC)
    ensures a.kind == HostelChange && a.desiredHostel.Some? ==>
      q.preferredHostels == Some([a.desiredHostel.value])
      && q.preferredSeater == p.preferredSeater && q.preferredAC == p.preferredAC
      && (a.desiredHostel.value.HostelNo? ==> q.preferredBlock == Some(DeriveBlockType(a.desiredHostel.value.number)))
      && (a.desiredHostel.value.HostelNamed? ==> q.preferredBlock == p.preferredBlock)
    ensures a.kind != BedTypeChange && a.kind != HostelChange ==> q == p
  {
    if a.kind == BedTypeChange then
      p.(preferredSeater := a.desiredSeater, preferredAC := a.desiredAC)
    else if a.kind == HostelChange && a.desiredHostel.Some? then
      var h := a.desiredHostel.value;
      p.(preferredHostels := Some([h]),
         preferredBlock := if h.HostelNo? then Some(DeriveBlockType(h.number)) else p.preferredBlock)
    else p
  }

  /** After approval: release any room the student holds (pull, clear the
      pointer, status `pending`, save), then look for a first fit with the
      new preferences and take it if there is one. */
  function Rematch(db: Db, u: UserId, p: Profile): (o: Outcome<()>)
    ensures o.result.Err? ==> o.result.error == ValidationError
    ensures o.db.roomOrder == db.roomOrder && o.db.rooms.Keys == db.rooms.Keys
    ensures o.db.swaps == db.swaps && o.db.applications == db.applications && o.db.nextId == db.nextId
  {
    var released :=
      if p.assignedRoom.Some? then
        SaveProfile(PullOccupant(db, p.assignedRoom.value, u), u, p.(assignedRoom := None, status := Pending))
      else Outcome(db, Ok(()));
    if released.result.Err? then released
    else
      var q := if p.assignedRoom.Some? then p.(assignedRoom := None, status := Pending) else p;
      match FirstFit(released.db.rooms, released.db.roomOrder, q)
      case None => released
      case Some(m) =>
        var placed := Place(released.db, u, q, m);
        Outcome(placed.db, if placed.result.Ok? then Ok(()) else Err(ValidationError))
  }

  /** `decideApplication`: the decision is checked, the application is
      loaded and its status and note saved first; an approval then loads the
      student's profile (a missing one is dereferenced: a 500), rewrites its
      preferences, saves it and re-matches. The previous status is not
      looked at. */
  function DecideApplication(db: Db, id: DocId, decision: string, adminNote: Option<string>): (o: Outcome<ChangeApplication>)
    ensures !IsDecision(decision) ==> o == Outcome(db, Err(InvalidDecision))
    ensures IsDecision(decision) && id !in db.applications ==> o == Outcome(db, Err(NotFound))
    ensures decision == "reject" && id in db.applications && ApplicationSchemaValid(db.applications[id]) ==>
      var a := db.applications[id].(status := AppRejected, adminNote := adminNote);
      o == Outcome(db.(applications := db.applications[id := a]), Ok(a))
    ensures decision == "approve" && id in db.applications && ApplicationSchemaValid(db.applications[id])
            && db.applications[id].user !in db.profiles ==>
      o.result == Err(ServerError)
      && o.db == db.(applications := db.applications[id := db.applications[id].(status := AppApproved, adminNote := adminNote)])
  {
    if !IsDecision(decision) then Outcome(db, Err(InvalidDecision))
    else if id !in db.applications then Outcome(db, Err(NotFound))
    else
      var a := db.applications[id].(status := if decision == "approve" then AppApproved else AppRejected,
                                    adminNote := adminNote);
      if !ApplicationSchemaValid(a) then Outcome(db, Err(ValidationError))
      else
        var saved := db.(applications := db.applications[id := a]);
        if decision == "reject" then Outcome(saved, Ok(a))
        else if a.user !in saved.profiles then Outcome(saved, Err(ServerError))
        else
          var p := ApplyToPreferences(saved.profiles[a.user], a);
          var rewritten := SaveProfile(saved, a.user, p);
          if rewritten.result.Err? then Outcome(rewritten.db, Err(ValidationError))
          else
            var rematched := Rematch(rewritten.db, a.user, p);
            Outcome(rematched.db, if rematched.result.Ok? then Ok(a) else Err(rematched.result.error))
  }

  /* ---------------- catalogue ---------------- */

  /** The request body of `upsertRoom`. */
  datatype RoomBody = RoomBody(
    hostelNumber: Option<int>,
    hostelName: Option<string>,
    seater: Option<int>,
    ac: Option<bool>,
    amenities: Option<Amenities>,
    roomLabel: Option<string>,
    capacity: Option<int>,
    blockType: Option<string>)

  /** The upsert filter: seater, AC and label, plus the hostel number when
      given and the hostel name when truthy. */
  predicate MatchesFilter(r: Room, body: RoomBody) {
    r.seater == body.seater && r.ac == body.ac && r.roomLabel == body.roomLabel
    && (body.hostelNumber.Some? ==> r.hostelNumber == body.hostelNumber)
    && (Truthy(body.hostelName) ==> r.hostelName == body.hostelName)
  }

  /** The document `findOneAndUpdate` picks: the first match in storage
      order. */
  function FirstMatching(rooms: map<RoomId, Room>, order: seq<RoomId>, body: RoomBody): (r: Option<RoomId>)
    ensures r.Some? ==> r.value in order && r.value in rooms && MatchesFilter(rooms[r.value], body)
    ensures r.None? ==> forall id :: id in order && id in rooms ==> !MatchesFilter(rooms[id], body)
  {
    if order == [] then None
    else if order[0] in rooms && MatchesFilter(rooms[order[0]], body) then Some(order[0])
    else FirstMatching(rooms, order[1..], body)
  }

  /** The block type the upsert writes: derived from a given hostel number,
      otherwise the one in the body. */
  function UpsertBlockType(body: RoomBody): (b: Option<string>)
    ensures body.hostelNumber.Some? ==> b == Some(DeriveBlockType(body.hostelNumber.value))
    ensures body.hostelNumber.None? ==> b == body.blockType
  {
    if body.hostelNumber.Some? then Some(DeriveBlockType(body.hostelNumber.value)) else body.blockType
  }

  /** `capacity || seater`. */
  function UpsertCapacity(body: RoomBody): (c: Option<int>)
    ensures NumberTruthy(body.capacity) ==> c == body.capacity
    ensures !NumberTruthy(body.capacity) ==> c == body.seater
  {
    if NumberTruthy(body.capacity) then body.capacity else body.seater
  }

  function Overwrite<T>(old_: T, new_: Option<T>): T {
    if new_.Some? then new_.value else old_
  }

  /** The update applied to an existing room; absent values leave the field
      as it is. Occupants are never touched. */
  function UpdatedRoom(r: Room, body: RoomBody, blockType: string): (u: Room)
    ensures u.occupants == r.occupants && u.blockType == blockType
    ensures u.capacity == (if UpsertCapacity(body).Some? then UpsertCapacity(body) else r.capacity)
  {
    var capacity := UpsertCapacity(body);
    r.(seater := if body.seater.Some? then body.seater else r.seater,
       ac := if body.ac.Some? then body.ac else r.ac,
       amenities := Overwrite(r.amenities, body.amenities),
       roomLabel := if body.roomLabel.Some? then body.roomLabel else r.roomLabel,
       capacity := if capacity.Some? then capacity else r.capacity,
       blockType := blockType,
       hostelNumber := if body.hostelNumber.Some? then body.hostelNumber else r.hostelNumber,
       hostelName := if Truthy(body.hostelName) then body.hostelName else r.hostelName)
  }

  /** The room inserted when nothing matches: the filter's fields and the
      update's, default amenities, no occupants. */
  function InsertedRoom(body: RoomBody, blockType: string): (r: Room)
    ensures r.occupants == [] && r.blockType == blockType && r.capacity == UpsertCapacity(body)
    ensures MatchesFilter(r, body)
  {
    Room(body.hostelNumber, if Truthy(body.hostelName) then body.hostelName else None, blockType,
         body.seater, body.ac, body.amenities.GetOr(NoAmenities), [], UpsertCapacity(body), body.roomLabel)
  }

  /** `upsertRoom`: a hostel number or a truthy hostel name is required, and
      so is a block type when there is no number; then the first matching
      room is updated, or a new one is inserted at the end of storage
      order. No schema validation runs on this path. */
  function UpsertRoom(db: Db, body: RoomBody): (o: Outcome<RoomId>)
    ensures body.hostelNumber.None? && !Truthy(body.hostelName) ==> o == Outcome(db, Err(MissingField))
    ensures body.hostelNumber.None? && !Truthy(body.blockType) ==> o == Outcome(db, Err(MissingField))
    ensures o.result.Err? ==> o.db == db
    ensures o.result.Ok? ==>
      var id := o.result.value;
      id in o.db.rooms && MatchesFilter(o.db.rooms[id], body)
      && o.db.profiles == db.profiles && o.db.swaps == db.swaps && o.db.applications == db.applications
      && ((id in db.rooms && o.db.rooms[id].occupants == db.rooms[id].occupants && o.db.roomOrder == db.roomOrder)
          || (id == db.nextId && o.db.rooms[id].occupants == [] && o.db.roomOrder == db.roomOrder + [id]))
      && (forall k :: k in db.rooms && k != id ==> k in o.db.rooms && o.db.rooms[k] == db.rooms[k])
    ensures o.result.Ok? <==> (body.hostelNumber.Some? || Truthy(body.hostelName)) && Truthy(UpsertBlockType(body))
    ensures o.result.Ok? ==>
      var id := o.result.value;
      var first := FirstMatching(db.rooms, db.roomOrder, body);
      o.db.rooms[id].blockType == UpsertBlockType(body).value
      && (first.Some? ==>
            id == first.value
            && o.db.rooms[id].capacity == (if UpsertCapacity(body).Some? then UpsertCapacity(body) else db.rooms[id].capacity))
      && (first.None? ==> id == db.nextId && o.db.rooms[id].capacity == UpsertCapacity(body))
  {
    if body.hostelNumber.None? && !Truthy(body.hostelName) then Outcome(db, Err(MissingField))
    else
      var blockType := UpsertBlockType(body);
      if !Truthy(blockType) then Outcome(db, Err(MissingField))
      else
        match FirstMatching(db.rooms, db.roomOrder, body)
        case Some(id) =>
          Outcome(db.(rooms := db.rooms[id := UpdatedRoom(db.rooms[id], body, blockType.value)]), Ok(id))
        case None =>
          var id := db.nextId;
          Outcome(db.(rooms := db.rooms[id := InsertedRoom(body, blockType.value)],
                      roomOrder := db.roomOrder + [id], nextId := id + 1), Ok(id))
  }

  /** The query of `listAvailability`, as raw query-string values. */
  datatype AvailabilityQuery = AvailabilityQuery(
    hostelNumber: Option<string>,
    hostelName: Option<string>,
    blockType: Option<string>,
    seater: Option<string>,
    ac: Option<string>)

  /** A row of the availability listing. `available` is `None` where the
      arithmetic gives NaN, which happens when the room has no capacity. */
  datatype Availability = Availability(
    id: RoomId,
    hostelNumber: Option<int>,
    hostelName: Option<string>,
    blockType: string,
    seater: Option<int>,
    ac: Option<bool>,
    capacity: Option<int>,
    occupied: nat,
    available: Option<int>,
    amenities: Amenities,
    roomLabel: Option<string>)

  /** What JavaScript's `Number` makes of a query text: an integer, a
      number with a fractional part, or `NaN`. */
  datatype JsNumber = Integer(n: int) | Fraction | NaN

  /** A truthy query text that `Number` turns into `NaN`: Mongoose refuses
      to cast it for a numeric field, so `Room.find` throws. */
  predicate CastFails(text: Option<string>, toNumber: string -> JsNumber) {
    Truthy(text) && toNumber(text.value) == NaN
  }

  /** A stored number equals the converted query text; a fraction equals
      no stored (integer) value. */
  predicate NumberMatches(stored: Option<int>, text: string, toNumber: string -> JsNumber) {
    toNumber(text).Integer? && stored == Some(toNumber(text).n)
  }

  /** A room passes the listing's query; `toNumber` is JavaScript's `Number`
      on the query text. */
  predicate ListedBy(r: Room, q: AvailabilityQuery, toNumber: string -> JsNumber) {
    (Truthy(q.hostelNumber) ==> NumberMatches(r.hostelNumber, q.hostelNumber.value, toNumber))
    && (Truthy(q.hostelName) ==> r.hostelName == q.hostelName)
    && (Truthy(q.blockType) ==> r.blockType == q.blockType.value)
    && (Truthy(q.seater) ==> NumberMatches(r.seater, q.seater.value, toNumber))
    && (q.ac.Some? ==> r.ac == Some(q.ac.value == "true"))
  }

  /** `Math.max(0, capacity - occupied)`: the free places, never negative. */
  function AvailabilityOf(id: RoomId, r: Room): (a: Availability)
    ensures a.occupied == |r.occupants|
    ensures a.available.Some? <==> r.capacity.Some?
    ensures a.available.Some? ==>
      a.available.value >= 0 && a.available.value >= r.capacity.value - |r.occupants|
      && (a.available.value == 0 || a.available.value == r.capacity.value - |r.occupants|)
    ensures a.available.Some? && a.available.value > 0 <==> HasSpace(r)
  {
    var available := if r.capacity.Some? then
        Some(if r.capacity.value - |r.occupants| > 0 then r.capacity.value - |r.occupants| else 0)
      else None;
    Availability(id, r.hostelNumber, r.hostelName, r.blockType, r.seater, r.ac, r.capacity,
                 |r.occupants|, available, r.amenities, r.roomLabel)
  }

  /** `listAvailability`: every room the query admits, in storage order; a
      truthy `hostelNumber` or `seater` that is not a number makes the
      query throw, answered as a server error. */
  function ListAvailability(db: Db, q: AvailabilityQuery, toNumber: string -> JsNumber): (r: Result<seq<Availability>, Failure>)
    ensures r.Err? <==> CastFails(q.hostelNumber, toNumber) || CastFails(q.seater, toNumber)
    ensures r.Err? ==> r.error == ServerError
    ensures r.Ok? ==>
      var rows := r.value;
      |rows| <= |db.roomOrder|
      && (forall i :: 0 <= i < |rows| ==>
            rows[i].id in db.rooms && ListedBy(db.rooms[rows[i].id], q, toNumber)
            && rows[i] == AvailabilityOf(rows[i].id, db.rooms[rows[i].id]))
      && (forall id :: id in db.roomOrder && id in db.rooms && ListedBy(db.rooms[id], q, toNumber) ==>
            exists i :: 0 <= i < |rows| && rows[i].id == id)
  {
    if CastFails(q.hostelNumber, toNumber) || CastFails(q.seater, toNumber) then Err(ServerError)
    else Ok(ListFrom(db.rooms, db.roomOrder, q, toNumber))
  }

  function ListFrom(rooms: map<RoomId, Room>, order: seq<RoomId>, q: AvailabilityQuery, toNumber: string -> JsNumber): (rows: seq<Availability>)
    ensures |rows| <= |order|
    ensures forall i :: 0 <= i < |rows| ==>
      rows[i].id in rooms && ListedBy(rooms[rows[i].id], q, toNumber)
      && rows[i] == AvailabilityOf(rows[i].id, rooms[rows[i].id])
    ensures forall id :: id in order && id in rooms && ListedBy(rooms[id], q, toNumber) ==>
      exists i :: 0 <= i < |rows| && rows[i].id == id
  {
    if order == [] then []
    else
      var rest := ListFrom(rooms, order[1..], q, toNumber);
      if order[0] in rooms && ListedBy(rooms[order[0]], q, toNumber) then
        var rows := [AvailabilityOf(order[0], rooms[order[0]])] + rest;
        assert forall i :: 0 < i < |rows| ==> rows[i] == rest[i - 1];
        assert forall id :: id in order[1..] && id in rooms && ListedBy(rooms[id], q, toNumber) ==>
          exists i :: 0 <= i < |rows| && rows[i].id == id by {
          forall id | id in order[1..] && id in rooms && ListedBy(rooms[id], q, toNumber)
            ensures exists i :: 0 <= i < |rows| && rows[i].id == id
          {
            var j :| 0 <= j < |rest| && rest[j].id == id;
            assert rows[j + 1].id == id;
          }
        }
        assert rows[0].id == order[0];
        rows
      else rest
  }

  /* ---------------- preferences ---------------- */

  /** The request body of `setPreferences`. */
  datatype PreferencesBody = PreferencesBody(
    foodPreference: Option<string>,
    preferredSeater: Option<int>,
    preferredAC: Option<bool>,
    preferredHostels: Option<seq<HostelRef>>,
    preferredBlock: Option<string>,
    amenities: Option<Amenities>)

  /** The preferred block written: the body's own when truthy, otherwise
      derived from the first hostel of the list when that one is a number,
      otherwise none. A numeric hostel later in the list is not looked at. */
  function DerivedPreferredBlock(body: PreferencesBody): (b: Option<string>)
    ensures Truthy(body.preferredBlock) ==> b == body.preferredBlock
    ensures !Truthy(body.preferredBlock) ==>
      (b.Some? <==> body.preferredHostels.Some? && |body.preferredHostels.value| > 0
                    && body.preferredHostels.value[0].HostelNo?)
    ensures !Truthy(body.preferredBlock) && b.Some? ==> b == Some(DeriveBlockType(body.preferredHostels.value[0].number))
  {
    if Truthy(body.preferredBlock) then body.preferredBlock
    else if body.preferredHostels.Some? && |body.preferredHostels.value| > 0 && body.preferredHostels.value[0].HostelNo? then
      Some(DeriveBlockType(body.preferredHostels.value[0].number))
    else None
  }

  /** The profile `setPreferences` leaves behind: present body values
      overwrite, absent ones keep the stored value (or the default on
      insert). Room pointer and status are never touched. */
  function PreferencesApplied(db: Db, u: UserId, body: PreferencesBody): (p: Profile)
    ensures p.user == u
    ensures u in db.profiles ==> p.assignedRoom == db.profiles[u].assignedRoom && p.status == db.profiles[u].status
    ensures u !in db.profiles ==> p.assignedRoom.None? && p.status == Pending
    ensures body.preferredSeater.Some? ==> p.preferredSeater == body.preferredSeater
    ensures body.preferredAC.Some? ==> p.preferredAC == body.preferredAC
    ensures body.foodPreference.Some? ==> p.foodPreference == body.foodPreference
    ensures body.preferredHostels.Some? ==> p.preferredHostels == body.preferredHostels
    ensures DerivedPreferredBlock(body).Some? ==> p.preferredBlock == DerivedPreferredBlock(body)
  {
    var block := DerivedPreferredBlock(body);
    if u in db.profiles then
      var old_ := db.profiles[u];
      old_.(user := u,
            foodPreference := if body.foodPreference.Some? then body.foodPreference else old_.foodPreference,
            preferredSeater := if body.preferredSeater.Some? then body.preferredSeater else old_.preferredSeater,
            preferredAC := if body.preferredAC.Some? then body.preferredAC else old_.preferredAC,
            preferredHostels := if body.preferredHostels.Some? then body.preferredHostels else old_.preferredHostels,
            preferredBlock := if block.Some? then block else old_.preferredBlock,
            amenities := Overwrite(old_.amenities, body.amenities))
    else
      NewProfile(u, body.foodPreference, body.preferredSeater, body.preferredAC, body.preferredHostels,
                 block, body.amenities)
  }

  /** `setPreferences` as written: an upsert keyed by user that runs no
      schema validation. */
  function SetPreferences(db: Db, u: UserId, body: PreferencesBody): (o: Outcome<Profile>)
    ensures o.result == Ok(PreferencesApplied(db, u, body))
    ensures o.db.profiles == db.profiles[u := PreferencesApplied(db, u, body)]
    ensures o.db.rooms == db.rooms && o.db.roomOrder == db.roomOrder && o.db.swaps == db.swaps
    ensures o.db.applications == db.applications && o.db.nextId == db.nextId
    ensures o.db.profileOrder == if u in db.profiles then db.profileOrder else db.profileOrder + [u]
  {
    var p := PreferencesApplied(db, u, body);
    var order := if u in db.profiles then db.profileOrder else db.profileOrder + [u];
    Outcome(db.(profiles := db.profiles[u := p], profileOrder := order), Ok(p))
  }

  /** `setPreferences` with the schema enforced: a profile that would fail
      validation is refused and nothing is written. */
  function SetPreferencesValidated(db: Db, u: UserId, body: PreferencesBody): (o: Outcome<Profile>)
    ensures o.result.Ok? <==> ProfileSchemaValid(PreferencesApplied(db, u, body))
    ensures o.result.Ok? ==> o == SetPreferences(db, u, body)
    ensures o.result.Err? ==> o == Outcome(db, Err(ValidationError))
  {
    if ProfileSchemaValid(PreferencesApplied(db, u, body)) then SetPreferences(db, u, body)
    else Outcome(db, Err(ValidationError))
  }
}
