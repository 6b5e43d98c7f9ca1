/** The allocation store: the room and profile collections with their
    storage order, the swap requests and change applications, and the
    invariants the allocation engine is meant to keep. */
module AllocationState {
  import opened Common
  import opened Rooms
  import opened Profiles
  import opened ChangeApplications
  import opened SwapRequests

  /** The four collections. `nextId` is the next fresh document id; rooms,
      swap requests and applications draw from it. */
  datatype Db = Db(
    rooms: map<RoomId, Room>,
    roomOrder: seq<RoomId>,
    profiles: map<UserId, Profile>,
    profileOrder: seq<UserId>,
    swaps: map<DocId, SwapRequest>,
    applications: map<DocId, ChangeApplication>,
    nextId: nat)

  /** Why an operation stopped. The first eight are the controller's own
      4xx answers; the last two are the 500s of a failed schema validation
      and of a dereferenced null. */
  datatype Failure =
    | MissingField
    | PreferencesNotSet
    | AlreadyAssigned
    | NoRoomAvailable
    | MissingAssignment
    | IncompatibleRoomTypes
    | InvalidDecision
    | NotFound
    | ValidationError
    | ServerError

  /** The store after an operation and what the operation answered. A
      failure does not roll back the writes made before it. */
  datatype Outcome<+T> = Outcome(db: Db, result: Result<T, Failure>)

  /** Capacity: no occupied room holds more students than its capacity, and
      no student is listed twice in a room. */
  predicate RoomsWithinCapacity(db: Db) {
    forall id :: id in db.rooms ==> WithinCapacity(db.rooms[id]) && NoDup(db.rooms[id].occupants)
  }

  /** Profiles are stored under their own user (one profile per user). */
  predicate ProfilesKeyed(db: Db) {
    forall u :: u in db.profiles ==> db.profiles[u].user == u
  }

  /** Pointer consistency, profile side: a profile has a room exactly when
      its status is not `pending`, and the room it points to exists and
      lists the student. */
  predicate PointersConsistent(db: Db) {
    forall u :: u in db.profiles ==>
      (db.profiles[u].assignedRoom.Some? <==> db.profiles[u].status != Pending)
      && (db.profiles[u].assignedRoom.Some? ==>
            db.profiles[u].assignedRoom.value in db.rooms
            && u in db.rooms[db.profiles[u].assignedRoom.value].occupants)
  }

  /** Pointer consistency, room side: every occupant has a profile that
      points back to that room, so a student occupies at most one room. */
  predicate OccupantsConsistent(db: Db) {
    forall id, u :: id in db.rooms && u in db.rooms[id].occupants ==>
      u in db.profiles && db.profiles[u].assignedRoom == Some(id)
  }

  /** Storage order lists every stored document once, and every id in use
      is below `nextId`. */
  predicate Catalogued(db: Db) {
    NoDup(db.roomOrder) && (forall id :: id in db.roomOrder ==> id in db.rooms)
    && (forall id :: id in db.rooms ==> id in db.roomOrder)
    && NoDup(db.profileOrder) && (forall u :: u in db.profileOrder ==> u in db.profiles)
    && (forall u :: u in db.profiles ==> u in db.profileOrder)
    && (forall id :: id in db.rooms ==> id < db.nextId)
    && (forall id :: id in db.swaps ==> id < db.nextId)
    && (forall id :: id in db.applications ==> id < db.nextId)
  }

  /** Every stored profile, swap request and application passes its schema. */
  predicate SchemasValid(db: Db) {
    (forall u :: u in db.profiles ==> ProfileSchemaValid(db.profiles[u]))
    && (forall id :: id in db.swaps ==> SwapSchemaValid(db.swaps[id]))
    && (forall id :: id in db.applications ==> ApplicationComplete(db.applications[id]))
  }

  /** Everything but the schemas: the state invariants proper. */
  predicate Consistent(db: Db) {
    RoomsWithinCapacity(db) && ProfilesKeyed(db) && PointersConsistent(db)
    && OccupantsConsistent(db) && Catalogued(db)
  }

  predicate Valid(db: Db) {
    Consistent(db) && SchemasValid(db)
  }

  /** The empty store is valid. */
  const Empty: Db := Db(map[], [], map[], [], map[], map[], 0)

  lemma EmptyValid()
    ensures Valid(Empty)
  {
  }

  /** A student holds a room that exists: what `populate('assignedRoom')`
      yields as non-null. */
  predicate HoldsRoom(db: Db, u: UserId) {
    u in db.profiles && db.profiles[u].assignedRoom.Some? && db.profiles[u].assignedRoom.value in db.rooms
  }

  /** In a consistent store, a student holds a room iff some room lists
      them, and that room is the one the profile names. */
  lemma HoldsRoomIffListed(db: Db, u: UserId)
    requires Consistent(db)
    ensures HoldsRoom(db, u) <==> exists id :: id in db.rooms && u in db.rooms[id].occupants
    ensures forall id :: id in db.rooms && u in db.rooms[id].occupants ==> db.profiles[u].assignedRoom == Some(id)
  {
    if HoldsRoom(db, u) {
      var id := db.profiles[u].assignedRoom.value;
      assert id in db.rooms && u in db.rooms[id].occupants;
    }
  }

  /** `Room.updateOne({_id}, {$addToSet: {occupants: u}})`; an unknown id
      updates nothing. */
  function AddOccupant(db: Db, id: RoomId, u: UserId): (r: Db)
    ensures r.roomOrder == db.roomOrder && r.profiles == db.profiles && r.profileOrder == db.profileOrder
    ensures r.swaps == db.swaps && r.applications == db.applications && r.nextId == db.nextId
    ensures r.rooms.Keys == db.rooms.Keys
    ensures forall k :: k in db.rooms && k != id ==> r.rooms[k] == db.rooms[k]
    ensures id in db.rooms ==> r.rooms[id] == db.rooms[id].(occupants := AddToSet(db.rooms[id].occupants, u))
  {
    if id in db.rooms then
      db.(rooms := db.rooms[id := db.rooms[id].(occupants := AddToSet(db.rooms[id].occupants, u))])
    else db
  }

  /** `Room.updateOne({_id}, {$pull: {occupants: u}})`. */
  function PullOccupant(db: Db, id: RoomId, u: UserId): (r: Db)
    ensures r.roomOrder == db.roomOrder && r.profiles == db.profiles && r.profileOrder == db.profileOrder
    ensures r.swaps == db.swaps && r.applications == db.applications && r.nextId == db.nextId
    ensures r.rooms.Keys == db.rooms.Keys
    ensures forall k :: k in db.rooms && k != id ==> r.rooms[k] == db.rooms[k]
    ensures id in db.rooms ==> r.rooms[id] == db.rooms[id].(occupants := RemoveAll(db.rooms[id].occupants, u))
  {
    if id in db.rooms then
      db.(rooms := db.rooms[id := db.rooms[id].(occupants := RemoveAll(db.rooms[id].occupants, u))])
    else db
  }

  /** `save()` of the profile document of user `u`: the schema is checked
      first; a failing check writes nothing. */
  function SaveProfile(db: Db, u: UserId, p: Profile): (o: Outcome<()>)
    ensures o.result.Ok? <==> ProfileSchemaValid(p)
    ensures o.result.Ok? ==> o.db == db.(profiles := db.profiles[u := p])
    ensures o.result.Err? ==> o.db == db && o.result.error == ValidationError
  {
    if ProfileSchemaValid(p) then Outcome(db.(profiles := db.profiles[u := p]), Ok(()))
    else Outcome(db, Err(ValidationError))
  }
}
