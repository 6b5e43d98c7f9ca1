/** What the allocation engine keeps: every operation, started from a valid
    store, leaves a valid store (capacity, pointer consistency, catalogue,
    schemas), except where noted; and the swap, batch and re-decision
    behaviour the controller has. */
module AllocationProofs {
  import opened Common
  import opened Rooms
  import opened Profiles
  import opened ChangeApplications
  import opened SwapRequests
  import opened Matcher
  import opened AllocationState
  import opened Allocation

  /* ---------------- facts about consistent stores ---------------- */

  /** A student without a room is listed in no room. */
  lemma UnassignedNotListed(db: Db, u: UserId)
    requires Consistent(db) && u in db.profiles && db.profiles[u].assignedRoom.None?
    ensures forall id :: id in db.rooms ==> u !in db.rooms[id].occupants
  {
  }

  /** A student with a room is listed in that room and in no other. */
  lemma ListedOnlyInOwnRoom(db: Db, u: UserId)
    requires Consistent(db) && u in db.profiles && db.profiles[u].assignedRoom.Some?
    ensures db.profiles[u].assignedRoom.value in db.rooms
    ensures u in db.rooms[db.profiles[u].assignedRoom.value].occupants
    ensures forall id :: id in db.rooms && id != db.profiles[u].assignedRoom.value ==> u !in db.rooms[id].occupants
  {
  }

  /* ---------------- one room and one profile rewritten ---------------- */

  /** The store with room `id` replaced by `nr` and the profile of `u`
      replaced by `np`: the shape of every single-student step. */
  function Rewrite(db: Db, id: RoomId, nr: Room, u: UserId, np: Profile): Db {
    db.(rooms := db.rooms[id := nr], profiles := db.profiles[u := np])
  }

  lemma RewriteCapacity(db: Db, id: RoomId, nr: Room, u: UserId, np: Profile)
    requires RoomsWithinCapacity(db) && WithinCapacity(nr) && NoDup(nr.occupants)
    ensures RoomsWithinCapacity(Rewrite(db, id, nr, u, np))
  {
  }

  lemma RewritePointers(db: Db, id: RoomId, nr: Room, u: UserId, np: Profile)
    requires PointersConsistent(db) && id in db.rooms
    requires forall w :: w in db.rooms[id].occupants && w != u ==> w in nr.occupants
    requires np.assignedRoom.Some? <==> np.status != Pending
    requires np.assignedRoom.Some? ==>
      (np.assignedRoom.value in db.rooms
       && u in (if np.assignedRoom.value == id then nr else db.rooms[np.assignedRoom.value]).occupants)
    ensures PointersConsistent(Rewrite(db, id, nr, u, np))
  {
    var d := Rewrite(db, id, nr, u, np);
    forall w | w in d.profiles && w != u && d.profiles[w].assignedRoom.Some?
      ensures w in d.rooms[d.profiles[w].assignedRoom.value].occupants
    {
      assert d.profiles[w] == db.profiles[w];
    }
  }

  lemma RewriteOccupants(db: Db, id: RoomId, nr: Room, u: UserId, np: Profile)
    requires OccupantsConsistent(db) && id in db.rooms
    requires forall w :: w in nr.occupants ==> (w == u && np.assignedRoom == Some(id)) || (w != u && w in db.rooms[id].occupants)
    requires forall k :: k in db.rooms && k != id && u in db.rooms[k].occupants ==> np.assignedRoom == Some(k)
    ensures OccupantsConsistent(Rewrite(db, id, nr, u, np))
  {
  }

  lemma RewriteKeepsValid(db: Db, id: RoomId, nr: Room, u: UserId, np: Profile)
    requires Valid(db) && id in db.rooms && u in db.profiles
    requires WithinCapacity(nr) && NoDup(nr.occupants)
    requires np.user == u && ProfileSchemaValid(np)
    requires forall w :: w in db.rooms[id].occupants && w != u ==> w in nr.occupants
    requires np.assignedRoom.Some? <==> np.status != Pending
    requires np.assignedRoom.Some? ==>
      (np.assignedRoom.value in db.rooms
       && u in (if np.assignedRoom.value == id then nr else db.rooms[np.assignedRoom.value]).occupants)
    requires forall w :: w in nr.occupants ==> (w == u && np.assignedRoom == Some(id)) || (w != u && w in db.rooms[id].occupants)
    requires forall k :: k in db.rooms && k != id && u in db.rooms[k].occupants ==> np.assignedRoom == Some(k)
    ensures Valid(Rewrite(db, id, nr, u, np))
  {
    RewriteCapacity(db, id, nr, u, np);
    RewritePointers(db, id, nr, u, np);
    RewriteOccupants(db, id, nr, u, np);
  }

  /* ---------------- placing and releasing ---------------- */

  /** Placing a roomless student into a room with space succeeds and keeps
      the store valid: the room stays within capacity and the new pointer
      matches the new occupant. */
  lemma PlaceKeepsValid(db: Db, u: UserId, id: RoomId)
    requires Valid(db) && u in db.profiles && db.profiles[u].assignedRoom.None?
    requires id in db.rooms && HasSpace(db.rooms[id])
    ensures Place(db, u, db.profiles[u], id).result == Ok(id)
    ensures Valid(Place(db, u, db.profiles[u], id).db)
  {
    var p := db.profiles[u];
    var r := db.rooms[id];
    UnassignedNotListed(db, u);
    AddToSetKeepsNoDup(r.occupants, u);
    var nr := r.(occupants := AddToSet(r.occupants, u));
    var np := p.(assignedRoom := Some(id), status := Assigned);
    RewriteKeepsValid(db, id, nr, u, np);
    assert Place(db, u, p, id).db == Rewrite(db, id, nr, u, np);
  }

  /** Releasing a student's room (pull, clear the pointer, status
      `pending`) succeeds and keeps the store valid. */
  lemma ReleaseKeepsValid(db: Db, u: UserId)
    requires Valid(db) && u in db.profiles && db.profiles[u].assignedRoom.Some?
    ensures var p := db.profiles[u];
      var o := SaveProfile(PullOccupant(db, p.assignedRoom.value, u), u, p.(assignedRoom := None, status := Pending));
      o.result.Ok? && Valid(o.db)
  {
    var p := db.profiles[u];
    var id := p.assignedRoom.value;
    var r := db.rooms[id];
    ListedOnlyInOwnRoom(db, u);
    RemoveAllKeepsNoDup(r.occupants, u);
    RemoveAllLength(r.occupants, u);
    var nr := r.(occupants := RemoveAll(r.occupants, u));
    var np := p.(assignedRoom := None, status := Pending);
    RewriteKeepsValid(db, id, nr, u, np);
    assert SaveProfile(PullOccupant(db, id, u), u, np).db == Rewrite(db, id, nr, u, np);
  }

  /* ---------------- single assignment ---------------- */

  /** `autoAssignRoom` keeps the store valid, and on a valid store its save
      never fails: the only answers are the room or one of the three
      refusals. */
  lemma AutoAssignKeepsValid(db: Db, u: UserId)
    requires Valid(db)
    ensures Valid(AutoAssign(db, u).db)
    ensures AutoAssign(db, u).result.Ok?
            || AutoAssign(db, u).result.error in {PreferencesNotSet, AlreadyAssigned, NoRoomAvailable}
  {
    if u in db.profiles && db.profiles[u].assignedRoom.None? {
      var m := FirstFit(db.rooms, db.roomOrder, db.profiles[u]);
      if m.Some? {
        PlaceKeepsValid(db, u, m.value);
      }
    }
  }

  /* ---------------- profile-only rewrites ---------------- */

  lemma RewriteProfilePointers(db: Db, u: UserId, np: Profile)
    requires PointersConsistent(db) && u in db.profiles
    requires np.assignedRoom == db.profiles[u].assignedRoom
    requires np.assignedRoom.Some? <==> np.status != Pending
    ensures PointersConsistent(db.(profiles := db.profiles[u := np]))
  {
    var d := db.(profiles := db.profiles[u := np]);
    forall w | w in d.profiles && d.profiles[w].assignedRoom.Some?
      ensures w in d.rooms[d.profiles[w].assignedRoom.value].occupants
    {
      if w != u {
        assert d.profiles[w] == db.profiles[w];
      }
    }
  }

  lemma RewriteProfileOccupants(db: Db, u: UserId, np: Profile)
    requires OccupantsConsistent(db) && u in db.profiles
    requires np.assignedRoom == db.profiles[u].assignedRoom
    ensures OccupantsConsistent(db.(profiles := db.profiles[u := np]))
  {
  }

  /** Replacing a profile by one with the same room pointer, a status that
      agrees with it, and a valid schema keeps the store valid. */
  lemma RewriteProfileKeepsValid(db: Db, u: UserId, np: Profile)
    requires Valid(db) && u in db.profiles
    requires np.user == u && ProfileSchemaValid(np)
    requires np.assignedRoom == db.profiles[u].assignedRoom
    requires np.assignedRoom.Some? <==> np.status != Pending
    ensures Valid(db.(profiles := db.profiles[u := np]))
  {
    RewriteProfilePointers(db, u, np);
    RewriteProfileOccupants(db, u, np);
  }

  /** An approved application's rewrite keeps a valid profile valid: the
      desired values are checked by the application's own schema. */
  lemma ApplyToPreferencesKeepsSchema(p: Profile, a: ChangeApplication)
    requires ProfileSchemaValid(p) && ApplicationComplete(a)
    ensures ProfileSchemaValid(ApplyToPreferences(p, a))
  {
    var q := ApplyToPreferences(p, a);
    if a.kind == HostelChange {
      var h := a.desiredHostel.value;
      assert PreferredHostelsValid(Some([h])) by {
        assert forall i :: 0 <= i < |[h]| ==> [h][i] == h;
      }
    }
  }

  /* ---------------- re-matching after an approval ---------------- */

  /** Only the occupants of rooms differ between the two stores. */
  predicate OnlyOccupantsChanged(d1: Db, d2: Db) {
    d1.rooms.Keys == d2.rooms.Keys
    && forall k :: k in d1.rooms ==> d2.rooms[k] == d1.rooms[k].(occupants := d2.rooms[k].occupants)
  }

  lemma AddOccupantOnlyOccupants(db: Db, id: RoomId, u: UserId)
    ensures OnlyOccupantsChanged(db, AddOccupant(db, id, u))
  {
  }

  lemma PullOccupantOnlyOccupants(db: Db, id: RoomId, u: UserId)
    ensures OnlyOccupantsChanged(db, PullOccupant(db, id, u))
  {
  }

  /** The re-match of a roomless student with a valid profile is the first
      fit, or nothing. */
  lemma RematchUnassignedShape(db: Db, u: UserId, p: Profile)
    requires p.assignedRoom.None? && ProfileSchemaValid(p)
    ensures var m := FirstFit(db.rooms, db.roomOrder, p);
      Rematch(db, u, p) == Outcome(if m.Some? then Place(db, u, p, m.value).db else db, Ok(()))
  {
  }

  /** The match half of the re-match, for a student who holds no room. */
  lemma RematchUnassigned(db: Db, u: UserId)
    requires Valid(db) && u in db.profiles && db.profiles[u].assignedRoom.None?
    ensures var o := Rematch(db, u, db.profiles[u]);
      o.result.Ok? && Valid(o.db) && u in o.db.profiles && OnlyOccupantsChanged(db, o.db)
    ensures var p := db.profiles[u];
      var o := Rematch(db, u, p);
      var q := o.db.profiles[u];
      q == p.(assignedRoom := q.assignedRoom, status := q.status)
      && (q.assignedRoom.Some? ==>
            q.status == Assigned && q.assignedRoom.value in db.rooms && Eligible(db.rooms[q.assignedRoom.value], p))
      && (q.assignedRoom.None? ==>
            q.status == Pending
            && forall id :: id in o.db.roomOrder && id in o.db.rooms && Eligible(o.db.rooms[id], p) ==> !HasSpace(o.db.rooms[id]))
  {
    var p := db.profiles[u];
    var m := FirstFit(db.rooms, db.roomOrder, p);
    RematchUnassignedShape(db, u, p);
    if m.Some? {
      var d := Place(db, u, p, m.value).db;
      assert Rematch(db, u, p) == Outcome(d, Ok(()));
      PlaceKeepsValid(db, u, m.value);
      assert d.profiles[u] == p.(assignedRoom := m, status := Assigned);
      AddOccupantOnlyOccupants(db, m.value, u);
      assert d.rooms == AddOccupant(db, m.value, u).rooms;
    } else {
      assert Rematch(db, u, p) == Outcome(db, Ok(()));
    }
  }

  /** The re-match of a student who holds a room is the release followed by
      the re-match of the released, roomless profile. */
  lemma RematchAssignedShape(db: Db, u: UserId, p: Profile)
    requires p.assignedRoom.Some? && ProfileSchemaValid(p)
    ensures var q := p.(assignedRoom := None, status := Pending);
      Rematch(db, u, p) == Rematch(SaveProfile(PullOccupant(db, p.assignedRoom.value, u), u, q).db, u, q)
  {
  }

  /** Matching looks at the preferences only: not at the room's occupants,
      not at the profile's pointer or status. */
  lemma EligibleIgnoresState(r: Room, occupants: seq<UserId>, p: Profile, room: Option<RoomId>, status: ProfileStatus)
    ensures Eligible(r.(occupants := occupants), p.(assignedRoom := room, status := status)) == Eligible(r, p)
  {
  }

  /** The release-and-re-match of an approval keeps the store valid and
      never fails on a valid store; the student ends either in a room that
      is eligible for the stored preferences, or `pending` and roomless
      with every eligible room full. Preferences are not touched. */
  lemma RematchKeepsValid(db: Db, u: UserId)
    requires Valid(db) && u in db.profiles
    ensures var o := Rematch(db, u, db.profiles[u]);
      o.result.Ok? && Valid(o.db) && u in o.db.profiles
    ensures var p := db.profiles[u];
      var o := Rematch(db, u, p);
      var q := o.db.profiles[u];
      q == p.(assignedRoom := q.assignedRoom, status := q.status)
      && (q.assignedRoom.Some? ==>
            q.status == Assigned && q.assignedRoom.value in db.rooms && Eligible(db.rooms[q.assignedRoom.value], p))
      && (q.assignedRoom.None? ==>
            q.status == Pending
            && forall id :: id in o.db.roomOrder && id in o.db.rooms && Eligible(o.db.rooms[id], p) ==> !HasSpace(o.db.rooms[id]))
  {
    var p := db.profiles[u];
    if p.assignedRoom.Some? {
      var q := p.(assignedRoom := None, status := Pending);
      var d1 := SaveProfile(PullOccupant(db, p.assignedRoom.value, u), u, q).db;
      ReleaseKeepsValid(db, u);
      RematchAssignedShape(db, u, p);
      PullOccupantOnlyOccupants(db, p.assignedRoom.value, u);
      assert d1.rooms == PullOccupant(db, p.assignedRoom.value, u).rooms;
      assert d1.profiles[u] == q;
      RematchUnassigned(d1, u);
      var o := Rematch(d1, u, q);
      var x := o.db.profiles[u];
      if x.assignedRoom.Some? {
        var k := x.assignedRoom.value;
        EligibleIgnoresState(db.rooms[k], d1.rooms[k].occupants, p, None, Pending);
        assert d1.rooms[k] == db.rooms[k].(occupants := d1.rooms[k].occupants);
      } else {
        forall k | k in o.db.roomOrder && k in o.db.rooms && Eligible(o.db.rooms[k], p)
          ensures !HasSpace(o.db.rooms[k])
        {
          EligibleIgnoresState(o.db.rooms[k], o.db.rooms[k].occupants, p, None, Pending);
        }
      }
    } else {
      RematchUnassigned(db, u);
    }
  }

  /* ---------------- decisions on applications ---------------- */

  /** Saving a decided application keeps the store valid. */
  lemma SaveApplicationKeepsValid(db: Db, id: DocId, a: ChangeApplication)
    requires Valid(db) && id in db.applications && ApplicationComplete(a)
    ensures Valid(db.(applications := db.applications[id := a]))
  {
  }

  /** The approval path of `decideApplication` once the decided
      application passes its schema, the student has a profile and the
      rewritten preferences pass theirs: the answer is that of the re-match
      of the rewritten profile, in the store holding the decided
      application. */
  lemma ApprovePathShape(db: Db, id: DocId, adminNote: Option<string>)
    requires id in db.applications
    requires ApplicationSchemaValid(db.applications[id].(status := AppApproved, adminNote := adminNote))
    requires db.applications[id].user in db.profiles
    requires ProfileSchemaValid(ApplyToPreferences(db.profiles[db.applications[id].user], db.applications[id]))
    ensures var a := db.applications[id].(status := AppApproved, adminNote := adminNote);
      var saved := db.(applications := db.applications[id := a]);
      var p := ApplyToPreferences(db.profiles[a.user], a);
      var m := Rematch(saved.(profiles := saved.profiles[a.user := p]), a.user, p);
      DecideApplication(db, id, "approve", adminNote) == Outcome(m.db, if m.result.Ok? then Ok(a) else Err(m.result.error))
  {
    var a := db.applications[id].(status := AppApproved, adminNote := adminNote);
    var saved := db.(applications := db.applications[id := a]);
    assert saved.profiles == db.profiles;
    var p := ApplyToPreferences(saved.profiles[a.user], a);
    assert SaveProfile(saved, a.user, p) == Outcome(saved.(profiles := saved.profiles[a.user := p]), Ok(()));
  }

  /** The rewrite-and-re-match half of an approval, on a valid store: it
      never fails, keeps the store valid, and leaves the student with the
      rewritten preferences in an eligible room, or `pending` with every
      eligible room full. */
  lemma ApprovedRematch(saved: Db, a: ChangeApplication)
    requires Valid(saved) && a.user in saved.profiles && ApplicationComplete(a)
    ensures var p := ApplyToPreferences(saved.profiles[a.user], a);
      ProfileSchemaValid(p)
      && var m := Rematch(saved.(profiles := saved.profiles[a.user := p]), a.user, p);
      m.result.Ok? && Valid(m.db) && a.user in m.db.profiles && m.db.applications == saved.applications
    ensures var p := ApplyToPreferences(saved.profiles[a.user], a);
      var m := Rematch(saved.(profiles := saved.profiles[a.user := p]), a.user, p);
      var q := m.db.profiles[a.user];
      q == p.(assignedRoom := q.assignedRoom, status := q.status)
      && (q.assignedRoom.Some? ==>
            q.status == Assigned && q.assignedRoom.value in saved.rooms && Eligible(saved.rooms[q.assignedRoom.value], p))
      && (q.assignedRoom.None? ==>
            q.status == Pending
            && forall k :: k in m.db.roomOrder && k in m.db.rooms && Eligible(m.db.rooms[k], p) ==> !HasSpace(m.db.rooms[k]))
  {
    var p := ApplyToPreferences(saved.profiles[a.user], a);
    ApplyToPreferencesKeepsSchema(saved.profiles[a.user], a);
    RewriteProfileKeepsValid(saved, a.user, p);
    var rewritten := saved.(profiles := saved.profiles[a.user := p]);
    assert rewritten.profiles[a.user] == p;
    RematchKeepsValid(rewritten, a.user);
  }

  /** `decideApplication` keeps the store valid, whatever the decision and
      whatever the application's previous status; the only failures on a
      valid store are the two refusals and the missing profile, and the
      last leaves the application decided. */
  lemma DecideApplicationKeepsValid(db: Db, id: DocId, decision: string, adminNote: Option<string>)
    requires Valid(db)
    ensures Valid(DecideApplication(db, id, decision, adminNote).db)
    ensures var o := DecideApplication(db, id, decision, adminNote);
      o.result.Ok? || o.result.error in {InvalidDecision, NotFound, ServerError}
    ensures DecideApplication(db, id, decision, adminNote).result == Err(ServerError) ==>
      decision == "approve" && id in db.applications && db.applications[id].user !in db.profiles
  {
    if IsDecision(decision) && id in db.applications {
      var a := db.applications[id].(status := if decision == "approve" then AppApproved else AppRejected,
                                    adminNote := adminNote);
      DecidingKeepsValid(db.applications[id], a.status, adminNote);
      SaveApplicationKeepsValid(db, id, a);
      var saved := db.(applications := db.applications[id := a]);
      if decision == "approve" && a.user in db.profiles {
        assert saved.profiles == db.profiles;
        ApprovedRematch(saved, a);
        assert ApplyToPreferences(db.profiles[a.user], db.applications[id]) == ApplyToPreferences(db.profiles[a.user], a);
        ApprovePathShape(db, id, adminNote);
      }
    }
  }

  /** Approving an application whose student has a profile rewrites the
      preferences and re-matches with them: the student ends in a room
      eligible for the new preferences, or `pending` and roomless with every
      such room full. */
  lemma ApproveApplicationRematches(db: Db, id: DocId, adminNote: Option<string>)
    requires Valid(db) && id in db.applications && db.applications[id].user in db.profiles
    ensures var a := db.applications[id];
      var o := DecideApplication(db, id, "approve", adminNote);
      o.result == Ok(a.(status := AppApproved, adminNote := adminNote))
      && a.user in o.db.profiles && id in o.db.applications
      && o.db.applications[id].status == AppApproved
    ensures var a := db.applications[id];
      var o := DecideApplication(db, id, "approve", adminNote);
      var want := ApplyToPreferences(db.profiles[a.user], a);
      var q := o.db.profiles[a.user];
      q == want.(assignedRoom := q.assignedRoom, status := q.status)
      && (q.assignedRoom.Some? ==>
            q.status == Assigned && q.assignedRoom.value in db.rooms && Eligible(db.rooms[q.assignedRoom.value], want))
      && (q.assignedRoom.None? ==>
            q.status == Pending
            && forall k :: k in o.db.roomOrder && k in o.db.rooms && Eligible(o.db.rooms[k], want) ==> !HasSpace(o.db.rooms[k]))
  {
    var a := db.applications[id].(status := AppApproved, adminNote := adminNote);
    DecidingKeepsValid(db.applications[id], AppApproved, adminNote);
    SaveApplicationKeepsValid(db, id, a);
    var saved := db.(applications := db.applications[id := a]);
    assert saved.profiles == db.profiles && saved.rooms == db.rooms;
    ApprovedRematch(saved, a);
    assert ApplyToPreferences(db.profiles[a.user], db.applications[id]) == ApplyToPreferences(db.profiles[a.user], a);
    ApprovePathShape(db, id, adminNote);
  }

  /** Neither decision looks at the previous status: deciding an already
      decided application does the same as deciding a pending one. */
  lemma DecideApplicationIgnoresStatus(db: Db, id: DocId, decision: string, adminNote: Option<string>,
                                       s: ApplicationStatus)
    requires IsDecision(decision) && id in db.applications && ApplicationSchemaValid(db.applications[id])
    ensures var d := db.(applications := db.applications[id := db.applications[id].(status := s)]);
      DecideApplication(d, id, decision, adminNote) == DecideApplication(db, id, decision, adminNote)
  {
    var d := db.(applications := db.applications[id := db.applications[id].(status := s)]);
    var st := if decision == "approve" then AppApproved else AppRejected;
    var a := db.applications[id].(status := st, adminNote := adminNote);
    assert d.applications[id].(status := st, adminNote := adminNote) == a;
    assert d.applications[id := a] == db.applications[id := a];
    var saved := db.(applications := db.applications[id := a]);
    assert d.(applications := d.applications[id := a]) == saved;
    if decision == "approve" && a.user in saved.profiles {
      var p := ApplyToPreferences(saved.profiles[a.user], a);
      var rewritten := SaveProfile(saved, a.user, p);
      assert DecideApplication(d, id, decision, adminNote) == DecideApplication(db, id, decision, adminNote) by {
        assert rewritten.result.Ok? ==>
          DecideApplication(db, id, decision, adminNote).db == Rematch(rewritten.db, a.user, p).db;
      }
    }
  }

  /* ---------------- creating requests ---------------- */

  /** `applyChange` keeps the store valid: a stored application passes its
      schema and has the fields its kind needs. */
  lemma ApplyChangeKeepsValid(db: Db, u: UserId, body: ChangeBody)
    requires Valid(db)
    ensures Valid(ApplyChange(db, u, body).db)
  {
  }

  /** Storing a new swap request under the fresh id keeps the store
      valid. */
  lemma AddSwapKeepsValid(db: Db, s: SwapRequest)
    requires Valid(db) && SwapSchemaValid(s)
    ensures Valid(db.(swaps := db.swaps[db.nextId := s], nextId := db.nextId + 1))
  {
  }

  /** `requestSwap` keeps the store valid: the initiator holds a room, so
      `swap_pending` agrees with its pointer, and the request's snapshot
      passes the schema. */
  lemma RequestSwapKeepsValid(db: Db, from: UserId, to: Option<UserId>, reason: Option<string>)
    requires Valid(db)
    ensures Valid(RequestSwap(db, from, to, reason).db)
  {
    var o := RequestSwap(db, from, to, reason);
    if o.result.Ok? {
      var a := db.rooms[db.profiles[from].assignedRoom.value];
      var s := NewSwap(from, to.value, reason, a.seater, a.ac);
      AddSwapKeepsValid(db, s);
      var created := db.(swaps := db.swaps[db.nextId := s], nextId := db.nextId + 1);
      RewriteProfileKeepsValid(created, from, created.profiles[from].(status := SwapPending));
    }
  }

  /* ---------------- approved swaps ---------------- */

  /** The store with two different rooms and two different profiles
      replaced: the shape of an exchange between two rooms. */
  function Rewrite2(db: Db, ra: RoomId, na: Room, rb: RoomId, nb: Room,
                    from: UserId, pa: Profile, to: UserId, pb: Profile): Db {
    db.(rooms := db.rooms[ra := na][rb := nb], profiles := db.profiles[from := pa][to := pb])
  }

  lemma Rewrite2Bookkeeping(db: Db, ra: RoomId, na: Room, rb: RoomId, nb: Room,
                            from: UserId, pa: Profile, to: UserId, pb: Profile)
    requires ProfilesKeyed(db) && Catalogued(db) && SchemasValid(db)
    requires ra in db.rooms && rb in db.rooms && from in db.profiles && to in db.profiles
    requires pa.user == from && ProfileSchemaValid(pa) && pb.user == to && ProfileSchemaValid(pb)
    ensures var d := Rewrite2(db, ra, na, rb, nb, from, pa, to, pb);
      ProfilesKeyed(d) && Catalogued(d) && SchemasValid(d)
  {
    var d := Rewrite2(db, ra, na, rb, nb, from, pa, to, pb);
    assert d.rooms.Keys == db.rooms.Keys && d.profiles.Keys == db.profiles.Keys;
  }

  lemma Rewrite2Capacity(db: Db, ra: RoomId, na: Room, rb: RoomId, nb: Room,
                         from: UserId, pa: Profile, to: UserId, pb: Profile)
    requires RoomsWithinCapacity(db)
    requires WithinCapacity(na) && NoDup(na.occupants) && WithinCapacity(nb) && NoDup(nb.occupants)
    ensures RoomsWithinCapacity(Rewrite2(db, ra, na, rb, nb, from, pa, to, pb))
  {
  }

  lemma Rewrite2Pointers(db: Db, ra: RoomId, na: Room, rb: RoomId, nb: Room,
                         from: UserId, pa: Profile, to: UserId, pb: Profile)
    requires PointersConsistent(db) && ra in db.rooms && rb in db.rooms && ra != rb && from != to
    requires forall w :: w in db.rooms[ra].occupants && w != from ==> w in na.occupants
    requires forall w :: w in db.rooms[rb].occupants && w != to ==> w in nb.occupants
    requires pa.assignedRoom == Some(rb) && pa.status != Pending && from in nb.occupants
    requires pb.assignedRoom == Some(ra) && pb.status != Pending && to in na.occupants
    ensures PointersConsistent(Rewrite2(db, ra, na, rb, nb, from, pa, to, pb))
  {
    var d := Rewrite2(db, ra, na, rb, nb, from, pa, to, pb);
    forall w | w in d.profiles && d.profiles[w].assignedRoom.Some?
      ensures w in d.rooms[d.profiles[w].assignedRoom.value].occupants
    {
      if w != from && w != to {
        assert d.profiles[w] == db.profiles[w];
      }
    }
  }

  lemma Rewrite2Occupants(db: Db, ra: RoomId, na: Room, rb: RoomId, nb: Room,
                          from: UserId, pa: Profile, to: UserId, pb: Profile)
    requires OccupantsConsistent(db) && ra in db.rooms && rb in db.rooms && ra != rb
    requires from in db.profiles && to in db.profiles
    requires forall w :: w in na.occupants ==> w == to || (w != from && w in db.rooms[ra].occupants)
    requires forall w :: w in nb.occupants ==> w == from || (w != to && w in db.rooms[rb].occupants)
    requires pa.assignedRoom == Some(rb) && pb.assignedRoom == Some(ra)
    requires db.profiles[from].assignedRoom == Some(ra) && db.profiles[to].assignedRoom == Some(rb)
    ensures OccupantsConsistent(Rewrite2(db, ra, na, rb, nb, from, pa, to, pb))
  {
  }

  lemma Rewrite2KeepsValid(db: Db, ra: RoomId, na: Room, rb: RoomId, nb: Room,
                           from: UserId, pa: Profile, to: UserId, pb: Profile)
    requires Valid(db) && ra in db.rooms && rb in db.rooms && ra != rb && from != to
    requires from in db.profiles && to in db.profiles
    requires WithinCapacity(na) && NoDup(na.occupants) && WithinCapacity(nb) && NoDup(nb.occupants)
    requires pa.user == from && ProfileSchemaValid(pa) && pb.user == to && ProfileSchemaValid(pb)
    requires forall w :: w in db.rooms[ra].occupants && w != from ==> w in na.occupants
    requires forall w :: w in db.rooms[rb].occupants && w != to ==> w in nb.occupants
    requires forall w :: w in na.occupants ==> w == to || (w != from && w in db.rooms[ra].occupants)
    requires forall w :: w in nb.occupants ==> w == from || (w != to && w in db.rooms[rb].occupants)
    requires pa.assignedRoom == Some(rb) && pa.status != Pending && from in nb.occupants
    requires pb.assignedRoom == Some(ra) && pb.status != Pending && to in na.occupants
    requires db.profiles[from].assignedRoom == Some(ra) && db.profiles[to].assignedRoom == Some(rb)
    ensures Valid(Rewrite2(db, ra, na, rb, nb, from, pa, to, pb))
  {
    Rewrite2Bookkeeping(db, ra, na, rb, nb, from, pa, to, pb);
    Rewrite2Capacity(db, ra, na, rb, nb, from, pa, to, pb);
    Rewrite2Pointers(db, ra, na, rb, nb, from, pa, to, pb);
    Rewrite2Occupants(db, ra, na, rb, nb, from, pa, to, pb);
  }

  /** The occupants room `ra` ends with when its student `from` leaves and
      `to` comes in. */
  function Exchanged(occupants: seq<UserId>, leaving: UserId, coming: UserId): seq<UserId> {
    AddToSet(RemoveAll(occupants, leaving), coming)
  }

  /** One student leaves, another who was not there comes in: no repeats,
      the same size, and exactly the expected members. */
  lemma ExchangedFacts(occupants: seq<UserId>, leaving: UserId, coming: UserId)
    requires NoDup(occupants) && leaving in occupants && coming !in occupants
    ensures NoDup(Exchanged(occupants, leaving, coming))
    ensures |Exchanged(occupants, leaving, coming)| == |occupants|
    ensures forall w :: w in Exchanged(occupants, leaving, coming) <==> w == coming || (w != leaving && w in occupants)
  {
    RemoveAllKeepsNoDup(occupants, leaving);
    RemoveAllLength(occupants, leaving);
    AddToSetKeepsNoDup(RemoveAll(occupants, leaving), coming);
  }

  /** What the approval writes when the two students hold different rooms
      that both exist. */
  lemma ExchangeDifferentShape(db: Db, from: UserId, to: UserId)
    requires from in db.profiles && to in db.profiles && from != to
    requires db.profiles[from].assignedRoom.Some? && db.profiles[to].assignedRoom.Some?
    requires db.profiles[from].assignedRoom != db.profiles[to].assignedRoom
    requires db.profiles[from].assignedRoom.value in db.rooms && db.profiles[to].assignedRoom.value in db.rooms
    requires ProfileSchemaValid(db.profiles[from]) && ProfileSchemaValid(db.profiles[to])
    ensures var ra := db.profiles[from].assignedRoom.value;
      var rb := db.profiles[to].assignedRoom.value;
      ExchangeRooms(db, from, to)
      == Outcome(Rewrite2(db,
                          ra, db.rooms[ra].(occupants := Exchanged(db.rooms[ra].occupants, from, to)),
                          rb, db.rooms[rb].(occupants := Exchanged(db.rooms[rb].occupants, to, from)),
                          from, db.profiles[from].(assignedRoom := Some(rb), status := Assigned),
                          to, db.profiles[to].(assignedRoom := Some(ra), status := Assigned)),
                 Ok(()))
  {
    var ra := db.profiles[from].assignedRoom.value;
    var rb := db.profiles[to].assignedRoom.value;
    var ex := ExchangeOccupants(db, from, ra, to, rb);
    assert ex.rooms == db.rooms[ra := db.rooms[ra].(occupants := Exchanged(db.rooms[ra].occupants, from, to))]
                               [rb := db.rooms[rb].(occupants := Exchanged(db.rooms[rb].occupants, to, from))];
  }

  /** Swapping two students in different rooms succeeds and keeps the
      store valid: each room loses its student and gains the other. */
  lemma ExchangeDifferentRooms(db: Db, from: UserId, to: UserId)
    requires Valid(db) && from in db.profiles && to in db.profiles
    requires db.profiles[from].assignedRoom.Some? && db.profiles[to].assignedRoom.Some?
    requires db.profiles[from].assignedRoom != db.profiles[to].assignedRoom
    ensures var o := ExchangeRooms(db, from, to);
      o.result.Ok? && Valid(o.db)
  {
    var a := db.profiles[from];
    var b := db.profiles[to];
    var ra := a.assignedRoom.value;
    var rb := b.assignedRoom.value;
    ListedOnlyInOwnRoom(db, from);
    ListedOnlyInOwnRoom(db, to);
    var occA := db.rooms[ra].occupants;
    var occB := db.rooms[rb].occupants;
    ExchangedFacts(occA, from, to);
    ExchangedFacts(occB, to, from);
    var na := db.rooms[ra].(occupants := Exchanged(occA, from, to));
    var nb := db.rooms[rb].(occupants := Exchanged(occB, to, from));
    var pa := a.(assignedRoom := Some(rb), status := Assigned);
    var pb := b.(assignedRoom := Some(ra), status := Assigned);
    ExchangeDifferentShape(db, from, to);
    Rewrite2KeepsValid(db, ra, na, rb, nb, from, pa, to, pb);
  }

  /** Both students leave the room and come back in: the same members, no
      repeats, the same size. This covers a request a student addressed to
      themself. */
  lemma ReshuffledFacts(occupants: seq<UserId>, from: UserId, to: UserId)
    requires NoDup(occupants) && from in occupants && to in occupants
    ensures var x := AddToSet(AddToSet(RemoveAll(RemoveAll(occupants, from), to), to), from);
      NoDup(x) && |x| == |occupants| && forall w :: w in x <==> w in occupants
  {
    var r1 := RemoveAll(occupants, from);
    RemoveAllKeepsNoDup(occupants, from);
    RemoveAllLength(occupants, from);
    var r2 := RemoveAll(r1, to);
    RemoveAllKeepsNoDup(r1, to);
    RemoveAllLength(r1, to);
    AddToSetKeepsNoDup(r2, to);
    AddToSetKeepsNoDup(AddToSet(r2, to), from);
  }

  /** What the approval writes when both students hold the same room. */
  lemma ExchangeSameRoomShape(db: Db, from: UserId, to: UserId)
    requires from in db.profiles && to in db.profiles
    requires db.profiles[from].assignedRoom.Some? && db.profiles[to].assignedRoom == db.profiles[from].assignedRoom
    requires db.profiles[from].assignedRoom.value in db.rooms
    requires ProfileSchemaValid(db.profiles[from]) && ProfileSchemaValid(db.profiles[to])
    ensures var r := db.profiles[from].assignedRoom.value;
      var occupants := db.rooms[r].occupants;
      ExchangeRooms(db, from, to)
      == Outcome(db.(rooms := db.rooms[r := db.rooms[r].(occupants :=
                        AddToSet(AddToSet(RemoveAll(RemoveAll(occupants, from), to), to), from))],
                     profiles := db.profiles[from := db.profiles[from].(status := Assigned)]
                                            [to := db.profiles[to].(status := Assigned)]),
                 Ok(()))
  {
    var r := db.profiles[from].assignedRoom.value;
    var occupants := db.rooms[r].occupants;
    var ex := ExchangeOccupants(db, from, r, to, r);
    var nr := db.rooms[r].(occupants := AddToSet(AddToSet(RemoveAll(RemoveAll(occupants, from), to), to), from));
    assert ex == db.(rooms := db.rooms[r := nr]);
    assert db.profiles[from].(assignedRoom := Some(r), status := Assigned) == db.profiles[from].(status := Assigned);
    assert db.profiles[to].(assignedRoom := Some(r), status := Assigned) == db.profiles[to].(status := Assigned);
  }

  /** Rewriting a room's occupants to the same members, without repeats and
      within capacity, keeps the store valid. */
  lemma SameMembersKeepsValid(db: Db, r: RoomId, nr: Room)
    requires Valid(db) && r in db.rooms && WithinCapacity(nr) && NoDup(nr.occupants)
    requires forall w :: w in nr.occupants <==> w in db.rooms[r].occupants
    ensures Valid(db.(rooms := db.rooms[r := nr]))
  {
    var d := db.(rooms := db.rooms[r := nr]);
    assert d.rooms.Keys == db.rooms.Keys && d.profiles == db.profiles;
    assert Catalogued(d);
    SameMembersLinks(db, r, nr);
  }

  /** The two sides of the pointers survive a rewrite of a room to the same
      members. */
  lemma SameMembersLinks(db: Db, r: RoomId, nr: Room)
    requires PointersConsistent(db) && OccupantsConsistent(db) && r in db.rooms
    requires forall w :: w in nr.occupants <==> w in db.rooms[r].occupants
    ensures PointersConsistent(db.(rooms := db.rooms[r := nr]))
    ensures OccupantsConsistent(db.(rooms := db.rooms[r := nr]))
  {
    var d := db.(rooms := db.rooms[r := nr]);
    forall id, u | id in d.rooms && u in d.rooms[id].occupants
      ensures u in d.profiles && d.profiles[u].assignedRoom == Some(id)
    {
      assert u in db.rooms[id].occupants;
    }
    forall w | w in d.profiles && d.profiles[w].assignedRoom.Some?
      ensures w in d.rooms[d.profiles[w].assignedRoom.value].occupants
    {
    }
  }

  /** Swapping two students of the same room, or a student with themself,
      keeps the store valid. */
  lemma ExchangeSameRoom(db: Db, from: UserId, to: UserId)
    requires Valid(db) && from in db.profiles && to in db.profiles
    requires db.profiles[from].assignedRoom.Some? && db.profiles[to].assignedRoom == db.profiles[from].assignedRoom
    ensures var o := ExchangeRooms(db, from, to);
      db.profiles[from].assignedRoom.value in db.rooms && o.result.Ok? && Valid(o.db)
  {
    var r := db.profiles[from].assignedRoom.value;
    ListedOnlyInOwnRoom(db, from);
    ListedOnlyInOwnRoom(db, to);
    var occ := db.rooms[r].occupants;
    ReshuffledFacts(occ, from, to);
    var nr := db.rooms[r].(occupants := AddToSet(AddToSet(RemoveAll(RemoveAll(occ, from), to), to), from));
    SameMembersKeepsValid(db, r, nr);
    var d0 := db.(rooms := db.rooms[r := nr]);
    var pa := db.profiles[from].(status := Assigned);
    RewriteProfileKeepsValid(d0, from, pa);
    var d1 := d0.(profiles := d0.profiles[from := pa]);
    var pb := d1.profiles[to].(status := Assigned);
    RewriteProfileKeepsValid(d1, to, pb);
    ExchangeSameRoomShape(db, from, to);
    assert ExchangeRooms(db, from, to).db == d1.(profiles := d1.profiles[to := pb]);
  }

  /** The approval branch of a swap keeps the store valid, and succeeds
      exactly when both students hold a room. */
  lemma ApprovedSwapKeepsValid(db: Db, from: UserId, to: UserId)
    requires Valid(db)
    ensures Valid(ExchangeRooms(db, from, to).db)
    ensures var o := ExchangeRooms(db, from, to);
      o.result.Ok? <==> (from in db.profiles && db.profiles[from].assignedRoom.Some?
                         && to in db.profiles && db.profiles[to].assignedRoom.Some?)
  {
    if from in db.profiles && db.profiles[from].assignedRoom.Some?
       && to in db.profiles && db.profiles[to].assignedRoom.Some? {
      if db.profiles[from].assignedRoom == db.profiles[to].assignedRoom {
        ExchangeSameRoom(db, from, to);
      } else {
        ExchangeDifferentRooms(db, from, to);
      }
    }
  }

  /** What an exchange means, stated on the profiles and rooms before and
      the store after. */
  predicate Exchanges(profiles: map<UserId, Profile>, rooms: map<RoomId, Room>, d: Db, from: UserId, to: UserId)
    requires from in profiles && to in profiles
  {
    from in d.profiles && to in d.profiles
    && d.profiles[from].assignedRoom == profiles[to].assignedRoom
    && d.profiles[to].assignedRoom == profiles[from].assignedRoom
    && d.profiles[from].status == Assigned && d.profiles[to].status == Assigned
    && (forall w :: w in profiles && w != from && w != to ==> w in d.profiles && d.profiles[w] == profiles[w])
    && d.rooms.Keys == rooms.Keys
    && (forall k :: k in rooms ==> |d.rooms[k].occupants| == |rooms[k].occupants|)
  }

  /** An approved swap exactly exchanges the two students' rooms: the two
      pointers trade places, both students are `assigned`, no other profile
      changes, and every room keeps its number of occupants. */
  lemma ApprovedSwapExchanges(db: Db, from: UserId, to: UserId)
    requires Valid(db)
    requires from in db.profiles && db.profiles[from].assignedRoom.Some?
    requires to in db.profiles && db.profiles[to].assignedRoom.Some?
    ensures ExchangeRooms(db, from, to).result.Ok?
    ensures Exchanges(db.profiles, db.rooms, ExchangeRooms(db, from, to).db, from, to)
  {
    var ra := db.profiles[from].assignedRoom.value;
    var rb := db.profiles[to].assignedRoom.value;
    ListedOnlyInOwnRoom(db, from);
    ListedOnlyInOwnRoom(db, to);
    assert ProfileSchemaValid(db.profiles[from]) && ProfileSchemaValid(db.profiles[to]);
    assert NoDup(db.rooms[ra].occupants) && NoDup(db.rooms[rb].occupants);
    if ra == rb {
      ExchangeSameRoomSizes(db, from, to, ra);
    } else {
      ExchangePairSizes(db, from, to, ra, rb);
    }
  }

  lemma ExchangeSameRoomSizes(db: Db, from: UserId, to: UserId, r: RoomId)
    requires from in db.profiles && to in db.profiles
    requires db.profiles[from].assignedRoom == Some(r) && db.profiles[to].assignedRoom == Some(r) && r in db.rooms
    requires ProfileSchemaValid(db.profiles[from]) && ProfileSchemaValid(db.profiles[to])
    requires NoDup(db.rooms[r].occupants) && from in db.rooms[r].occupants && to in db.rooms[r].occupants
    ensures ExchangeRooms(db, from, to).result.Ok?
    ensures Exchanges(db.profiles, db.rooms, ExchangeRooms(db, from, to).db, from, to)
  {
    var occupants := db.rooms[r].occupants;
    ReshuffledFacts(occupants, from, to);
    ExchangeSameRoomShape(db, from, to);
    var nr := db.rooms[r].(occupants := AddToSet(AddToSet(RemoveAll(RemoveAll(occupants, from), to), to), from));
    ReshuffleExchanges(db, from, to, r, nr, ExchangeRooms(db, from, to).db);
  }

  /** A store whose only changes are one room's occupants, kept to the same
      number, and the two students' status set to `assigned` exchanges the
      rooms of two students who share that room. */
  lemma ReshuffleExchanges(db: Db, from: UserId, to: UserId, r: RoomId, nr: Room, d: Db)
    requires from in db.profiles && to in db.profiles && r in db.rooms
    requires db.profiles[from].assignedRoom == Some(r) && db.profiles[to].assignedRoom == Some(r)
    requires |nr.occupants| == |db.rooms[r].occupants|
    requires d == db.(rooms := db.rooms[r := nr],
                      profiles := db.profiles[from := db.profiles[from].(status := Assigned)]
                                             [to := db.profiles[to].(status := Assigned)])
    ensures Exchanges(db.profiles, db.rooms, d, from, to)
  {
  }

  /** The sizes after an exchange between two different rooms. */
  lemma ExchangePairSizes(db: Db, from: UserId, to: UserId, ra: RoomId, rb: RoomId)
    requires from in db.profiles && to in db.profiles && from != to
    requires db.profiles[from].assignedRoom == Some(ra) && db.profiles[to].assignedRoom == Some(rb) && ra != rb
    requires ra in db.rooms && rb in db.rooms
    requires ProfileSchemaValid(db.profiles[from]) && ProfileSchemaValid(db.profiles[to])
    requires NoDup(db.rooms[ra].occupants) && from in db.rooms[ra].occupants && to !in db.rooms[ra].occupants
    requires NoDup(db.rooms[rb].occupants) && to in db.rooms[rb].occupants && from !in db.rooms[rb].occupants
    ensures ExchangeRooms(db, from, to).result.Ok?
    ensures Exchanges(db.profiles, db.rooms, ExchangeRooms(db, from, to).db, from, to)
  {
    ExchangedFacts(db.rooms[ra].occupants, from, to);
    ExchangedFacts(db.rooms[rb].occupants, to, from);
    ExchangeDifferentShape(db, from, to);
    PairExchanges(db, from, to, ra, rb,
                  db.rooms[ra].(occupants := Exchanged(db.rooms[ra].occupants, from, to)),
                  db.rooms[rb].(occupants := Exchanged(db.rooms[rb].occupants, to, from)),
                  ExchangeRooms(db, from, to).db);
  }

  /** A store whose only changes are the two rooms, each keeping its number
      of occupants, and the two students' pointers traded with status
      `assigned` exchanges the rooms of two students. */
  lemma PairExchanges(db: Db, from: UserId, to: UserId, ra: RoomId, rb: RoomId, na: Room, nb: Room, d: Db)
    requires from in db.profiles && to in db.profiles && from != to && ra in db.rooms && rb in db.rooms
    requires db.profiles[from].assignedRoom == Some(ra) && db.profiles[to].assignedRoom == Some(rb)
    requires |na.occupants| == |db.rooms[ra].occupants| && |nb.occupants| == |db.rooms[rb].occupants|
    requires d == Rewrite2(db, ra, na, rb, nb,
                           from, db.profiles[from].(assignedRoom := Some(rb), status := Assigned),
                           to, db.profiles[to].(assignedRoom := Some(ra), status := Assigned))
    ensures Exchanges(db.profiles, db.rooms, d, from, to)
  {
  }

  /* ---------------- decisions on swaps ---------------- */

  /** Saving a decided swap request keeps the store valid. */
  lemma SaveSwapKeepsValid(db: Db, id: DocId, s: SwapRequest)
    requires Valid(db) && id in db.swaps && SwapSchemaValid(s)
    ensures Valid(db.(swaps := db.swaps[id := s]))
  {
  }

  /** `decideSwap` keeps the store valid, whatever the decision and the
      request's previous status; on a valid store the only failures are the
      two refusals and a party without a room. */
  lemma DecideSwapKeepsValid(db: Db, id: DocId, decision: string)
    requires Valid(db)
    ensures Valid(DecideSwap(db, id, decision).db)
    ensures var o := DecideSwap(db, id, decision);
      o.result.Ok? || o.result.error in {InvalidDecision, NotFound, MissingAssignment}
  {
    if IsDecision(decision) && id in db.swaps {
      var s := db.swaps[id].(status := if decision == "approve" then SwapApproved else SwapRejected);
      SaveSwapKeepsValid(db, id, s);
      if decision == "approve" {
        ApprovedSwapKeepsValid(db.(swaps := db.swaps[id := s]), s.fromUser, s.toUser);
      }
    }
  }

  /** The approval is saved before the parties are checked: when one of
      them holds no room the answer is the missing-assignment refusal, yet
      the request stays `approved` and nothing else changes. */
  lemma DecideSwapSavesStatusFirst(db: Db, id: DocId)
    requires id in db.swaps && SwapSchemaValid(db.swaps[id])
    requires var s := db.swaps[id];
      !(s.fromUser in db.profiles && db.profiles[s.fromUser].assignedRoom.Some?
        && s.toUser in db.profiles && db.profiles[s.toUser].assignedRoom.Some?)
    ensures var o := DecideSwap(db, id, "approve");
      o.result == Err(MissingAssignment)
      && o.db == db.(swaps := db.swaps[id := db.swaps[id].(status := SwapApproved)])
  {
    var s := db.swaps[id].(status := SwapApproved);
    var saved := db.(swaps := db.swaps[id := s]);
    assert saved.profiles == db.profiles;
  }

  /** The occupant updates neither read nor write the swap requests. */
  lemma OccupantUpdatesIgnoreSwaps(db: Db, sw: map<DocId, SwapRequest>, id: RoomId, u: UserId)
    ensures PullOccupant(db.(swaps := sw), id, u) == PullOccupant(db, id, u).(swaps := sw)
    ensures AddOccupant(db.(swaps := sw), id, u) == AddOccupant(db, id, u).(swaps := sw)
  {
  }

  lemma ExchangeOccupantsIgnoreSwaps(db: Db, sw: map<DocId, SwapRequest>, from: UserId, ra: RoomId, to: UserId, rb: RoomId)
    ensures ExchangeOccupants(db.(swaps := sw), from, ra, to, rb) == ExchangeOccupants(db, from, ra, to, rb).(swaps := sw)
  {
    var d1 := PullOccupant(db, ra, from);
    var d2 := PullOccupant(d1, rb, to);
    var d3 := AddOccupant(d2, ra, to);
    OccupantUpdatesIgnoreSwaps(db, sw, ra, from);
    OccupantUpdatesIgnoreSwaps(d1, sw, rb, to);
    OccupantUpdatesIgnoreSwaps(d2, sw, ra, to);
    OccupantUpdatesIgnoreSwaps(d3, sw, rb, from);
  }

  lemma SaveProfileIgnoresSwaps(db: Db, sw: map<DocId, SwapRequest>, u: UserId, p: Profile)
    ensures var o := SaveProfile(db, u, p);
      SaveProfile(db.(swaps := sw), u, p) == Outcome(o.db.(swaps := sw), o.result)
  {
  }

  /** The exchange neither reads nor writes the swap requests. */
  lemma ExchangeIgnoresSwaps(db: Db, sw: map<DocId, SwapRequest>, from: UserId, to: UserId)
    ensures var e := ExchangeRooms(db, from, to);
      ExchangeRooms(db.(swaps := sw), from, to) == Outcome(e.db.(swaps := sw), e.result)
  {
    if from in db.profiles && db.profiles[from].assignedRoom.Some?
       && to in db.profiles && db.profiles[to].assignedRoom.Some? {
      var ra := db.profiles[from].assignedRoom.value;
      var rb := db.profiles[to].assignedRoom.value;
      if ra in db.rooms && rb in db.rooms {
        var x := ExchangeOccupants(db, from, ra, to, rb);
        ExchangeOccupantsIgnoreSwaps(db, sw, from, ra, to, rb);
        var pa := db.profiles[from].(assignedRoom := Some(rb), status := Assigned);
        var pb := db.profiles[to].(assignedRoom := Some(ra), status := Assigned);
        SaveProfileIgnoresSwaps(x, sw, from, pa);
        SaveProfileIgnoresSwaps(SaveProfile(x, from, pa).db, sw, to, pb);
      }
    }
  }

  /** The exchange half of one approval of a request whose parties both
      hold a room. */
  lemma ApproveOnceExchanges(db: Db, id: DocId)
    requires Valid(db) && id in db.swaps
    requires var s := db.swaps[id];
      s.fromUser in db.profiles && db.profiles[s.fromUser].assignedRoom.Some?
      && s.toUser in db.profiles && db.profiles[s.toUser].assignedRoom.Some?
    ensures var s := db.swaps[id];
      var o := DecideSwap(db, id, "approve");
      o.result.Ok? && id in o.db.swaps && o.db.swaps[id] == s.(status := SwapApproved)
      && Exchanges(db.profiles, db.rooms, o.db, s.fromUser, s.toUser)
  {
    var s := db.swaps[id].(status := SwapApproved);
    assert SwapSchemaValid(db.swaps[id]);
    var sw := db.swaps[id := s];
    ApprovedSwapExchanges(db, s.fromUser, s.toUser);
    ExchangeIgnoresSwaps(db, sw, s.fromUser, s.toUser);
    var e := ExchangeRooms(db, s.fromUser, s.toUser);
    assert DecideSwap(db, id, "approve") == Outcome(e.db.(swaps := sw), Ok(s));
  }

  /** One approval of a request whose parties both hold a room. */
  lemma ApproveOnce(db: Db, id: DocId)
    requires Valid(db) && id in db.swaps
    requires var s := db.swaps[id];
      s.fromUser in db.profiles && db.profiles[s.fromUser].assignedRoom.Some?
      && s.toUser in db.profiles && db.profiles[s.toUser].assignedRoom.Some?
    ensures var s := db.swaps[id];
      var o := DecideSwap(db, id, "approve");
      o.result.Ok? && Valid(o.db) && id in o.db.swaps && o.db.swaps[id] == s.(status := SwapApproved)
      && Exchanges(db.profiles, db.rooms, o.db, s.fromUser, s.toUser)
  {
    DecideSwapKeepsValid(db, id, "approve");
    ApproveOnceExchanges(db, id);
  }

  /** Re-deciding reprocesses: approving the same request a second time
      exchanges the rooms again, which puts both students back where they
      started. */
  lemma ReapprovingSwapsBack(db: Db, id: DocId)
    requires Valid(db) && id in db.swaps
    requires var s := db.swaps[id];
      s.fromUser in db.profiles && db.profiles[s.fromUser].assignedRoom.Some?
      && s.toUser in db.profiles && db.profiles[s.toUser].assignedRoom.Some?
    ensures var s := db.swaps[id];
      var o1 := DecideSwap(db, id, "approve");
      var o2 := DecideSwap(o1.db, id, "approve");
      o1.result.Ok? && o2.result.Ok?
      && s.fromUser in o2.db.profiles && s.toUser in o2.db.profiles
      && o2.db.profiles[s.fromUser].assignedRoom == db.profiles[s.fromUser].assignedRoom
      && o2.db.profiles[s.toUser].assignedRoom == db.profiles[s.toUser].assignedRoom
  {
    ApproveOnce(db, id);
    var d1 := DecideSwap(db, id, "approve").db;
    ApproveOnce(d1, id);
  }

  /* ---------------- the room catalogue ---------------- */

  /** Appending a new, empty room under the fresh id keeps the store valid. */
  lemma InsertRoomKeepsValid(db: Db, r: Room)
    requires Valid(db) && r.occupants == []
    ensures Valid(db.(rooms := db.rooms[db.nextId := r], roomOrder := db.roomOrder + [db.nextId], nextId := db.nextId + 1))
  {
    var d := db.(rooms := db.rooms[db.nextId := r], roomOrder := db.roomOrder + [db.nextId], nextId := db.nextId + 1);
    assert db.nextId !in db.roomOrder;
    assert NoDup(d.roomOrder) by {
      forall i, j | 0 <= i < j < |d.roomOrder| ensures d.roomOrder[i] != d.roomOrder[j] {
        if j == |db.roomOrder| {
          assert d.roomOrder[i] == db.roomOrder[i];
        } else {
          assert d.roomOrder[i] == db.roomOrder[i] && d.roomOrder[j] == db.roomOrder[j];
        }
      }
    }
    assert PointersConsistent(d) by {
      forall w | w in d.profiles && d.profiles[w].assignedRoom.Some?
        ensures w in d.rooms[d.profiles[w].assignedRoom.value].occupants
      {
      }
    }
  }

  /** The side condition under which an upsert keeps every room within
      capacity: a new capacity is not below the occupancy of a room it
      would be written to. */
  predicate CapacityFitsMatches(db: Db, body: RoomBody) {
    UpsertCapacity(body).Some? ==>
      forall id :: id in db.rooms && MatchesFilter(db.rooms[id], body) ==>
        db.rooms[id].occupants == [] || |db.rooms[id].occupants| <= UpsertCapacity(body).value
  }

  /** `upsertRoom` keeps the store valid when the new capacity fits the
      room it updates: occupants are never touched and a new room is empty. */
  lemma UpsertKeepsValid(db: Db, body: RoomBody)
    requires Valid(db) && CapacityFitsMatches(db, body)
    ensures Valid(UpsertRoom(db, body).db)
  {
    if !(body.hostelNumber.None? && !Truthy(body.hostelName)) {
      var blockType := UpsertBlockType(body);
      if Truthy(blockType) {
        match FirstMatching(db.rooms, db.roomOrder, body)
        case Some(id) =>
          var nr := UpdatedRoom(db.rooms[id], body, blockType.value);
          SameMembersKeepsValid(db, id, nr);
          assert UpsertRoom(db, body).db == db.(rooms := db.rooms[id := nr]);
        case None =>
          var r := InsertedRoom(body, blockType.value);
          InsertRoomKeepsValid(db, r);
          assert UpsertRoom(db, body).db
              == db.(rooms := db.rooms[db.nextId := r], roomOrder := db.roomOrder + [db.nextId], nextId := db.nextId + 1);
      }
    }
  }

  /** A valid store with one full double room of hostel 1 holding two
      students, and an upsert of hostel 1's double rooms that sets their
      capacity to one. */
  const OverfillStore: Db :=
    var room := Room(Some(1), None, "normal", Some(2), Some(false), NoAmenities, [1, 2], Some(2), None);
    var p1 := Profile(1, Some("jain"), Some(2), Some(false), None, None, NoAmenities, Some(0), Assigned);
    Db(map[0 := room], [0], map[1 := p1, 2 := p1.(user := 2)], [1, 2], map[], map[], 1)

  const OverfillBody: RoomBody := RoomBody(Some(1), None, Some(2), Some(false), None, None, Some(1), None)

  lemma OverfillStoreConsistent()
    ensures Consistent(OverfillStore)
  {
    assert RoomsWithinCapacity(OverfillStore) && Catalogued(OverfillStore);
  }

  lemma OverfillStoreValid()
    ensures Valid(OverfillStore)
  {
    OverfillStoreConsistent();
    assert ProfileSchemaValid(OverfillStore.profiles[1]) by {
      assert PreferredHostelsValid(OverfillStore.profiles[1].preferredHostels);
    }
  }

  lemma OverfillBreaksCapacity()
    ensures !Valid(UpsertRoom(OverfillStore, OverfillBody).db)
  {
    assert FirstMatching(OverfillStore.rooms, OverfillStore.roomOrder, OverfillBody) == Some(0);
    var d := UpsertRoom(OverfillStore, OverfillBody).db;
    assert d.rooms[0].capacity == Some(1) && d.rooms[0].occupants == [1, 2];
    assert !RoomsWithinCapacity(d);
  }

  /** Without that side condition the invariant can break: an upsert that
      lowers the capacity of a full double room below its occupancy is
      accepted. */
  lemma UpsertCanOverfill()
    ensures exists db: Db, body: RoomBody :: Valid(db) && !Valid(UpsertRoom(db, body).db)
  {
    OverfillStoreValid();
    OverfillBreaksCapacity();
  }

  /* ---------------- preferences ---------------- */

  /** The preferences upsert as written keeps every state invariant but
      not the schemas: it never touches a room, a pointer or a status, and
      a new profile is roomless and `pending`. */
  lemma SetPreferencesKeepsConsistent(db: Db, u: UserId, body: PreferencesBody)
    requires Consistent(db)
    ensures Consistent(SetPreferences(db, u, body).db)
  {
    var d := SetPreferences(db, u, body).db;
    if u !in db.profiles {
      assert u !in db.profileOrder;
      AddToSetKeepsNoDup(db.profileOrder, u);
      assert AddToSet(db.profileOrder, u) == d.profileOrder;
    }
    assert Catalogued(d);
    SetPreferencesPointers(db, u, body);
  }

  lemma SetPreferencesPointers(db: Db, u: UserId, body: PreferencesBody)
    requires PointersConsistent(db) && OccupantsConsistent(db)
    ensures var d := SetPreferences(db, u, body).db;
      PointersConsistent(d) && OccupantsConsistent(d)
  {
    var d := SetPreferences(db, u, body).db;
    assert PointersConsistent(d) by {
      forall w | w in d.profiles && d.profiles[w].assignedRoom.Some?
        ensures w in d.rooms[d.profiles[w].assignedRoom.value].occupants
      {
        if w != u {
          assert d.profiles[w] == db.profiles[w];
        }
      }
    }
  }

  /** The corrected upsert keeps the store valid. */
  lemma SetPreferencesValidatedKeepsValid(db: Db, u: UserId, body: PreferencesBody)
    requires Valid(db)
    ensures Valid(SetPreferencesValidated(db, u, body).db)
  {
    if ProfileSchemaValid(PreferencesApplied(db, u, body)) {
      SetPreferencesKeepsConsistent(db, u, body);
    }
  }

  /** As written, a stored profile that fails its schema is assigned a room
      in two writes: the room takes the student, then the profile's save is
      refused. The room is left listing a student whose profile has no
      room. */
  lemma AutoAssignOrphansOccupant(db: Db, u: UserId)
    requires Consistent(db) && u in db.profiles && db.profiles[u].assignedRoom.None?
    requires !ProfileSchemaValid(db.profiles[u])
    requires FirstFit(db.rooms, db.roomOrder, db.profiles[u]).Some?
    ensures var o := AutoAssign(db, u);
      var id := FirstFit(db.rooms, db.roomOrder, db.profiles[u]).value;
      o.result == Err(ValidationError)
      && id in o.db.rooms && u in o.db.rooms[id].occupants
      && u in o.db.profiles && o.db.profiles[u].assignedRoom.None?
      && !Consistent(o.db)
  {
  }

  /** The input that shows it: on an empty store with one free double room,
      preferences without a food preference are accepted, and the
      assignment that follows answers with an error while the room keeps
      the student. The corrected upsert refuses those preferences. */
  lemma PreferencesWithoutFoodOrphan()
    ensures var room := Room(Some(1), None, "normal", Some(2), Some(false), NoAmenities, [], Some(2), None);
      var db := Db(map[0 := room], [0], map[], [], map[], map[], 1);
      var body := PreferencesBody(None, Some(2), Some(false), None, None, None);
      var o := AutoAssign(SetPreferences(db, 7, body).db, 7);
      Valid(db)
      && o.result == Err(ValidationError) && !Consistent(o.db)
      && SetPreferencesValidated(db, 7, body) == Outcome(db, Err(ValidationError))
  {
    var room := Room(Some(1), None, "normal", Some(2), Some(false), NoAmenities, [], Some(2), None);
    var db := Db(map[0 := room], [0], map[], [], map[], map[], 1);
    var body := PreferencesBody(None, Some(2), Some(false), None, None, None);
    var d := SetPreferences(db, 7, body).db;
    var p := d.profiles[7];
    assert p.foodPreference.None? && p.assignedRoom.None?;
    SetPreferencesKeepsConsistent(db, 7, body);
    assert Eligible(d.rooms[0], p) && HasSpace(d.rooms[0]);
    FirstFitIsFirst(d.rooms, d.roomOrder, p, 0);
    AutoAssignOrphansOccupant(d, 7);
  }

  /** With the corrected upsert, preferences followed by an assignment keep
      the store valid and the assignment never fails on a save. */
  lemma PreferencesThenAssignKeepsValid(db: Db, u: UserId, body: PreferencesBody)
    requires Valid(db)
    ensures var d := SetPreferencesValidated(db, u, body).db;
      Valid(AutoAssign(d, u).db) && AutoAssign(d, u).result != Err(ValidationError)
  {
    SetPreferencesValidatedKeepsValid(db, u, body);
    AutoAssignKeepsValid(SetPreferencesValidated(db, u, body).db, u);
  }

  /* ---------------- batch assignment ---------------- */

  /** The profiles the batch loaded are the stored, roomless profiles of
      distinct students. */
  predicate Loaded(profiles: map<UserId, Profile>, ps: seq<Profile>) {
    (forall i :: 0 <= i < |ps| ==>
       ps[i].user in profiles && profiles[ps[i].user] == ps[i] && ps[i].assignedRoom.None?)
    && (forall i, j :: 0 <= i < j < |ps| ==> ps[i].user != ps[j].user)
  }

  predicate NotLoaded(v: UserId, ps: seq<Profile>) {
    forall i :: 0 <= i < |ps| ==> ps[i].user != v
  }

  lemma OnlyOccupantsChangedTrans(d1: Db, d2: Db, d3: Db)
    requires OnlyOccupantsChanged(d1, d2) && OnlyOccupantsChanged(d2, d3)
    ensures OnlyOccupantsChanged(d1, d3)
  {
  }

  /** Placing a profile rewrites that profile and one room's occupants. */
  lemma PlaceShape(db: Db, p: Profile, m: RoomId)
    requires ProfileSchemaValid(p.(assignedRoom := Some(m), status := Assigned))
    ensures var placed := Place(db, p.user, p, m);
      placed.result.Ok?
      && placed.db.profiles == db.profiles[p.user := p.(assignedRoom := Some(m), status := Assigned)]
      && OnlyOccupantsChanged(db, placed.db)
  {
    AddOccupantOnlyOccupants(db, m, p.user);
  }

  /** Rewriting the first loaded profile leaves the rest loaded. */
  lemma LoadedRest(profiles: map<UserId, Profile>, ps: seq<Profile>, np: Profile)
    requires ps != [] && Loaded(profiles, ps)
    ensures Loaded(profiles[ps[0].user := np], ps[1..])
  {
    var rest := ps[1..];
    forall i | 0 <= i < |rest|
      ensures rest[i].user in profiles[ps[0].user := np] && profiles[ps[0].user := np][rest[i].user] == rest[i]
      ensures rest[i].assignedRoom.None?
    {
      assert ps[i + 1] == rest[i];
    }
    forall i, j | 0 <= i < j < |rest| ensures rest[i].user != rest[j].user {
      assert ps[i + 1] == rest[i] && ps[j + 1] == rest[j];
    }
  }

  /** One placement of the batch: what it writes, for the next step. */
  lemma BatchPlaceStep(db: Db, ps: seq<Profile>, m: RoomId)
    requires Valid(db) && ps != [] && Loaded(db.profiles, ps)
    requires m in db.rooms && HasSpace(db.rooms[m])
    ensures var p := ps[0];
      var placed := Place(db, p.user, p, m);
      placed.result.Ok? && Loaded(placed.db.profiles, ps[1..])
      && p.user in placed.db.profiles && placed.db.profiles[p.user].assignedRoom == Some(m)
      && (forall v :: v in db.profiles && v != p.user ==> v in placed.db.profiles && placed.db.profiles[v] == db.profiles[v])
      && OnlyOccupantsChanged(db, placed.db)
  {
    var p := ps[0];
    assert db.profiles[p.user] == p;
    assert ProfileSchemaValid(p);
    var np := p.(assignedRoom := Some(m), status := Assigned);
    PlaceShape(db, p, m);
    LoadedRest(db.profiles, ps, np);
  }

  /** The placement of the batch's head keeps the store valid. */
  lemma BatchPlaceValid(db: Db, ps: seq<Profile>, m: RoomId)
    requires Valid(db) && ps != [] && Loaded(db.profiles, ps)
    requires m in db.rooms && HasSpace(db.rooms[m])
    ensures Place(db, ps[0].user, ps[0], m).result.Ok? && Valid(Place(db, ps[0].user, ps[0], m).db)
  {
    assert db.profiles[ps[0].user] == ps[0];
    PlaceKeepsValid(db, ps[0].user, m);
  }

  /** The batch over loaded profiles keeps the store valid and never fails
      on a valid store; rooms change only in their occupants. */
  lemma {:induction false} BatchKeepsValid(db: Db, ps: seq<Profile>)
    requires Valid(db) && Loaded(db.profiles, ps)
    ensures var o := BatchFrom(db, ps);
      o.result.Ok? && Valid(o.db) && OnlyOccupantsChanged(db, o.db)
    decreases |ps|
  {
    if ps != [] {
      var p := ps[0];
      var rest := ps[1..];
      LoadedTail(db.profiles, ps);
      BatchFromStep(db, ps);
      match FirstFit(db.rooms, db.roomOrder, p)
      case None =>
        BatchKeepsValid(db, rest);
        BatchValidShift(db, db, Assignment(p.user, None), BatchFrom(db, rest), BatchFrom(db, ps));
      case Some(m) =>
        BatchPlaceStep(db, ps, m);
        BatchPlaceValid(db, ps, m);
        var placed := Place(db, p.user, p, m);
        BatchKeepsValid(placed.db, rest);
        BatchValidShift(db, placed.db, Assignment(p.user, Some(m)), BatchFrom(placed.db, rest), BatchFrom(db, ps));
    }
  }

  /** One step of the batch: the head student is placed in the first room
      that fits (or in none) and the rest of the batch runs on the result. */
  lemma BatchFromStep(db: Db, ps: seq<Profile>)
    requires ps != []
    ensures FirstFit(db.rooms, db.roomOrder, ps[0]).None? ==>
      BatchFrom(db, ps) == Prepend(Assignment(ps[0].user, None), BatchFrom(db, ps[1..]))
    ensures var f := FirstFit(db.rooms, db.roomOrder, ps[0]);
      f.Some? && Place(db, ps[0].user, ps[0], f.value).result.Ok? ==>
      BatchFrom(db, ps) == Prepend(Assignment(ps[0].user, f), BatchFrom(Place(db, ps[0].user, ps[0], f.value).db, ps[1..]))
  {
  }

  /** Prepending a report line keeps the store the rest of the batch left. */
  lemma BatchValidShift(db: Db, next: Db, a: Assignment, r: Outcome<seq<Assignment>>, o: Outcome<seq<Assignment>>)
    requires o == Prepend(a, r)
    requires r.result.Ok? && Valid(r.db) && OnlyOccupantsChanged(next, r.db) && OnlyOccupantsChanged(db, next)
    ensures o.result.Ok? && Valid(o.db) && OnlyOccupantsChanged(db, o.db)
  {
    OnlyOccupantsChangedTrans(db, next, r.db);
  }

  /** The report of the batch over loaded profiles says, for each loaded
      student in order, the room they hold at the end (none when nothing
      matched), and a room it names is eligible for the student; students
      it did not load keep their profiles. */
  lemma {:induction false} BatchReportsRooms(db: Db, ps: seq<Profile>)
    requires Valid(db) && Loaded(db.profiles, ps)
    ensures var o := BatchFrom(db, ps);
      o.result.Ok? ==>
        forall i :: 0 <= i < |ps| ==>
          ps[i].user in o.db.profiles && o.result.value[i].roomId == o.db.profiles[ps[i].user].assignedRoom
          && (o.result.value[i].roomId.Some? ==>
                o.result.value[i].roomId.value in db.rooms && Eligible(db.rooms[o.result.value[i].roomId.value], ps[i]))
    ensures var o := BatchFrom(db, ps);
      forall v :: v in db.profiles && NotLoaded(v, ps) ==> v in o.db.profiles && o.db.profiles[v] == db.profiles[v]
    decreases |ps|
  {
    if ps != [] {
      var p := ps[0];
      var rest := ps[1..];
      LoadedTail(db.profiles, ps);
      match FirstFit(db.rooms, db.roomOrder, p)
      case None =>
        BatchReportsRooms(db, rest);
        BatchReportSkipped(db, ps);
      case Some(m) =>
        BatchPlaceStep(db, ps, m);
        BatchPlaceValid(db, ps, m);
        BatchReportsRooms(Place(db, p.user, p, m).db, rest);
        BatchReportPlaced(db, ps, m);
    }
  }

  /** The report step for a student no room fits. */
  lemma BatchReportSkipped(db: Db, ps: seq<Profile>)
    requires Valid(db) && ps != [] && Loaded(db.profiles, ps) && FirstFit(db.rooms, db.roomOrder, ps[0]).None?
    requires var o := BatchFrom(db, ps[1..]);
      o.result.Ok? ==>
        forall i :: 0 <= i < |ps[1..]| ==>
          ps[1..][i].user in o.db.profiles && o.result.value[i].roomId == o.db.profiles[ps[1..][i].user].assignedRoom
          && (o.result.value[i].roomId.Some? ==>
                o.result.value[i].roomId.value in db.rooms && Eligible(db.rooms[o.result.value[i].roomId.value], ps[1..][i]))
    requires var o := BatchFrom(db, ps[1..]);
      forall v :: v in db.profiles && NotLoaded(v, ps[1..]) ==> v in o.db.profiles && o.db.profiles[v] == db.profiles[v]
    ensures var o := BatchFrom(db, ps);
      o.result.Ok? ==>
        forall i :: 0 <= i < |ps| ==>
          ps[i].user in o.db.profiles && o.result.value[i].roomId == o.db.profiles[ps[i].user].assignedRoom
          && (o.result.value[i].roomId.Some? ==>
                o.result.value[i].roomId.value in db.rooms && Eligible(db.rooms[o.result.value[i].roomId.value], ps[i]))
    ensures var o := BatchFrom(db, ps);
      forall v :: v in db.profiles && NotLoaded(v, ps) ==> v in o.db.profiles && o.db.profiles[v] == db.profiles[v]
  {
    var rest := ps[1..];
    LoadedTail(db.profiles, ps);
    BatchFromStep(db, ps);
    BatchKeepsValid(db, rest);
    BatchReportShift(db, db, ps, None, BatchFrom(db, rest), BatchFrom(db, ps));
  }

  /** The report step for a student placed in room `m`. */
  lemma BatchReportPlaced(db: Db, ps: seq<Profile>, m: RoomId)
    requires Valid(db) && ps != [] && Loaded(db.profiles, ps) && FirstFit(db.rooms, db.roomOrder, ps[0]) == Some(m)
    requires var next := Place(db, ps[0].user, ps[0], m).db;
      var o := BatchFrom(next, ps[1..]);
      o.result.Ok? ==>
        forall i :: 0 <= i < |ps[1..]| ==>
          ps[1..][i].user in o.db.profiles && o.result.value[i].roomId == o.db.profiles[ps[1..][i].user].assignedRoom
          && (o.result.value[i].roomId.Some? ==>
                o.result.value[i].roomId.value in next.rooms && Eligible(next.rooms[o.result.value[i].roomId.value], ps[1..][i]))
    requires var next := Place(db, ps[0].user, ps[0], m).db;
      var o := BatchFrom(next, ps[1..]);
      forall v :: v in next.profiles && NotLoaded(v, ps[1..]) ==> v in o.db.profiles && o.db.profiles[v] == next.profiles[v]
    ensures var o := BatchFrom(db, ps);
      o.result.Ok? ==>
        forall i :: 0 <= i < |ps| ==>
          ps[i].user in o.db.profiles && o.result.value[i].roomId == o.db.profiles[ps[i].user].assignedRoom
          && (o.result.value[i].roomId.Some? ==>
                o.result.value[i].roomId.value in db.rooms && Eligible(db.rooms[o.result.value[i].roomId.value], ps[i]))
    ensures var o := BatchFrom(db, ps);
      forall v :: v in db.profiles && NotLoaded(v, ps) ==> v in o.db.profiles && o.db.profiles[v] == db.profiles[v]
  {
    var p := ps[0];
    var rest := ps[1..];
    LoadedTail(db.profiles, ps);
    BatchFromStep(db, ps);
    BatchPlaceStep(db, ps, m);
    BatchPlaceValid(db, ps, m);
    var placed := Place(db, p.user, p, m);
    BatchKeepsValid(placed.db, rest);
    EligibleIgnoresState(db.rooms[m], placed.db.rooms[m].occupants, p, p.assignedRoom, p.status);
    BatchReportShift(db, placed.db, ps, Some(m), BatchFrom(placed.db, rest), BatchFrom(db, ps));
  }

  /** The tail of a loaded batch is loaded and does not hold its head. */
  lemma LoadedTail(profiles: map<UserId, Profile>, ps: seq<Profile>)
    requires ps != [] && Loaded(profiles, ps)
    ensures Loaded(profiles, ps[1..]) && NotLoaded(ps[0].user, ps[1..])
  {
    var rest := ps[1..];
    forall i, j | 0 <= i < j < |rest| ensures rest[i].user != rest[j].user {
      assert ps[i + 1] == rest[i] && ps[j + 1] == rest[j];
    }
    forall i | 0 <= i < |rest| ensures rest[i].user != ps[0].user {
      assert ps[i + 1] == rest[i];
    }
  }

  /** The report of a batch is its first line followed by the report of the
      rest. */
  lemma BatchReportShift(db: Db, next: Db, ps: seq<Profile>, first: Option<RoomId>,
                         r: Outcome<seq<Assignment>>, o: Outcome<seq<Assignment>>)
    requires ps != [] && NotLoaded(ps[0].user, ps[1..])
    requires OnlyOccupantsChanged(db, next)
    requires o == Prepend(Assignment(ps[0].user, first), r)
    requires r.result.Ok? && OnlyOccupantsChanged(next, r.db) && |r.result.value| == |ps[1..]|
    requires forall i :: 0 <= i < |ps[1..]| ==>
      ps[1..][i].user in r.db.profiles && r.result.value[i].roomId == r.db.profiles[ps[1..][i].user].assignedRoom
      && (r.result.value[i].roomId.Some? ==>
            r.result.value[i].roomId.value in next.rooms && Eligible(next.rooms[r.result.value[i].roomId.value], ps[1..][i]))
    requires forall v :: v in next.profiles && NotLoaded(v, ps[1..]) ==> v in r.db.profiles && r.db.profiles[v] == next.profiles[v]
    requires ps[0].user in next.profiles && next.profiles[ps[0].user].assignedRoom == first
    requires first.Some? ==> first.value in db.rooms && Eligible(db.rooms[first.value], ps[0])
    requires forall v :: v in db.profiles && v != ps[0].user ==> v in next.profiles && next.profiles[v] == db.profiles[v]
    ensures o.result.Ok? && OnlyOccupantsChanged(db, o.db)
    ensures forall i :: 0 <= i < |ps| ==>
      ps[i].user in o.db.profiles && o.result.value[i].roomId == o.db.profiles[ps[i].user].assignedRoom
      && (o.result.value[i].roomId.Some? ==>
            o.result.value[i].roomId.value in db.rooms && Eligible(db.rooms[o.result.value[i].roomId.value], ps[i]))
    ensures forall v :: v in db.profiles && NotLoaded(v, ps) ==> v in o.db.profiles && o.db.profiles[v] == db.profiles[v]
  {
    OnlyOccupantsChangedTrans(db, next, r.db);
    BatchRowsShift(db, next, ps, first, r, o);
    BatchOthersShift(db, next, ps, r);
  }

  /** The rows of a batch report: the first row is the first student's
      placement and the rest are the rows of the report on the others. */
  lemma BatchRowsShift(db: Db, next: Db, ps: seq<Profile>, first: Option<RoomId>,
                       r: Outcome<seq<Assignment>>, o: Outcome<seq<Assignment>>)
    requires ps != [] && OnlyOccupantsChanged(db, next)
    requires r.result.Ok? && o.result.Ok? && o.db == r.db
    requires o.result.value == [Assignment(ps[0].user, first)] + r.result.value
    requires |r.result.value| == |ps| - 1
    requires forall i :: 0 <= i < |ps[1..]| ==>
      ps[1..][i].user in r.db.profiles && r.result.value[i].roomId == r.db.profiles[ps[1..][i].user].assignedRoom
      && (r.result.value[i].roomId.Some? ==>
            r.result.value[i].roomId.value in next.rooms && Eligible(next.rooms[r.result.value[i].roomId.value], ps[1..][i]))
    requires ps[0].user in r.db.profiles && r.db.profiles[ps[0].user].assignedRoom == first
    requires first.Some? ==> first.value in db.rooms && Eligible(db.rooms[first.value], ps[0])
    ensures forall i :: 0 <= i < |ps| ==>
      ps[i].user in o.db.profiles && o.result.value[i].roomId == o.db.profiles[ps[i].user].assignedRoom
      && (o.result.value[i].roomId.Some? ==>
            o.result.value[i].roomId.value in db.rooms && Eligible(db.rooms[o.result.value[i].roomId.value], ps[i]))
  {
    forall i | 0 <= i < |ps|
      ensures ps[i].user in o.db.profiles && o.result.value[i].roomId == o.db.profiles[ps[i].user].assignedRoom
      ensures o.result.value[i].roomId.Some? ==>
                o.result.value[i].roomId.value in db.rooms && Eligible(db.rooms[o.result.value[i].roomId.value], ps[i])
    {
      if i == 0 {
        assert o.result.value[0] == Assignment(ps[0].user, first);
      } else {
        assert o.result.value[i] == r.result.value[i - 1];
        assert ps[1..][i - 1] == ps[i];
        var k := o.result.value[i].roomId;
        if k.Some? {
          EligibleIgnoresState(db.rooms[k.value], next.rooms[k.value].occupants, ps[i], ps[i].assignedRoom, ps[i].status);
        }
      }
    }
  }

  /** A student outside the batch keeps the profile they had before it. */
  lemma BatchOthersShift(db: Db, next: Db, ps: seq<Profile>, r: Outcome<seq<Assignment>>)
    requires ps != []
    requires forall v :: v in next.profiles && NotLoaded(v, ps[1..]) ==> v in r.db.profiles && r.db.profiles[v] == next.profiles[v]
    requires forall v :: v in db.profiles && v != ps[0].user ==> v in next.profiles && next.profiles[v] == db.profiles[v]
    ensures forall v :: v in db.profiles && NotLoaded(v, ps) ==> v in r.db.profiles && r.db.profiles[v] == db.profiles[v]
  {
    forall v | v in db.profiles && NotLoaded(v, ps)
      ensures v in r.db.profiles && r.db.profiles[v] == db.profiles[v]
    {
      assert v != ps[0].user;
      assert NotLoaded(v, ps[1..]) by {
        forall i | 0 <= i < |ps[1..]| ensures ps[1..][i].user != v {
          assert ps[1..][i] == ps[i + 1];
        }
      }
    }
  }

  /** `us` is `order` read at the strictly increasing positions `idx`. */
  predicate AtPositions(idx: seq<nat>, order: seq<UserId>, us: seq<UserId>) {
    |idx| == |us|
    && (forall i :: 0 <= i < |idx| ==> idx[i] < |order| && order[idx[i]] == us[i])
    && (forall i, j :: 0 <= i < j < |idx| ==> idx[i] < idx[j])
  }

  function Shift(idx: seq<nat>): (r: seq<nat>)
    ensures |r| == |idx| && forall i :: 0 <= i < |idx| ==> r[i] == idx[i] + 1
  {
    seq(|idx|, i requires 0 <= i < |idx| => idx[i] + 1)
  }

  lemma AtPositionsShift(idx: seq<nat>, order: seq<UserId>, us: seq<UserId>)
    requires order != [] && AtPositions(idx, order[1..], us)
    ensures AtPositions(Shift(idx), order, us)
    ensures forall i :: 0 <= i < |idx| ==> Shift(idx)[i] > 0
  {
    forall i | 0 <= i < |idx| ensures order[Shift(idx)[i]] == us[i] {
      assert order[1..][idx[i]] == order[idx[i] + 1];
    }
  }

  lemma AtPositionsCons(idx: seq<nat>, order: seq<UserId>, us: seq<UserId>)
    requires order != [] && AtPositions(idx, order, us) && forall i :: 0 <= i < |idx| ==> idx[i] > 0
    ensures AtPositions([0] + idx, order, [order[0]] + us)
  {
    var r := [0] + idx;
    var vs := [order[0]] + us;
    forall i | 0 < i < |r| ensures r[i] == idx[i - 1] && vs[i] == us[i - 1] {
    }
  }

  /** The pending query keeps storage order: the selected students are
      `order` at strictly increasing positions, so the batch visits them as
      the profile collection lists them. */
  lemma {:induction false} PendingUsersInOrder(profiles: map<UserId, Profile>, order: seq<UserId>)
    returns (idx: seq<nat>)
    ensures AtPositions(idx, order, PendingUsers(profiles, order))
  {
    if order == [] {
      idx := [];
    } else {
      var rest := PendingUsers(profiles, order[1..]);
      var r := PendingUsersInOrder(profiles, order[1..]);
      AtPositionsShift(r, order, rest);
      if order[0] in profiles && Unassigned(profiles[order[0]]) {
        assert PendingUsers(profiles, order) == [order[0]] + rest;
        AtPositionsCons(Shift(r), order, rest);
        idx := [0] + Shift(r);
      } else {
        assert PendingUsers(profiles, order) == rest;
        idx := Shift(r);
      }
    }
  }

  /** The pending query lists each student at most once when the profile
      order does. */
  lemma {:induction false} PendingUsersNoDup(profiles: map<UserId, Profile>, order: seq<UserId>)
    requires NoDup(order)
    ensures NoDup(PendingUsers(profiles, order))
  {
    if order != [] {
      assert NoDup(order[1..]) by {
        forall i, j | 0 <= i < j < |order[1..]| ensures order[1..][i] != order[1..][j] {
          assert order[1..][i] == order[i + 1] && order[1..][j] == order[j + 1];
        }
      }
      PendingUsersNoDup(profiles, order[1..]);
      var rest := PendingUsers(profiles, order[1..]);
      if order[0] in profiles && Unassigned(profiles[order[0]]) {
        assert order[0] !in rest by {
          forall k | 0 <= k < |order[1..]| ensures order[1..][k] != order[0] {
            assert order[1..][k] == order[k + 1];
          }
        }
        var us := [order[0]] + rest;
        forall i, j | 0 <= i < j < |us| ensures us[i] != us[j] {
          assert us[j] == rest[j - 1];
          if i > 0 { assert us[i] == rest[i - 1]; }
        }
      }
    }
  }

  /** `batchAutoAssign` on a valid store never fails, keeps the store valid
      and changes rooms only in their occupants. */
  lemma BatchAutoAssignKeepsValid(db: Db)
    requires Valid(db)
    ensures var o := BatchAutoAssign(db);
      o.result.Ok? && Valid(o.db) && OnlyOccupantsChanged(db, o.db)
  {
    var ps := Snapshot(db.profiles, PendingUsers(db.profiles, db.profileOrder));
    SnapshotLoaded(db.profiles, db.profileOrder);
    BatchKeepsValid(db, ps);
  }

  /** `batchAutoAssign` leaves the profile of every student who was not
      pending as it was. */
  lemma BatchAutoAssignKeepsOthers(db: Db)
    requires Valid(db)
    ensures var o := BatchAutoAssign(db);
      forall v :: v in db.profiles && !Unassigned(db.profiles[v]) ==>
        v in o.db.profiles && o.db.profiles[v] == db.profiles[v]
  {
    var ps := Snapshot(db.profiles, PendingUsers(db.profiles, db.profileOrder));
    SnapshotLoaded(db.profiles, db.profileOrder);
    BatchReportsRooms(db, ps);
    var o := BatchFrom(db, ps);
    assert BatchAutoAssign(db) == o;
    forall v | v in db.profiles && !Unassigned(db.profiles[v])
      ensures v in o.db.profiles && o.db.profiles[v] == db.profiles[v]
    {
      assert NotLoaded(v, ps);
    }
  }

  /** The report of `batchAutoAssign`: one line per pending student, in
      storage order, naming the room the student holds afterwards, and a
      named room is one eligible for the student. */
  lemma BatchAutoAssignReport(db: Db)
    requires Valid(db)
    ensures var o := BatchAutoAssign(db);
      var us := PendingUsers(db.profiles, db.profileOrder);
      o.result.Ok? && |o.result.value| == |us|
      && forall i :: 0 <= i < |us| ==>
           o.result.value[i].user == us[i] && us[i] in o.db.profiles
           && o.result.value[i].roomId == o.db.profiles[us[i]].assignedRoom
           && (o.result.value[i].roomId.Some? ==>
                 o.result.value[i].roomId.value in db.rooms
                 && Eligible(db.rooms[o.result.value[i].roomId.value], db.profiles[us[i]]))
  {
    var us := PendingUsers(db.profiles, db.profileOrder);
    var ps := Snapshot(db.profiles, us);
    SnapshotLoaded(db.profiles, db.profileOrder);
    BatchKeepsValid(db, ps);
    BatchReportsRooms(db, ps);
    var o := BatchFrom(db, ps);
    forall i | 0 <= i < |us|
      ensures o.result.value[i].user == us[i] && us[i] in o.db.profiles
      ensures o.result.value[i].roomId == o.db.profiles[us[i]].assignedRoom
      ensures o.result.value[i].roomId.Some? ==>
                o.result.value[i].roomId.value in db.rooms
                && Eligible(db.rooms[o.result.value[i].roomId.value], db.profiles[us[i]])
    {
      assert ps[i].user == us[i] && ps[i] == db.profiles[us[i]];
    }
  }

  /** The snapshot of the pending students is a loaded batch: stored,
      roomless, distinct profiles, in the order of the query, and no
      student outside the query is in it. */
  lemma SnapshotLoaded(profiles: map<UserId, Profile>, order: seq<UserId>)
    requires NoDup(order) && forall u :: u in profiles ==> profiles[u].user == u
    ensures var us := PendingUsers(profiles, order);
      var ps := Snapshot(profiles, us);
      Loaded(profiles, ps) && (forall i :: 0 <= i < |us| ==> ps[i].user == us[i])
      && forall v :: v in profiles && !Unassigned(profiles[v]) ==> NotLoaded(v, ps)
  {
    var us := PendingUsers(profiles, order);
    var ps := Snapshot(profiles, us);
    PendingUsersNoDup(profiles, order);
    forall i | 0 <= i < |ps| ensures ps[i].user in profiles && profiles[ps[i].user] == ps[i] && ps[i].assignedRoom.None? {
      assert ps[i] == profiles[us[i]] && us[i] in us;
    }
    forall v | v in profiles && !Unassigned(profiles[v]) ensures NotLoaded(v, ps) {
      forall i | 0 <= i < |ps| ensures ps[i].user != v {
        assert us[i] in us;
      }
    }
  }
}
