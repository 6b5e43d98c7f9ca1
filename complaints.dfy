/** Complaints (backend/models/Complaint.js, backend/controllers/complaintController.js):
    the schema, the pre-save `resolvedAt` hook, creation from a student's
    room, the ownership rules, and the in-place updates of one complaint
    document. The `ComplaintDoc` object stands for the stored document: a
    save that fails validation leaves it as stored. */
module Complaints {
  import opened Common
  import opened Text
  import Rooms
  import AllocationState

  const Categories: set<string> :=
    {"maintenance", "cleanliness", "food", "security", "noise", "facilities", "staff_behavior", "other"}
  const Priorities: set<string> := {"low", "medium", "high", "urgent"}
  const Statuses: set<string> := {"open", "in_progress", "resolved", "closed"}

  /** The status every new complaint starts with. */
  const DefaultStatus: string := "open"

  datatype ComplaintComment = ComplaintComment(author: UserId, content: string, isAdminComment: bool, createdAt: int)

  /** A stored complaint; times are integers on one clock. */
  datatype Complaint = Complaint(
    complainant: UserId,
    title: string,
    description: string,
    category: string,
    priority: string,
    status: string,
    assignedTo: Option<UserId>,
    room: Option<RoomId>,
    hostelNumber: Option<int>,
    hostelName: Option<string>,
    adminNotes: Option<string>,
    resolution: Option<string>,
    resolvedAt: Option<int>,
    resolvedBy: Option<UserId>,
    isAnonymous: bool,
    upvotes: seq<UserId>,
    comments: seq<ComplaintComment>)

  datatype ComplaintFailure = ComplaintNotFound | ComplaintAccessDenied | ComplaintInvalid

  predicate CommentValid(c: ComplaintComment) {
    c.content != "" && |c.content| <= 500
  }

  /** At most `n` characters, when present. */
  predicate OptionalWithin(s: Option<string>, n: nat) {
    s.None? || |s.value| <= n
  }

  /** The schema: title and description present and within their lengths,
      category, priority and status in their enums, a hostel number from 1
      to 8 when present, notes within 1000 characters, valid comments. */
  predicate ComplaintSchemaValid(c: Complaint) {
    c.title != "" && |c.title| <= 200 && c.description != "" && |c.description| <= 2000
    && c.category in Categories && c.priority in Priorities && c.status in Statuses
    && (c.hostelNumber.Some? ==> 1 <= c.hostelNumber.value <= 8)
    && OptionalWithin(c.adminNotes, 1000) && OptionalWithin(c.resolution, 1000)
    && (forall i :: 0 <= i < |c.comments| ==> CommentValid(c.comments[i]))
  }

  /** The outcome of `addComment`: access denied to another student's
      complaint; a validation error for an empty or over-long comment;
      otherwise the trimmed comment, an admin comment exactly when the
      caller is an admin. */
  function CommentOutcome(c: Complaint, role: string, u: UserId, text: Option<string>, now: int): (r: Result<ComplaintComment, ComplaintFailure>)
    ensures r == Err(ComplaintAccessDenied) <==> !MayAccess(c, role, u)
    ensures r.Err? ==> r.error == ComplaintAccessDenied || r.error == ComplaintInvalid
    ensures r.Ok? ==>
      CommentValid(r.value) && r.value.author == u && r.value.content == Trim(text.GetOr(""))
      && (r.value.isAdminComment <==> role == "admin") && r.value.createdAt == now
    ensures MayAccess(c, role, u) && Trim(text.GetOr("")) != "" && |Trim(text.GetOr(""))| <= 500 ==> r.Ok?
  {
    if !MayAccess(c, role, u) then Err(ComplaintAccessDenied)
    else
      var comment := ComplaintComment(u, Trim(text.GetOr("")), role == "admin", now);
      if CommentValid(comment) then Ok(comment) else Err(ComplaintInvalid)
  }

  /** Appending a valid comment keeps a complaint within its schema. */
  lemma CommentKeepsSchema(c: Complaint, m: ComplaintComment)
    requires ComplaintSchemaValid(c) && CommentValid(m)
    ensures ComplaintSchemaValid(c.(comments := c.comments + [m]))
  {
    var cs := c.comments + [m];
    forall i | 0 <= i < |cs| ensures CommentValid(cs[i]) {
      if i < |c.comments| {
        assert cs[i] == c.comments[i];
      }
    }
  }

  /** The pre-save hook: stamp `resolvedAt` when `status` was modified to
      `resolved` and no time is set. */
  function PreSave(c: Complaint, statusModified: bool, now: int): (d: Complaint)
    ensures d.resolvedAt != c.resolvedAt <==> statusModified && c.status == "resolved" && c.resolvedAt.None?
    ensures d.resolvedAt != c.resolvedAt ==> d.resolvedAt == Some(now)
    ensures d.(resolvedAt := c.resolvedAt) == c
  {
    if statusModified && c.status == "resolved" && c.resolvedAt.None? then c.(resolvedAt := Some(now)) else c
  }

  /** Running the hook again changes nothing. */
  lemma PreSaveIdempotent(c: Complaint, statusModified: bool, now: int, later: int)
    ensures PreSave(PreSave(c, statusModified, now), statusModified, later) == PreSave(c, statusModified, now)
  {
  }

  /* ---------------- creation ---------------- */

  /** The body of `createComplaint`; absent keys are `None`. */
  datatype ComplaintBody = ComplaintBody(
    title: Option<string>,
    description: Option<string>,
    category: Option<string>,
    priority: Option<string>,
    isAnonymous: Option<bool>,
    hostelNumber: Option<int>,
    hostelName: Option<string>)

  /** Where the complaint is filed from: the room the filer holds, for a
      complaint that is not anonymous; the body's values otherwise. */
  function Origin(db: AllocationState.Db, u: UserId, body: ComplaintBody): (o: (Option<RoomId>, Option<int>, Option<string>))
    ensures body.isAnonymous == Some(true) || !AllocationState.HoldsRoom(db, u)
            ==> o == (None, body.hostelNumber, body.hostelName)
    ensures body.isAnonymous != Some(true) && AllocationState.HoldsRoom(db, u)
            ==> o.0 == db.profiles[u].assignedRoom && o.0.value in db.rooms
                && o.1 == db.rooms[o.0.value].hostelNumber && o.2 == db.rooms[o.0.value].hostelName
  {
    if body.isAnonymous != Some(true) && AllocationState.HoldsRoom(db, u) then
      var id := db.profiles[u].assignedRoom.value;
      (Some(id), db.rooms[id].hostelNumber, db.rooms[id].hostelName)
    else (None, body.hostelNumber, body.hostelName)
  }

  /** The document `createComplaint` builds before saving. */
  function ComplaintDraft(db: AllocationState.Db, u: UserId, body: ComplaintBody): Complaint {
    var origin := Origin(db, u, body);
    Complaint(u, Trim(body.title.GetOr("")), Trim(body.description.GetOr("")), body.category.GetOr(""),
              if Truthy(body.priority) then body.priority.value else "medium", DefaultStatus,
              None, origin.0, origin.1, origin.2, None, None, None, None,
              body.isAnonymous.GetOr(false), [], [])
  }

  /** `createComplaint` by user `u`: the draft is saved when it passes the
      schema, and a body that fails it creates nothing. */
  function CreateComplaint(db: AllocationState.Db, u: UserId, body: ComplaintBody, now: int): (r: Result<Complaint, ComplaintFailure>)
    ensures r.Err? ==> r.error == ComplaintInvalid
    ensures r.Ok? ==> ComplaintSchemaValid(r.value) && r.value.complainant == u
  {
    var draft := ComplaintDraft(db, u, body);
    if !ComplaintSchemaValid(draft) then Err(ComplaintInvalid)
    else
      assert PreSave(draft, true, now) == draft;
      Ok(PreSave(draft, true, now))
  }

  /** Title, description and category are required: without a non-empty
      title or description, or without a category, nothing is created. */
  lemma CreateNeedsRequiredFields(db: AllocationState.Db, u: UserId, body: ComplaintBody, now: int)
    requires !Truthy(body.title) || !Truthy(body.description) || body.category.None?
    ensures CreateComplaint(db, u, body, now) == Err(ComplaintInvalid)
  {
    var draft := ComplaintDraft(db, u, body);
    if !Truthy(body.title) {
      assert draft.title == Trim("");
    } else if !Truthy(body.description) {
      assert draft.description == Trim("");
    } else {
      assert draft.category == "" && "" !in Categories;
    }
  }

  /** A created complaint is open, has priority `medium` unless one was
      given, is anonymous only when the body says so, and has no upvotes,
      comments or resolution. */
  lemma CreatedDefaults(db: AllocationState.Db, u: UserId, body: ComplaintBody, now: int)
    requires CreateComplaint(db, u, body, now).Ok?
    ensures var c := CreateComplaint(db, u, body, now).value;
      c.status == DefaultStatus
      && c.priority == (if Truthy(body.priority) then body.priority.value else "medium")
      && c.isAnonymous == body.isAnonymous.GetOr(false)
      && c.upvotes == [] && c.comments == [] && c.resolvedAt.None? && c.resolvedBy.None?
  {
  }

  /** A complaint that is not anonymous, from a student holding a room,
      takes room, hostel number and hostel name from that room whatever the
      body says; an anonymous one keeps the body's values and no room. */
  lemma CreatedOrigin(db: AllocationState.Db, u: UserId, body: ComplaintBody, now: int)
    requires CreateComplaint(db, u, body, now).Ok?
    ensures var c := CreateComplaint(db, u, body, now).value;
      if body.isAnonymous != Some(true) && AllocationState.HoldsRoom(db, u) then
        var id := db.profiles[u].assignedRoom.value;
        c.room == Some(id) && c.hostelNumber == db.rooms[id].hostelNumber && c.hostelName == db.rooms[id].hostelName
      else
        c.room.None? && c.hostelNumber == body.hostelNumber && c.hostelName == body.hostelName
  {
  }

  /* ---------------- reading and listing ---------------- */

  /** A student sees only complaints they filed; other roles see all. */
  function MayAccess(c: Complaint, role: string, u: UserId): (b: bool)
    ensures role == "student" ==> (b <==> c.complainant == u)
    ensures role != "student" ==> b
  {
    role != "student" || c.complainant == u
  }

  /** `getComplaint`: not found, access denied for another student's
      complaint, or the complaint. */
  function GetComplaint(found: Option<Complaint>, role: string, u: UserId): (r: Result<Complaint, ComplaintFailure>)
    ensures found.None? <==> r == Err(ComplaintNotFound)
    ensures r == Err(ComplaintAccessDenied) <==> found.Some? && role == "student" && found.value.complainant != u
    ensures r.Ok? ==> found == Some(r.value) && MayAccess(r.value, role, u)
  {
    if found.None? then Err(ComplaintNotFound)
    else if role == "student" && found.value.complainant != u then Err(ComplaintAccessDenied)
    else Ok(found.value)
  }

  /** The `getComplaints` query string. */
  datatype ComplaintQuery = ComplaintQuery(status: Option<string>, category: Option<string>, priority: Option<string>)

  /** The `getComplaints` filter: a student's query is restricted to their
      own complaints; status, category and priority filter when given. */
  function ComplaintListed(c: Complaint, role: string, u: UserId, q: ComplaintQuery): (b: bool)
    ensures b && role == "student" ==> c.complainant == u
    ensures q == ComplaintQuery(None, None, None) ==> (b <==> MayAccess(c, role, u))
    ensures b && Truthy(q.status) ==> c.status == q.status.value
  {
    (role == "student" ==> c.complainant == u)
    && (Truthy(q.status) ==> c.status == q.status.value)
    && (Truthy(q.category) ==> c.category == q.category.value)
    && (Truthy(q.priority) ==> c.priority == q.priority.value)
  }

  /** The listing shows a reader only complaints they could open one by
      one, and with no filters it shows every such complaint. */
  lemma ListingAgreesWithAccess(c: Complaint, role: string, u: UserId, q: ComplaintQuery)
    ensures ComplaintListed(c, role, u, q) ==> GetComplaint(Some(c), role, u) == Ok(c)
    ensures GetComplaint(Some(c), role, u).Ok? ==> ComplaintListed(c, role, u, ComplaintQuery(None, None, None))
  {
  }

  /* ---------------- single-complaint updates ---------------- */

  /** `upvoteComplaint`: the upvote toggle. */
  function Upvoted(c: Complaint, u: UserId): (d: Complaint)
    ensures u in d.upvotes <==> u !in c.upvotes
    ensures forall v :: v != u ==> (v in d.upvotes <==> v in c.upvotes)
    ensures d.(upvotes := c.upvotes) == c
  {
    c.(upvotes := ToggleMembership(c.upvotes, u))
  }

  /** Upvoting twice from a user who had not upvoted gives the complaint
      back. */
  lemma UpvotedTwiceRestores(c: Complaint, u: UserId)
    requires u !in c.upvotes
    ensures Upvoted(Upvoted(c, u), u) == c
  {
    ToggleTwiceRestores(c.upvotes, u);
  }

  /** An upvote list without repeats stays so, and its count moves by one. */
  lemma UpvotedCount(c: Complaint, u: UserId)
    requires NoDup(c.upvotes)
    ensures NoDup(Upvoted(c, u).upvotes)
    ensures |Upvoted(c, u).upvotes| == if u in c.upvotes then |c.upvotes| - 1 else |c.upvotes| + 1
  {
    ToggleLength(c.upvotes, u);
  }

  /** The body of `updateComplaintStatus`; absent keys are `None`. */
  datatype StatusBody = StatusBody(
    status: Option<string>,
    assignedTo: Option<UserId>,
    adminNotes: Option<string>,
    resolution: Option<string>)

  /** The fields `updateComplaintStatus` assigns before saving: each body
      value that is truthy, through its setter; a `resolved` status also
      stamps the resolution time and the resolving admin. */
  function StatusAssigned(c: Complaint, caller: UserId, body: StatusBody, now: int): (d: Complaint)
    ensures d.status == (if Truthy(body.status) then body.status.value else c.status)
    ensures d.assignedTo == (if body.assignedTo.Some? then body.assignedTo else c.assignedTo)
    ensures d.adminNotes == (if Truthy(body.adminNotes) then Some(Trim(body.adminNotes.value)) else c.adminNotes)
    ensures d.resolution == (if Truthy(body.resolution) then Some(Trim(body.resolution.value)) else c.resolution)
    ensures body.status == Some("resolved") ==> d.resolvedAt == Some(now) && d.resolvedBy == Some(caller)
    ensures body.status != Some("resolved") ==> d.resolvedAt == c.resolvedAt && d.resolvedBy == c.resolvedBy
    ensures d.(status := c.status, assignedTo := c.assignedTo, adminNotes := c.adminNotes,
               resolution := c.resolution, resolvedAt := c.resolvedAt, resolvedBy := c.resolvedBy) == c
  {
    var d1 := if Truthy(body.status) then c.(status := body.status.value) else c;
    var d2 := if body.assignedTo.Some? then d1.(assignedTo := body.assignedTo) else d1;
    var d3 := if Truthy(body.adminNotes) then d2.(adminNotes := Some(Trim(body.adminNotes.value))) else d2;
    var d4 := if Truthy(body.resolution) then d3.(resolution := Some(Trim(body.resolution.value))) else d3;
    if body.status == Some("resolved") then d4.(resolvedAt := Some(now), resolvedBy := Some(caller)) else d4
  }

  /** Resolving an already resolved complaint moves its resolution time to
      the later call and its resolver to the later caller: nothing guards a
      second resolution. */
  lemma ResolvedAgainRestamps(c: Complaint, a1: UserId, a2: UserId, t1: int, t2: int)
    ensures var body := StatusBody(Some("resolved"), None, None, None);
      var twice := StatusAssigned(StatusAssigned(c, a1, body, t1), a2, body, t2);
      twice.resolvedAt == Some(t2) && twice.resolvedBy == Some(a2) && twice.status == "resolved"
  {
  }

  /** A body with no truthy value changes nothing. */
  lemma EmptyStatusBodyChangesNothing(c: Complaint, caller: UserId, now: int)
    ensures StatusAssigned(c, caller, StatusBody(None, None, None, None), now) == c
    ensures StatusAssigned(c, caller, StatusBody(Some(""), None, Some(""), Some("")), now) == c
  {
  }

  /* ---------------- the complaint document ---------------- */

  class ComplaintDoc {
    var complainant: UserId
    var title: string
    var description: string
    var category: string
    var priority: string
    var status: string
    var assignedTo: Option<UserId>
    var room: Option<RoomId>
    var hostelNumber: Option<int>
    var hostelName: Option<string>
    var adminNotes: Option<string>
    var resolution: Option<string>
    var resolvedAt: Option<int>
    var resolvedBy: Option<UserId>
    var isAnonymous: bool
    var upvotes: seq<UserId>
    var comments: seq<ComplaintComment>

    function Value(): Complaint
      reads this
    {
      Complaint(complainant, title, description, category, priority, status, assignedTo, room, hostelNumber,
                hostelName, adminNotes, resolution, resolvedAt, resolvedBy, isAnonymous, upvotes, comments)
    }

    predicate Valid()
      reads this
    {
      ComplaintSchemaValid(Value())
    }

    /** The `upvoteCount` and `commentCount` virtuals. */
    function UpvoteCount(): (c: nat)
      reads this
      ensures c == |upvotes| && (c == 0 <==> upvotes == [])
    {
      |upvotes|
    }

    function CommentCount(): (c: nat)
      reads this
      ensures c == |comments| && (c == 0 <==> comments == [])
    {
      |comments|
    }

    /** Load a saved complaint. */
    constructor (c: Complaint)
      requires ComplaintSchemaValid(c)
      ensures Value() == c && Valid()
    {
      complainant := c.complainant;
      title := c.title;
      description := c.description;
      category := c.category;
      priority := c.priority;
      status := c.status;
      assignedTo := c.assignedTo;
      room := c.room;
      hostelNumber := c.hostelNumber;
      hostelName := c.hostelName;
      adminNotes := c.adminNotes;
      resolution := c.resolution;
      resolvedAt := c.resolvedAt;
      resolvedBy := c.resolvedBy;
      isAnonymous := c.isAnonymous;
      upvotes := c.upvotes;
      comments := c.comments;
    }

    /** The pre-save hook, in place. */
    method PreSaveHook(statusModified: bool, now: int)
      modifies this
      ensures Value() == PreSave(old(Value()), statusModified, now)
    {
      if statusModified && status == "resolved" && resolvedAt.None? {
        resolvedAt := Some(now);
      }
    }

    /** `upvoteComplaint`: answers the new upvote count and whether the user
        now upvotes the complaint. */
    method Upvote(u: UserId, now: int) returns (upvoteCount: nat, hasUpvoted: bool)
      requires Valid()
      modifies this
      ensures Value() == Upvoted(old(Value()), u)
      ensures upvoteCount == UpvoteCount() && hasUpvoted == (u !in old(upvotes))
      ensures Valid()
    {
      var had := u in upvotes;
      if had {
        upvotes := RemoveAll(upvotes, u);
      } else {
        upvotes := upvotes + [u];
      }
      PreSaveHook(false, now);
      upvoteCount := |upvotes|;
      hasUpvoted := !had;
    }

    /** `addComment` on a complaint, in place: the outcome is
        `CommentOutcome`, and only an accepted comment is appended. */
    method AddComment(role: string, u: UserId, text: Option<string>, now: int) returns (r: Result<ComplaintComment, ComplaintFailure>)
      requires Valid()
      modifies this
      ensures r == CommentOutcome(old(Value()), role, u, text, now)
      ensures r.Err? ==> Value() == old(Value())
      ensures r.Ok? ==> Value() == old(Value()).(comments := old(comments) + [r.value]) && CommentCount() == old(CommentCount()) + 1
      ensures Valid()
    {
      r := CommentOutcome(Value(), role, u, text, now);
      if r.Ok? {
        AppendComment(r.value, now);
      }
    }

    /** `complaint.comments.push(comment)` followed by the save. */
    method AppendComment(c: ComplaintComment, now: int)
      requires Valid() && CommentValid(c)
      modifies this
      ensures Value() == old(Value()).(comments := old(comments) + [c])
      ensures comments == old(comments) + [c]
      ensures Valid()
    {
      CommentKeepsSchema(Value(), c);
      comments := comments + [c];
      PreSaveHook(false, now);
    }

    /** The conditional assignments of `updateComplaintStatus`. */
    method AssignStatusFields(caller: UserId, body: StatusBody, now: int)
      modifies this
      ensures Value() == StatusAssigned(old(Value()), caller, body, now)
    {
      AssignWorkflow(body);
      AssignNotes(body);
      if body.status == Some("resolved") {
        resolvedAt := Some(now);
        resolvedBy := Some(caller);
      }
    }

    /** The truthy status and assignee. */
    method AssignWorkflow(body: StatusBody)
      modifies this
      ensures Value() == old(Value()).(status := if Truthy(body.status) then body.status.value else old(status),
                                       assignedTo := if body.assignedTo.Some? then body.assignedTo else old(assignedTo))
    {
      if Truthy(body.status) {
        status := body.status.value;
      }
      if body.assignedTo.Some? {
        assignedTo := body.assignedTo;
      }
    }

    /** The truthy notes, through their trim setters. */
    method AssignNotes(body: StatusBody)
      modifies this
      ensures Value() == old(Value()).(adminNotes := if Truthy(body.adminNotes) then Some(Trim(body.adminNotes.value)) else old(adminNotes),
                                       resolution := if Truthy(body.resolution) then Some(Trim(body.resolution.value)) else old(resolution))
    {
      if Truthy(body.adminNotes) {
        SetAdminNotes(body.adminNotes.value);
      }
      if Truthy(body.resolution) {
        SetResolution(body.resolution.value);
      }
    }

    method SetAdminNotes(notes: string)
      modifies this
      ensures Value() == old(Value()).(adminNotes := Some(Trim(notes)))
    {
      var t := Trim(notes);
      adminNotes := Some(t);
    }

    method SetResolution(text: string)
      modifies this
      ensures Value() == old(Value()).(resolution := Some(Trim(text)))
    {
      var t := Trim(text);
      resolution := Some(t);
    }

    /** `updateComplaintStatus` by admin `caller`: assign the truthy body
        values, stamp a resolution, validate, run the hook and save; a body
        that fails validation (an unknown status, over-long notes) stores
        nothing. */
    method UpdateStatus(caller: UserId, body: StatusBody, now: int) returns (r: Result<(), ComplaintFailure>)
      requires Valid()
      modifies this
      ensures var d := StatusAssigned(old(Value()), caller, body, now);
        (r.Ok? <==> ComplaintSchemaValid(d))
        && (r.Ok? ==> Value() == PreSave(d, d.status != old(status), now))
        && (r.Err? ==> r.error == ComplaintInvalid && Value() == old(Value()))
      ensures Valid()
    {
      var d := StatusAssigned(Value(), caller, body, now);
      if !ComplaintSchemaValid(d) {
        return Err(ComplaintInvalid);
      }
      var oldStatus := status;
      AssignStatusFields(caller, body, now);
      PreSaveHook(status != oldStatus, now);
      return Ok(());
    }
  }
}
