/** Notices (backend/models/Notice.js, backend/controllers/noticeController.js):
    the schema, the pre-save hook, the listing filters and pagination, and
    the in-place updates the handlers make to one notice document. The
    `NoticeDoc` object stands for the stored document: a save that fails
    validation leaves it as stored. */
module Notices {
  import opened Common
  import opened Text

  const Categories: set<string> :=
    {"general", "maintenance", "events", "rules", "emergency", "food", "facilities", "academic", "fees", "other"}
  const Priorities: set<string> := {"low", "medium", "high", "urgent"}
  const Audiences: set<string> := {"all", "students", "specific_hostel", "specific_room"}

  datatype ReadReceipt = ReadReceipt(user: UserId, readAt: int)
  datatype Comment = Comment(author: UserId, content: string, createdAt: int)

  /** A stored notice; times are integers on one clock. */
  datatype Notice = Notice(
    title: string,
    content: string,
    author: UserId,
    category: string,
    priority: string,
    targetAudience: string,
    targetHostels: seq<int>,
    targetHostelNames: seq<string>,
    targetRooms: seq<RoomId>,
    isPublished: bool,
    publishedAt: Option<int>,
    expiresAt: Option<int>,
    isPinned: bool,
    readBy: seq<ReadReceipt>,
    likes: seq<UserId>,
    comments: seq<Comment>,
    tags: seq<string>,
    isUrgent: bool,
    viewCount: int)

  datatype NoticeFailure = NoticeNotFound | AccessDenied | NoticeInvalid

  /** A comment passes its sub-schema: content present (after the trim
      setter) and at most 500 characters. */
  predicate CommentValid(c: Comment) {
    c.content != "" && |c.content| <= 500
  }

  /** The schema: title and content present and within their lengths,
      category, priority and audience in their enums, hostel targets from 1
      to 8, and valid comments. */
  predicate NoticeSchemaValid(n: Notice) {
    n.title != "" && |n.title| <= 200 && n.content != "" && |n.content| <= 5000
    && n.category in Categories && n.priority in Priorities && n.targetAudience in Audiences
    && (forall i :: 0 <= i < |n.targetHostels| ==> 1 <= n.targetHostels[i] <= 8)
    && (forall i :: 0 <= i < |n.comments| ==> CommentValid(n.comments[i]))
  }

  /** What every saved notice satisfies: it passed validation, and the hook
      has flagged an urgent one. */
  predicate Stored(n: Notice) {
    NoticeSchemaValid(n) && (n.priority == "urgent" ==> n.isUrgent)
  }

  /** The pre-save hook: stamp `publishedAt` when `isPublished` was modified
      to true and no time is set; flag an urgent notice (never unflag). */
  function PreSave(n: Notice, publishedModified: bool, now: int): (m: Notice)
    ensures m.publishedAt != n.publishedAt <==> publishedModified && n.isPublished && n.publishedAt.None?
    ensures m.publishedAt != n.publishedAt ==> m.publishedAt == Some(now)
    ensures m.isUrgent <==> n.isUrgent || n.priority == "urgent"
    ensures m.(publishedAt := n.publishedAt, isUrgent := n.isUrgent) == n
  {
    var stamped := if publishedModified && n.isPublished && n.publishedAt.None? then n.(publishedAt := Some(now)) else n;
    if n.priority == "urgent" then stamped.(isUrgent := true) else stamped
  }

  /** Running the hook again changes nothing, whatever the clock says. */
  lemma PreSaveIdempotent(n: Notice, publishedModified: bool, now: int, later: int)
    ensures PreSave(PreSave(n, publishedModified, now), publishedModified, later) == PreSave(n, publishedModified, now)
  {
  }

  /** A saved notice passes its schema, and saving keeps it so. */
  lemma PreSaveKeepsStored(n: Notice, publishedModified: bool, now: int)
    requires NoticeSchemaValid(n)
    ensures Stored(PreSave(n, publishedModified, now))
  {
  }

  /** The outcome of `addComment`: a student may not comment on an
      unpublished notice; an empty or over-long comment fails validation;
      otherwise the trimmed comment. */
  function CommentOutcome(n: Notice, role: string, u: UserId, text: Option<string>, now: int): (r: Result<Comment, NoticeFailure>)
    ensures r == Err(AccessDenied) <==> role == "student" && !n.isPublished
    ensures r.Err? ==> r.error == AccessDenied || r.error == NoticeInvalid
    ensures r.Ok? ==> CommentValid(r.value) && r.value == Comment(u, Trim(text.GetOr("")), now)
    ensures !(role == "student" && !n.isPublished) && CommentValid(Comment(u, Trim(text.GetOr("")), now)) ==> r.Ok?
  {
    if role == "student" && !n.isPublished then Err(AccessDenied)
    else
      var comment := Comment(u, Trim(text.GetOr("")), now);
      if CommentValid(comment) then Ok(comment) else Err(NoticeInvalid)
  }

  /** Appending a valid comment keeps a notice within its schema. */
  lemma CommentKeepsSchema(n: Notice, c: Comment)
    requires NoticeSchemaValid(n) && CommentValid(c)
    ensures NoticeSchemaValid(n.(comments := n.comments + [c]))
  {
    var cs := n.comments + [c];
    forall i | 0 <= i < |cs| ensures CommentValid(cs[i]) {
      if i < |n.comments| {
        assert cs[i] == n.comments[i];
      }
    }
  }

  /** The `isActive` virtual: published, and no expiry or one after now. */
  function IsActive(n: Notice, now: int): (b: bool)
    ensures b ==> n.isPublished
    ensures n.isPublished && n.expiresAt.None? ==> b
    ensures n.expiresAt.Some? && n.expiresAt.value <= now ==> !b
    ensures b <==> n.isPublished && Unexpired(n, now)
  {
    n.isPublished && (n.expiresAt.None? || n.expiresAt.value > now)
  }

  /** Not expired: no expiry, or one after now. */
  function Unexpired(n: Notice, now: int): (b: bool)
    ensures n.expiresAt.None? ==> b
    ensures n.expiresAt.Some? ==> (b <==> now < n.expiresAt.value)
  {
    n.expiresAt.None? || n.expiresAt.value > now
  }

  /** Activity only ends: a notice active now was active at every earlier
      time, and one inactive now stays inactive. */
  lemma ActiveEarlier(n: Notice, earlier: int, later: int)
    requires earlier <= later
    ensures IsActive(n, later) ==> IsActive(n, earlier)
    ensures !IsActive(n, earlier) ==> !IsActive(n, later)
  {
  }

  /* ---------------- creation ---------------- */

  /** The body of `createNotice`; absent keys are `None`. */
  datatype NoticeBody = NoticeBody(
    title: Option<string>,
    content: Option<string>,
    category: Option<string>,
    priority: Option<string>,
    targetAudience: Option<string>,
    targetHostels: Option<seq<int>>,
    targetHostelNames: Option<seq<string>>,
    targetRooms: Option<seq<RoomId>>,
    expiresAt: Option<int>,
    isPinned: Option<bool>,
    tags: Option<seq<string>>,
    isPublished: Option<bool>)

  /** A tag as the `trim` and `lowercase` setters store it. */
  function NormalTag(t: string): string {
    ToLower(Trim(t))
  }

  function NormalTags(ts: seq<string>): (r: seq<string>)
    ensures |r| == |ts| && forall i :: 0 <= i < |ts| ==> r[i] == NormalTag(ts[i])
  {
    seq(|ts|, i requires 0 <= i < |ts| => NormalTag(ts[i]))
  }

  /** The document `createNotice` builds before saving. */
  function NoticeDraft(author: UserId, body: NoticeBody): Notice {
    Notice(Trim(body.title.GetOr("")), Trim(body.content.GetOr("")), author, body.category.GetOr(""),
           if Truthy(body.priority) then body.priority.value else "medium",
           if Truthy(body.targetAudience) then body.targetAudience.value else "all",
           body.targetHostels.GetOr([]), body.targetHostelNames.GetOr([]), body.targetRooms.GetOr([]),
           body.isPublished.GetOr(false), None, body.expiresAt, body.isPinned.GetOr(false),
           [], [], [], NormalTags(body.tags.GetOr([])), false, 0)
  }

  /** `createNotice`: priority `medium`, audience `all`, unpinned and
      unpublished unless the body says otherwise; a notice created
      published is stamped now; nothing is read, liked or commented yet.
      A body that fails the schema creates nothing. */
  function CreateNotice(author: UserId, body: NoticeBody, now: int): (r: Result<Notice, NoticeFailure>)
    ensures !Truthy(body.title) || !Truthy(body.content) ==> r == Err(NoticeInvalid)
    ensures r.Err? ==> r.error == NoticeInvalid
    ensures r.Ok? ==> Stored(r.value) && r.value.author == author
  {
    var draft := NoticeDraft(author, body);
    if !NoticeSchemaValid(draft) then Err(NoticeInvalid)
    else
      PreSaveKeepsStored(draft, true, now);
      Ok(PreSave(draft, true, now))
  }

  /** The defaults of a created notice. */
  lemma CreatedDefaults(author: UserId, body: NoticeBody, now: int)
    requires CreateNotice(author, body, now).Ok?
    ensures var n := CreateNotice(author, body, now).value;
      n.priority == (if Truthy(body.priority) then body.priority.value else "medium")
      && n.targetAudience == (if Truthy(body.targetAudience) then body.targetAudience.value else "all")
      && n.isPinned == body.isPinned.GetOr(false) && n.isPublished == body.isPublished.GetOr(false)
  {
  }

  /** A created notice is stamped exactly when created published, has no
      readers, likes, comments or views, and is flagged urgent exactly when
      its priority is urgent. */
  lemma CreatedFresh(author: UserId, body: NoticeBody, now: int)
    requires CreateNotice(author, body, now).Ok?
    ensures var n := CreateNotice(author, body, now).value;
      (n.publishedAt.Some? <==> n.isPublished) && (n.isPublished ==> n.publishedAt == Some(now))
      && n.readBy == [] && n.likes == [] && n.comments == [] && n.viewCount == 0
      && (n.isUrgent <==> n.priority == "urgent")
  {
  }

  /* ---------------- single-notice updates ---------------- */

  /** `readBy.some(read => read.user === userId)`. */
  predicate HasRead(receipts: seq<ReadReceipt>, u: UserId) {
    exists i :: 0 <= i < |receipts| && receipts[i].user == u
  }

  /** At most one receipt per reader. */
  predicate ReceiptsDistinct(receipts: seq<ReadReceipt>) {
    forall i, j :: 0 <= i < j < |receipts| ==> receipts[i].user != receipts[j].user
  }

  /** `getNotice` by reader `u`: one more view, and a receipt unless the
      reader already has one. */
  function Viewed(n: Notice, u: UserId, now: int): (m: Notice)
    ensures m.viewCount == n.viewCount + 1
    ensures HasRead(m.readBy, u)
    ensures m.readBy == n.readBy || m.readBy == n.readBy + [ReadReceipt(u, now)]
    ensures m.readBy != n.readBy <==> !HasRead(n.readBy, u)
    ensures m.(viewCount := n.viewCount, readBy := n.readBy) == n
  {
    var receipts := if HasRead(n.readBy, u) then n.readBy else n.readBy + [ReadReceipt(u, now)];
    assert receipts[|receipts| - 1].user == u || HasRead(n.readBy, u);
    n.(viewCount := n.viewCount + 1, readBy := receipts)
  }

  /** Views keep counting, receipts do not: a second view by the same
      reader adds no receipt. */
  lemma ViewedAgain(n: Notice, u: UserId, now: int, later: int)
    ensures Viewed(Viewed(n, u, now), u, later) == Viewed(n, u, now).(viewCount := n.viewCount + 2)
  {
  }

  /** Viewing keeps one receipt per reader. */
  lemma ViewedKeepsReceiptsDistinct(n: Notice, u: UserId, now: int)
    requires ReceiptsDistinct(n.readBy)
    ensures ReceiptsDistinct(Viewed(n, u, now).readBy)
  {
    if !HasRead(n.readBy, u) {
      var r := n.readBy + [ReadReceipt(u, now)];
      forall i, j | 0 <= i < j < |r| ensures r[i].user != r[j].user {
        if j == |n.readBy| {
          assert r[i] == n.readBy[i];
        } else {
          assert r[i] == n.readBy[i] && r[j] == n.readBy[j];
        }
      }
    }
  }

  /** `togglePublishNotice`: flip `isPublished`; the first publication is
      stamped now, and a later one keeps the first time. */
  function Toggled(n: Notice, now: int): (m: Notice)
    ensures m.isPublished == !n.isPublished
    ensures n.publishedAt.Some? ==> m.publishedAt == n.publishedAt
    ensures n.publishedAt.None? ==> (m.publishedAt.Some? <==> m.isPublished)
    ensures m.publishedAt.Some? && n.publishedAt.None? ==> m.publishedAt == Some(now)
    ensures m.(isPublished := n.isPublished, publishedAt := n.publishedAt) == n
  {
    var flipped := n.(isPublished := !n.isPublished);
    if flipped.isPublished && flipped.publishedAt.None? then flipped.(publishedAt := Some(now)) else flipped
  }

  /** Publishing, unpublishing and publishing again keeps the first
      publication time. */
  lemma {:induction false} ToggledThriceKeepsFirstStamp(n: Notice, t1: int, t2: int, t3: int)
    requires !n.isPublished && n.publishedAt.None?
    ensures Toggled(Toggled(Toggled(n, t1), t2), t3).isPublished
    ensures Toggled(Toggled(Toggled(n, t1), t2), t3).publishedAt == Some(t1)
  {
    var once := Toggled(n, t1);
    assert once.publishedAt == Some(t1);
    var twice := Toggled(once, t2);
    assert twice.publishedAt == Some(t1) && !twice.isPublished;
  }

  /** `likeNotice`: the like toggle. */
  function Liked(n: Notice, u: UserId): (m: Notice)
    ensures u in m.likes <==> u !in n.likes
    ensures forall v :: v != u ==> (v in m.likes <==> v in n.likes)
    ensures m.(likes := n.likes) == n
  {
    n.(likes := ToggleMembership(n.likes, u))
  }

  /** A like list without repeats stays so, and the count moves by one. */
  lemma LikedCount(n: Notice, u: UserId)
    requires NoDup(n.likes)
    ensures NoDup(Liked(n, u).likes)
    ensures |Liked(n, u).likes| == if u in n.likes then |n.likes| - 1 else |n.likes| + 1
  {
    ToggleLength(n.likes, u);
  }

  /** Liking twice from a reader who had not liked gives the notice back. */
  lemma LikedTwiceRestores(n: Notice, u: UserId)
    requires u !in n.likes
    ensures Liked(Liked(n, u), u) == n
  {
    ToggleTwiceRestores(n.likes, u);
  }

  /* ---------------- updateNotice ---------------- */

  /** A key of the update body with its value, as the setters store it. */
  datatype NoticeField =
    | Title(title: string)
    | Content(content: string)
    | Author(author: UserId)
    | Category(category: string)
    | Priority(priority: string)
    | TargetAudience(targetAudience: string)
    | TargetHostels(targetHostels: seq<int>)
    | TargetHostelNames(targetHostelNames: seq<string>)
    | TargetRooms(targetRooms: seq<RoomId>)
    | IsPublished(isPublished: bool)
    | PublishedAt(publishedAt: Option<int>)
    | ExpiresAt(expiresAt: Option<int>)
    | IsPinned(isPinned: bool)
    | ReadBy(readBy: seq<ReadReceipt>)
    | Likes(likes: seq<UserId>)
    | Comments(comments: seq<Comment>)
    | Tags(tags: seq<string>)
    | IsUrgent(isUrgent: bool)
    | ViewCount(viewCount: int)

  /** The schema keys an update body can name. */
  datatype FieldKey =
    | TitleKey
    | ContentKey
    | AuthorKey
    | CategoryKey
    | PriorityKey
    | TargetAudienceKey
    | TargetHostelsKey
    | TargetHostelNamesKey
    | TargetRoomsKey
    | IsPublishedKey
    | PublishedAtKey
    | ExpiresAtKey
    | IsPinnedKey
    | ReadByKey
    | LikesKey
    | CommentsKey
    | TagsKey
    | IsUrgentKey
    | ViewCountKey

  /** One entry of the body: a key with a value, or a key whose value is
      `undefined`. */
  datatype NoticeUpdate = Set(field: NoticeField) | Undefined(key: FieldKey)

  function Key(f: NoticeField): FieldKey {
    match f
    case Title(_) => TitleKey
    case Content(_) => ContentKey
    case Author(_) => AuthorKey
    case Category(_) => CategoryKey
    case Priority(_) => PriorityKey
    case TargetAudience(_) => TargetAudienceKey
    case TargetHostels(_) => TargetHostelsKey
    case TargetHostelNames(_) => TargetHostelNamesKey
    case TargetRooms(_) => TargetRoomsKey
    case IsPublished(_) => IsPublishedKey
    case PublishedAt(_) => PublishedAtKey
    case ExpiresAt(_) => ExpiresAtKey
    case IsPinned(_) => IsPinnedKey
    case ReadBy(_) => ReadByKey
    case Likes(_) => LikesKey
    case Comments(_) => CommentsKey
    case Tags(_) => TagsKey
    case IsUrgent(_) => IsUrgentKey
    case ViewCount(_) => ViewCountKey
  }

  /** `notice[key] = value`, through the field's setters. */
  function Assign(n: Notice, f: NoticeField): Notice {
    match f
    case Title(s) => n.(title := Trim(s))
    case Content(s) => n.(content := Trim(s))
    case Author(a) => n.(author := a)
    case Category(s) => n.(category := s)
    case Priority(s) => n.(priority := s)
    case TargetAudience(s) => n.(targetAudience := s)
    case TargetHostels(hs) => n.(targetHostels := hs)
    case TargetHostelNames(hs) => n.(targetHostelNames := hs)
    case TargetRooms(rs) => n.(targetRooms := rs)
    case IsPublished(b) => n.(isPublished := b)
    case PublishedAt(t) => n.(publishedAt := t)
    case ExpiresAt(t) => n.(expiresAt := t)
    case IsPinned(b) => n.(isPinned := b)
    case ReadBy(rs) => n.(readBy := rs)
    case Likes(ls) => n.(likes := ls)
    case Comments(cs) => n.(comments := cs)
    case Tags(ts) => n.(tags := NormalTags(ts))
    case IsUrgent(b) => n.(isUrgent := b)
    case ViewCount(v) => n.(viewCount := v)
  }

  /** The keys the body gives a defined value. */
  function TouchedKeys(us: seq<NoticeUpdate>): set<FieldKey> {
    set i | 0 <= i < |us| && us[i].Set? :: Key(us[i].field)
  }

  /** The `forEach` over the body's keys, skipping undefined values. */
  function ApplyUpdates(n: Notice, us: seq<NoticeUpdate>): Notice
    decreases |us|
  {
    if us == [] then n
    else
      var prev := ApplyUpdates(n, us[..|us| - 1]);
      match us[|us| - 1]
      case Undefined(_) => prev
      case Set(f) => Assign(prev, f)
  }

  /** The field `k` of `n`, as the update entry that would set it. */
  function Field(n: Notice, k: FieldKey): (f: NoticeField)
    ensures Key(f) == k
  {
    match k
    case TitleKey => Title(n.title)
    case ContentKey => Content(n.content)
    case AuthorKey => Author(n.author)
    case CategoryKey => Category(n.category)
    case PriorityKey => Priority(n.priority)
    case TargetAudienceKey => TargetAudience(n.targetAudience)
    case TargetHostelsKey => TargetHostels(n.targetHostels)
    case TargetHostelNamesKey => TargetHostelNames(n.targetHostelNames)
    case TargetRoomsKey => TargetRooms(n.targetRooms)
    case IsPublishedKey => IsPublished(n.isPublished)
    case PublishedAtKey => PublishedAt(n.publishedAt)
    case ExpiresAtKey => ExpiresAt(n.expiresAt)
    case IsPinnedKey => IsPinned(n.isPinned)
    case ReadByKey => ReadBy(n.readBy)
    case LikesKey => Likes(n.likes)
    case CommentsKey => Comments(n.comments)
    case TagsKey => Tags(n.tags)
    case IsUrgentKey => IsUrgent(n.isUrgent)
    case ViewCountKey => ViewCount(n.viewCount)
  }

  /** `m` agrees with `n` on every field whose key is not in `keys`. */
  predicate SameExcept(n: Notice, m: Notice, keys: set<FieldKey>) {
    forall k :: k !in keys ==> Field(m, k) == Field(n, k)
  }

  /** One assignment changes only its own field. */
  lemma AssignFrame(n: Notice, f: NoticeField)
    ensures SameExcept(n, Assign(n, f), {Key(f)})
  {
    forall k | k !in {Key(f)} ensures Field(Assign(n, f), k) == Field(n, k) {
      FieldOfAssign(n, f, k);
    }
  }

  /** The fields that hold a list. */
  predicate ListValued(f: NoticeField) {
    f.TargetHostels? || f.TargetHostelNames? || f.TargetRooms? || f.ReadBy? || f.Likes? || f.Comments? || f.Tags?
  }

  predicate TextValued(f: NoticeField) {
    f.Title? || f.Content? || f.Author? || f.Category? || f.Priority? || f.TargetAudience?
  }

  /** Assigning a field leaves every other field as it was; the proof is
      split between the list-valued, the text and the remaining fields. */
  lemma FieldOfAssign(n: Notice, f: NoticeField, k: FieldKey)
    requires k != Key(f)
    ensures Field(Assign(n, f), k) == Field(n, k)
  {
    if ListValued(f) {
      FieldOfAssignList(n, f, k);
    } else if TextValued(f) {
      FieldOfAssignText(n, f, k);
    } else {
      FieldOfAssignScalar(n, f, k);
    }
  }

  lemma FieldOfAssignList(n: Notice, f: NoticeField, k: FieldKey)
    requires k != Key(f) && ListValued(f)
    ensures Field(Assign(n, f), k) == Field(n, k)
  {
  }

  lemma FieldOfAssignText(n: Notice, f: NoticeField, k: FieldKey)
    requires k != Key(f) && TextValued(f)
    ensures Field(Assign(n, f), k) == Field(n, k)
  {
  }

  lemma FieldOfAssignScalar(n: Notice, f: NoticeField, k: FieldKey)
    requires k != Key(f) && !ListValued(f) && !TextValued(f)
    ensures Field(Assign(n, f), k) == Field(n, k)
  {
  }

  /** One assignment overwrites whatever the same key held. */
  lemma AssignOverwrites(n: Notice, f: NoticeField, g: NoticeField)
    requires Key(f) == Key(g)
    ensures Assign(Assign(n, f), g) == Assign(n, g)
  {
    match f
    case Title(_) => assert g.Title?;
    case Content(_) => assert g.Content?;
    case Author(_) => assert g.Author?;
    case Category(_) => assert g.Category?;
    case Priority(_) => assert g.Priority?;
    case TargetAudience(_) => assert g.TargetAudience?;
    case TargetHostels(_) => assert g.TargetHostels?;
    case TargetHostelNames(_) => assert g.TargetHostelNames?;
    case TargetRooms(_) => assert g.TargetRooms?;
    case IsPublished(_) => assert g.IsPublished?;
    case PublishedAt(_) => assert g.PublishedAt?;
    case ExpiresAt(_) => assert g.ExpiresAt?;
    case IsPinned(_) => assert g.IsPinned?;
    case ReadBy(_) => assert g.ReadBy?;
    case Likes(_) => assert g.Likes?;
    case Comments(_) => assert g.Comments?;
    case Tags(_) => assert g.Tags?;
    case IsUrgent(_) => assert g.IsUrgent?;
    case ViewCount(_) => assert g.ViewCount?;
  }

  lemma SameExceptTrans(a: Notice, b: Notice, c: Notice, k1: set<FieldKey>, k2: set<FieldKey>)
    requires SameExcept(a, b, k1) && SameExcept(b, c, k2)
    ensures SameExcept(a, c, k1 + k2)
  {
  }

  /** The keys of a body include those of its prefix, and the last key
      when its value is defined. */
  lemma TouchedKeysOfPrefix(us: seq<NoticeUpdate>)
    requires us != []
    ensures TouchedKeys(us[..|us| - 1]) <= TouchedKeys(us)
    ensures us[|us| - 1].Set? ==> Key(us[|us| - 1].field) in TouchedKeys(us)
  {
    var init := us[..|us| - 1];
    forall key | key in TouchedKeys(init) ensures key in TouchedKeys(us) {
      var i :| 0 <= i < |init| && init[i].Set? && Key(init[i].field) == key;
      assert us[i] == init[i];
    }
  }

  /** The update touches only the keys the body defines: every other field
      keeps its value. */
  lemma {:induction false} ApplyUpdatesFrame(n: Notice, us: seq<NoticeUpdate>)
    ensures SameExcept(n, ApplyUpdates(n, us), TouchedKeys(us))
    decreases |us|
  {
    if us != [] {
      var init := us[..|us| - 1];
      var prev := ApplyUpdates(n, init);
      ApplyUpdatesFrame(n, init);
      TouchedKeysOfPrefix(us);
      if us[|us| - 1].Set? {
        var f := us[|us| - 1].field;
        AssignFrame(prev, f);
        SameExceptTrans(n, prev, Assign(prev, f), TouchedKeys(init), {Key(f)});
        SameExceptWeaken(n, Assign(prev, f), TouchedKeys(init) + {Key(f)}, TouchedKeys(us));
      } else {
        SameExceptWeaken(n, prev, TouchedKeys(init), TouchedKeys(us));
      }
    }
  }

  lemma SameExceptWeaken(n: Notice, m: Notice, k1: set<FieldKey>, k2: set<FieldKey>)
    requires SameExcept(n, m, k1) && k1 <= k2
    ensures SameExcept(n, m, k2)
  {
  }

  /** A key given twice in a row is set by its second value. */
  lemma LastAssignmentWins(n: Notice, us: seq<NoticeUpdate>, f: NoticeField, g: NoticeField)
    requires Key(f) == Key(g)
    ensures ApplyUpdates(n, us + [Set(f), Set(g)]) == ApplyUpdates(n, us + [Set(g)])
  {
    assert (us + [Set(f), Set(g)])[..|us| + 1] == us + [Set(f)];
    assert (us + [Set(f)])[..|us|] == us;
    assert (us + [Set(g)])[..|us|] == us;
    AssignOverwrites(ApplyUpdates(n, us), f, g);
  }

  /** An undefined value is skipped. */
  lemma UndefinedSkipped(n: Notice, us: seq<NoticeUpdate>, key: FieldKey)
    ensures ApplyUpdates(n, us + [Undefined(key)]) == ApplyUpdates(n, us)
  {
    assert (us + [Undefined(key)])[..|us|] == us;
  }

  /* ---------------- listing ---------------- */

  /** An `$or` clause of the audience filter. */
  datatype AudienceClause =
    | ForAudience(audience: string)
    | ForHostel(hostel: int)
    | ForRoom(room: RoomId)

  predicate ClauseAdmits(c: AudienceClause, n: Notice) {
    match c
    case ForAudience(a) => n.targetAudience == a
    case ForHostel(h) => n.targetAudience == "specific_hostel" && h in n.targetHostels
    case ForRoom(r) => n.targetAudience == "specific_room" && r in n.targetRooms
  }

  predicate AnyClauseAdmits(clauses: seq<AudienceClause>, n: Notice) {
    exists i :: 0 <= i < |clauses| && ClauseAdmits(clauses[i], n)
  }

  /** Who a notice reaches, stated on the notice: everyone and students
      always; a hostel's notices when the reader's room has a (non-zero)
      hostel number that is targeted; a room's notices when the reader holds
      a targeted room. */
  function Reaches(n: Notice, hostelNumber: Option<int>, room: Option<RoomId>): (b: bool)
    ensures n.targetAudience == "all" || n.targetAudience == "students" ==> b
    ensures b ==> n.targetAudience in Audiences
    ensures b && n.targetAudience == "specific_hostel" ==> NumberTruthy(hostelNumber) && hostelNumber.value in n.targetHostels
    ensures b && n.targetAudience == "specific_room" ==> room.Some? && room.value in n.targetRooms
    ensures !NumberTruthy(hostelNumber) && room.None? ==> (b <==> n.targetAudience == "all" || n.targetAudience == "students")
  {
    n.targetAudience == "all" || n.targetAudience == "students"
    || (n.targetAudience == "specific_hostel" && NumberTruthy(hostelNumber) && hostelNumber.value in n.targetHostels)
    || (n.targetAudience == "specific_room" && room.Some? && room.value in n.targetRooms)
  }

  /** The audience filter, built as the controller and the model's static
      build it: two clauses, then one pushed per piece of room information. */
  method AudienceFilter(hostelNumber: Option<int>, room: Option<RoomId>) returns (clauses: seq<AudienceClause>)
    ensures forall n :: AnyClauseAdmits(clauses, n) <==> Reaches(n, hostelNumber, room)
  {
    clauses := [ForAudience("all"), ForAudience("students")];
    if NumberTruthy(hostelNumber) {
      clauses := clauses + [ForHostel(hostelNumber.value)];
    }
    if room.Some? {
      clauses := clauses + [ForRoom(room.value)];
    }
    forall n | Reaches(n, hostelNumber, room) ensures AnyClauseAdmits(clauses, n) {
      if n.targetAudience == "all" {
        assert ClauseAdmits(clauses[0], n);
      } else if n.targetAudience == "students" {
        assert ClauseAdmits(clauses[1], n);
      } else if n.targetAudience == "specific_hostel" {
        assert ClauseAdmits(clauses[2], n);
      } else {
        assert ClauseAdmits(clauses[|clauses| - 1], n);
      }
    }
  }

  /** The query string of `getNotices`; `includeExpired` is raw text. */
  datatype NoticeQuery = NoticeQuery(
    category: Option<string>,
    priority: Option<string>,
    includeExpired: Option<string>)

  /** The `getNotices` filter. A student sees published notices that reach
      them, and unexpired ones only when `includeExpired` is absent or
      empty (any text, `"false"` included, turns the expiry filter off);
      other roles see every notice. Category and priority filter when
      given. */
  function Listed(n: Notice, role: string, q: NoticeQuery, now: int, hostelNumber: Option<int>, room: Option<RoomId>): (b: bool)
    ensures b && role == "student" ==> n.isPublished && Reaches(n, hostelNumber, room)
    ensures b && role == "student" && !Truthy(q.includeExpired) ==> IsActive(n, now)
    ensures role != "student" && !Truthy(q.category) && !Truthy(q.priority) ==> b
    ensures b && Truthy(q.category) ==> n.category == q.category.value
    ensures b && Truthy(q.priority) ==> n.priority == q.priority.value
  {
    (role == "student" ==>
       n.isPublished && (!Truthy(q.includeExpired) ==> Unexpired(n, now)) && Reaches(n, hostelNumber, room))
    && (Truthy(q.category) ==> n.category == q.category.value)
    && (Truthy(q.priority) ==> n.priority == q.priority.value)
  }

  /** `getActiveNoticesForUser`: published, unexpired notices that reach
      the user. */
  function ActiveFor(n: Notice, now: int, hostelNumber: Option<int>, room: Option<RoomId>): (b: bool)
    ensures b <==> IsActive(n, now) && Reaches(n, hostelNumber, room)
  {
    n.isPublished && Unexpired(n, now) && Reaches(n, hostelNumber, room)
  }

  /** The expiry clauses of the static's `$or`: the field is missing, it is
      null, or it is after now. A missing and a null expiry are both `None`
      here. */
  datatype ExpiryClause = ExpiryMissing | ExpiryNull | ExpiresAfter(t: int)

  predicate ExpiryAdmits(c: ExpiryClause, n: Notice) {
    match c
    case ExpiryMissing => n.expiresAt.None?
    case ExpiryNull => n.expiresAt.None?
    case ExpiresAfter(t) => n.expiresAt.Some? && n.expiresAt.value > t
  }

  /** The query `getActiveNoticesForUser` hands to `find`: `isPublished`,
      the expiry `$or`, and the audience `$or` under `$and`. */
  datatype ActiveQuery = ActiveQuery(isPublished: bool, expiry: seq<ExpiryClause>, audience: seq<AudienceClause>)

  predicate QueryAdmits(q: ActiveQuery, n: Notice) {
    n.isPublished == q.isPublished
    && (exists i :: 0 <= i < |q.expiry| && ExpiryAdmits(q.expiry[i], n))
    && AnyClauseAdmits(q.audience, n)
  }

  /** `getActiveNoticesForUser`: builds the query clause by clause; the
      notices it admits are exactly the active ones that reach the user. */
  method ActiveNoticesQuery(now: int, hostelNumber: Option<int>, room: Option<RoomId>) returns (q: ActiveQuery)
    ensures forall n :: QueryAdmits(q, n) <==> ActiveFor(n, now, hostelNumber, room)
  {
    var expiry := [ExpiryMissing, ExpiryNull, ExpiresAfter(now)];
    var audience := AudienceFilter(hostelNumber, room);
    q := ActiveQuery(true, expiry, audience);
    forall n | ActiveFor(n, now, hostelNumber, room) ensures QueryAdmits(q, n) {
      if n.expiresAt.None? {
        assert ExpiryAdmits(expiry[0], n);
      } else {
        assert ExpiryAdmits(expiry[2], n);
      }
    }
  }

  /** The model's static and a student's unfiltered listing admit the same
      notices, and those are exactly the active ones that reach the
      student. */
  lemma ActiveForIsStudentListing(n: Notice, now: int, hostelNumber: Option<int>, room: Option<RoomId>)
    ensures ActiveFor(n, now, hostelNumber, room)
        <==> Listed(n, "student", NoticeQuery(None, None, None), now, hostelNumber, room)
    ensures ActiveFor(n, now, hostelNumber, room) <==> IsActive(n, now) && Reaches(n, hostelNumber, room)
  {
  }

  /* ---------------- the notice document ---------------- */

  class NoticeDoc {
    var title: string
    var content: string
    var author: UserId
    var category: string
    var priority: string
    var targetAudience: string
    var targetHostels: seq<int>
    var targetHostelNames: seq<string>
    var targetRooms: seq<RoomId>
    var isPublished: bool
    var publishedAt: Option<int>
    var expiresAt: Option<int>
    var isPinned: bool
    var readBy: seq<ReadReceipt>
    var likes: seq<UserId>
    var comments: seq<Comment>
    var tags: seq<string>
    var isUrgent: bool
    var viewCount: int

    function Value(): Notice
      reads this
    {
      Notice(title, content, author, category, priority, targetAudience, targetHostels, targetHostelNames,
             targetRooms, isPublished, publishedAt, expiresAt, isPinned, readBy, likes, comments, tags,
             isUrgent, viewCount)
    }

    predicate Valid()
      reads this
    {
      Stored(Value())
    }

    /** The `likeCount`, `commentCount` and `readCount` virtuals. */
    function LikeCount(): (c: nat)
      reads this
      ensures c == |likes| && (c == 0 <==> likes == [])
    {
      |likes|
    }

    function CommentCount(): (c: nat)
      reads this
      ensures c == |comments| && (c == 0 <==> comments == [])
    {
      |comments|
    }

    function ReadCount(): (c: nat)
      reads this
      ensures c == |readBy| && (c == 0 <==> readBy == [])
    {
      |readBy|
    }

    /** Load a saved notice. */
    constructor (n: Notice)
      requires Stored(n)
      ensures Value() == n && Valid()
    {
      title := n.title;
      content := n.content;
      author := n.author;
      category := n.category;
      priority := n.priority;
      targetAudience := n.targetAudience;
      targetHostels := n.targetHostels;
      targetHostelNames := n.targetHostelNames;
      targetRooms := n.targetRooms;
      isPublished := n.isPublished;
      publishedAt := n.publishedAt;
      expiresAt := n.expiresAt;
      isPinned := n.isPinned;
      readBy := n.readBy;
      likes := n.likes;
      comments := n.comments;
      tags := n.tags;
      isUrgent := n.isUrgent;
      viewCount := n.viewCount;
    }

    /** `notice[key] = value` for one defined key, through that path's
        setter. */
    method AssignField(f: NoticeField)
      modifies this
      ensures Value() == Assign(old(Value()), f)
    {
      match f
      case Title(v) => SetTitle(v);
      case Content(v) => SetContent(v);
      case Author(v) => SetAuthor(v);
      case Category(v) => SetCategory(v);
      case Priority(v) => SetPriority(v);
      case TargetAudience(v) => SetTargetAudience(v);
      case TargetHostels(v) => SetTargetHostels(v);
      case TargetHostelNames(v) => SetTargetHostelNames(v);
      case TargetRooms(v) => SetTargetRooms(v);
      case IsPublished(v) => SetIsPublished(v);
      case PublishedAt(v) => SetPublishedAt(v);
      case ExpiresAt(v) => SetExpiresAt(v);
      case IsPinned(v) => SetIsPinned(v);
      case ReadBy(v) => SetReadBy(v);
      case Likes(v) => SetLikes(v);
      case Comments(v) => SetComments(v);
      case Tags(v) => SetTags(v);
      case IsUrgent(v) => SetIsUrgent(v);
      case ViewCount(v) => SetViewCount(v);
    }

    method SetTitle(v: string)
      modifies this
      ensures Value() == Assign(old(Value()), Title(v))
    {
      var t := Trim(v);
      assert Assign(Value(), Title(v)) == Value().(title := t);
      title := t;
    }

    method SetContent(v: string)
      modifies this
      ensures Value() == Assign(old(Value()), Content(v))
    {
      var t := Trim(v);
      assert Assign(Value(), Content(v)) == Value().(content := t);
      content := t;
    }

    method SetAuthor(v: UserId)
      modifies this
      ensures Value() == Assign(old(Value()), Author(v))
    {
      author := v;
    }

    method SetCategory(v: string)
      modifies this
      ensures Value() == Assign(old(Value()), Category(v))
    {
      category := v;
    }

    method SetPriority(v: string)
      modifies this
      ensures Value() == Assign(old(Value()), Priority(v))
    {
      priority := v;
    }

    method SetTargetAudience(v: string)
      modifies this
      ensures Value() == Assign(old(Value()), TargetAudience(v))
    {
      targetAudience := v;
    }

    method SetTargetHostels(v: seq<int>)
      modifies this
      ensures Value() == Assign(old(Value()), TargetHostels(v))
    {
      targetHostels := v;
    }

    method SetTargetHostelNames(v: seq<string>)
      modifies this
      ensures Value() == Assign(old(Value()), TargetHostelNames(v))
    {
      targetHostelNames := v;
    }

    method SetTargetRooms(v: seq<RoomId>)
      modifies this
      ensures Value() == Assign(old(Value()), TargetRooms(v))
    {
      targetRooms := v;
    }

    method SetIsPublished(v: bool)
      modifies this
      ensures Value() == Assign(old(Value()), IsPublished(v))
    {
      isPublished := v;
    }

    method SetPublishedAt(v: Option<int>)
      modifies this
      ensures Value() == Assign(old(Value()), PublishedAt(v))
    {
      publishedAt := v;
    }

    method SetExpiresAt(v: Option<int>)
      modifies this
      ensures Value() == Assign(old(Value()), ExpiresAt(v))
    {
      expiresAt := v;
    }

    method SetIsPinned(v: bool)
      modifies this
      ensures Value() == Assign(old(Value()), IsPinned(v))
    {
      isPinned := v;
    }

    method SetReadBy(v: seq<ReadReceipt>)
      modifies this
      ensures Value() == Assign(old(Value()), ReadBy(v))
    {
      readBy := v;
    }

    method SetLikes(v: seq<UserId>)
      modifies this
      ensures Value() == Assign(old(Value()), Likes(v))
    {
      likes := v;
    }

    method SetComments(v: seq<Comment>)
      modifies this
      ensures Value() == Assign(old(Value()), Comments(v))
    {
      comments := v;
    }

    method SetTags(v: seq<string>)
      modifies this
      ensures Value() == Assign(old(Value()), Tags(v))
    {
      tags := NormalTags(v);
    }

    method SetIsUrgent(v: bool)
      modifies this
      ensures Value() == Assign(old(Value()), IsUrgent(v))
    {
      isUrgent := v;
    }

    method SetViewCount(v: int)
      modifies this
      ensures Value() == Assign(old(Value()), ViewCount(v))
    {
      viewCount := v;
    }

    /** The pre-save hook, in place. */
    method PreSaveHook(publishedModified: bool, now: int)
      modifies this
      ensures Value() == PreSave(old(Value()), publishedModified, now)
    {
      if publishedModified && isPublished && publishedAt.None? {
        publishedAt := Some(now);
      }
      if priority == "urgent" {
        isUrgent := true;
      }
    }

    /** `getNotice`: a student gets not-found for an unpublished notice;
        otherwise the view is counted and saved, then a receipt is pushed
        and saved if the reader has none. */
    method View(role: string, u: UserId, now: int) returns (r: Result<(), NoticeFailure>)
      requires Valid()
      modifies this
      ensures r.Err? <==> role == "student" && !old(isPublished)
      ensures r.Err? ==> r.error == NoticeNotFound && Value() == old(Value())
      ensures r.Ok? ==> Value() == Viewed(old(Value()), u, now)
      ensures Valid()
    {
      if role == "student" && !isPublished {
        return Err(NoticeNotFound);
      }
      viewCount := viewCount + 1;
      PreSaveHook(false, now);
      var hasRead := HasRead(readBy, u);
      if !hasRead {
        readBy := readBy + [ReadReceipt(u, now)];
        PreSaveHook(false, now);
      }
      return Ok(());
    }

    /** `togglePublishNotice`. */
    method TogglePublish(now: int) returns (published: bool)
      requires Valid()
      modifies this
      ensures Value() == Toggled(old(Value()), now)
      ensures published == isPublished
      ensures Valid()
    {
      isPublished := !isPublished;
      if isPublished && publishedAt.None? {
        publishedAt := Some(now);
      }
      PreSaveHook(true, now);
      published := isPublished;
    }

    /** `likeNotice`: answers the new like count and whether the reader now
        likes the notice. */
    method Like(u: UserId, now: int) returns (likeCount: nat, hasLiked: bool)
      requires Valid()
      modifies this
      ensures Value() == Liked(old(Value()), u)
      ensures likeCount == LikeCount() && hasLiked == (u !in old(likes))
      ensures Valid()
    {
      var had := u in likes;
      if had {
        likes := RemoveAll(likes, u);
      } else {
        likes := likes + [u];
      }
      PreSaveHook(false, now);
      likeCount := |likes|;
      hasLiked := !had;
    }

    /** `addComment` on a notice, in place: the outcome is
        `CommentOutcome`, and only an accepted comment is appended. */
    method AddComment(role: string, u: UserId, text: Option<string>, now: int) returns (r: Result<Comment, NoticeFailure>)
      requires Valid()
      modifies this
      ensures r == CommentOutcome(old(Value()), role, u, text, now)
      ensures r.Err? ==> Value() == old(Value())
      ensures r.Ok? ==> Value() == old(Value()).(comments := old(comments) + [r.value]) && CommentCount() == old(CommentCount()) + 1
      ensures Valid()
    {
      r := CommentOutcome(Value(), role, u, text, now);
      if r.Ok? {
        AppendComment(r.value, now);
      }
    }

    /** `notice.comments.push(comment)` followed by the save. */
    method AppendComment(c: Comment, now: int)
      requires Valid() && CommentValid(c)
      modifies this
      ensures Value() == old(Value()).(comments := old(comments) + [c])
      ensures Valid()
    {
      CommentKeepsSchema(Value(), c);
      comments := comments + [c];
      PreSaveKeepsStored(Value(), false, now);
      PreSaveHook(false, now);
    }

    /** `updateNotice`: assign the body's defined keys in order, validate,
        run the hook (with `isPublished` modified when its value changed)
        and save. Validation needs the final values and a failed save
        leaves the stored document as it was, so the model checks the
        assigned result first and assigns in place only when it will be
        saved. */
    method Update(us: seq<NoticeUpdate>, now: int) returns (r: Result<(), NoticeFailure>)
      requires Valid()
      modifies this
      ensures var m := ApplyUpdates(old(Value()), us);
        (r.Ok? <==> NoticeSchemaValid(m))
        && (r.Ok? ==> Value() == PreSave(m, m.isPublished != old(isPublished), now))
        && (r.Err? ==> r.error == NoticeInvalid && Value() == old(Value()))
      ensures Valid()
    {
      if !NoticeSchemaValid(ApplyUpdates(Value(), us)) {
        return Err(NoticeInvalid);
      }
      var wasPublished := isPublished;
      var i := 0;
      while i < |us|
        invariant 0 <= i <= |us|
        invariant Value() == ApplyUpdates(old(Value()), us[..i])
      {
        assert us[..i + 1][..i] == us[..i];
        if us[i].Set? {
          AssignField(us[i].field);
        }
        i := i + 1;
      }
      assert us[..i] == us;
      PreSaveKeepsStored(Value(), isPublished != wasPublished, now);
      PreSaveHook(isPublished != wasPublished, now);
      return Ok(());
    }
  }
}
