/** Adding students by hand and in bulk (backend/controllers/adminController.js).
    Both go through the same guard, lookup and insert; the bulk form counts
    each entry as added or failed. The users collection is the directory of
    the `Auth` module. The user schema (backend/models/User.js) has no
    `branch` or `batch` path, so the insert keeps only email, name, phone
    and role. */
module Admin {
  import opened Common
  import opened Text
  import opened Auth

  /** One student of the request body; absent keys are `None`, and a
      `batch` that is not a number is `None` too. */
  datatype StudentEntry = StudentEntry(
    email: Option<string>,
    name: Option<string>,
    branch: Option<string>,
    batch: Option<int>,
    phone: Option<string>)

  datatype AdminFailure =
    | MissingFields
    | AlreadyExists
    | InsertFailed(message: string)
    | EmptyList

  /** `!email || !branch || !batch`. */
  predicate MissingRequired(e: StudentEntry) {
    !Truthy(e.email) || !Truthy(e.branch) || !NumberTruthy(e.batch)
  }

  /** The account a student entry creates. */
  function StudentAccount(e: StudentEntry): Account
    requires e.email.Some?
  {
    Account(ToLower(e.email.value), e.name, Student, None, None, e.phone)
  }

  /** Add one student: missing fields fail before any lookup; an existing
      lowercased email fails; an insert the store refuses (`insertError`
      gives its message) fails; otherwise the account is created with role
      student under the lowercased email. */
  function AddOne(accounts: map<string, Account>, e: StudentEntry, insertError: string -> Option<string>)
    : (o: (map<string, Account>, Result<Account, AdminFailure>))
    ensures MissingRequired(e) ==> o == (accounts, Err(MissingFields))
    ensures o.1.Err? ==> o.0 == accounts
    ensures o.1.Ok? ==>
      !MissingRequired(e) && ToLower(e.email.value) !in accounts
      && o.1.value.email == ToLower(e.email.value) && o.1.value.role == Student
      && o.0 == accounts[o.1.value.email := o.1.value]
    ensures !MissingRequired(e) && ToLower(e.email.value) in accounts ==> o.1 == Err(AlreadyExists)
  {
    if MissingRequired(e) then (accounts, Err(MissingFields))
    else
      var lower := ToLower(e.email.value);
      if lower in accounts then (accounts, Err(AlreadyExists))
      else match insertError(lower)
        case Some(message) => (accounts, Err(InsertFailed(message)))
        case None => (accounts[lower := StudentAccount(e)], Ok(StudentAccount(e)))
  }

  /** Adding a student keeps the directory valid. */
  lemma AddOneKeepsAccountsValid(accounts: map<string, Account>, e: StudentEntry, insertError: string -> Option<string>)
    requires AccountsValid(accounts)
    ensures AccountsValid(AddOne(accounts, e, insertError).0)
  {
    if e.email.Some? {
      ToLowerIdempotent(e.email.value);
    }
  }

  /** `addStudent`. */
  method AddStudent(dir: UserDirectory, e: StudentEntry, insertError: string -> Option<string>)
    returns (r: Result<Account, AdminFailure>)
    requires dir.Valid()
    modifies dir
    ensures (dir.accounts, r) == AddOne(old(dir.accounts), e, insertError)
    ensures dir.Valid()
  {
    AddOneKeepsAccountsValid(dir.accounts, e, insertError);
    if MissingRequired(e) {
      return Err(MissingFields);
    }
    var lower := ToLower(e.email.value);
    if lower in dir.accounts {
      return Err(AlreadyExists);
    }
    var refused := insertError(lower);
    if refused.Some? {
      return Err(InsertFailed(refused.value));
    }
    var account := StudentAccount(e);
    dir.accounts := dir.accounts[lower := account];
    return Ok(account);
  }

  /* ---------------- bulk add ---------------- */

  datatype BulkError = BulkError(email: Option<string>, message: string)

  /** The `results` object of `bulkAddStudents`. */
  datatype BulkResults = BulkResults(added: nat, failed: nat, errors: seq<BulkError>)

  /** The message recorded for a failed entry. */
  function FailureMessage(f: AdminFailure): string {
    match f
    case MissingFields => "Missing required fields"
    case AlreadyExists => "User already exists"
    case InsertFailed(message) => message
    case EmptyList => "Invalid or empty students list"
  }

  /** The results after one more entry. */
  function Tally(results: BulkResults, e: StudentEntry, r: Result<Account, AdminFailure>): BulkResults {
    if r.Ok? then results.(added := results.added + 1)
    else results.(failed := results.failed + 1, errors := results.errors + [BulkError(e.email, FailureMessage(r.error))])
  }

  /** The loop of `bulkAddStudents` over `entries`, in order: the accounts
      after it and the results. */
  function Bulk(accounts: map<string, Account>, entries: seq<StudentEntry>, insertError: string -> Option<string>)
    : (map<string, Account>, BulkResults)
    decreases |entries|
  {
    if entries == [] then (accounts, BulkResults(0, 0, []))
    else
      var prev := Bulk(accounts, entries[..|entries| - 1], insertError);
      var e := entries[|entries| - 1];
      var step := AddOne(prev.0, e, insertError);
      (step.0, Tally(prev.1, e, step.1))
  }

  /** Every entry is counted once, as added or as failed; every failure
      records one error; and each added entry created exactly one new
      account. */
  lemma {:induction false} BulkCounts(accounts: map<string, Account>, entries: seq<StudentEntry>, insertError: string -> Option<string>)
    ensures var b := Bulk(accounts, entries, insertError);
      b.1.added + b.1.failed == |entries| && |b.1.errors| == b.1.failed
      && accounts.Keys <= b.0.Keys && |b.0.Keys| == |accounts.Keys| + b.1.added
    decreases |entries|
  {
    if entries != [] {
      BulkCounts(accounts, entries[..|entries| - 1], insertError);
      var prev := Bulk(accounts, entries[..|entries| - 1], insertError);
      var step := AddOne(prev.0, entries[|entries| - 1], insertError);
      if step.1.Ok? {
        assert step.0.Keys == prev.0.Keys + {step.1.value.email};
      }
    }
  }

  /** An entry with missing fields fails without touching the directory. */
  lemma BulkSkipsIncomplete(accounts: map<string, Account>, entries: seq<StudentEntry>, e: StudentEntry,
                            insertError: string -> Option<string>)
    requires MissingRequired(e)
    ensures var before := Bulk(accounts, entries, insertError);
      Bulk(accounts, entries + [e], insertError)
        == (before.0, before.1.(failed := before.1.failed + 1,
                                errors := before.1.errors + [BulkError(e.email, "Missing required fields")]))
  {
    assert (entries + [e])[..|entries|] == entries;
  }

  /** The bulk loop keeps the directory valid. */
  lemma {:induction false} BulkKeepsAccountsValid(accounts: map<string, Account>, entries: seq<StudentEntry>,
                                                  insertError: string -> Option<string>)
    requires AccountsValid(accounts)
    ensures AccountsValid(Bulk(accounts, entries, insertError).0)
    decreases |entries|
  {
    if entries != [] {
      BulkKeepsAccountsValid(accounts, entries[..|entries| - 1], insertError);
      AddOneKeepsAccountsValid(Bulk(accounts, entries[..|entries| - 1], insertError).0, entries[|entries| - 1], insertError);
    }
  }

  /** `bulkAddStudents`: a body that is not an array, or an empty one,
      fails; otherwise each entry is added or counted as failed, in
      order. */
  method BulkAddStudents(dir: UserDirectory, students: Option<seq<StudentEntry>>, insertError: string -> Option<string>)
    returns (r: Result<BulkResults, AdminFailure>)
    requires dir.Valid()
    modifies dir
    ensures students.None? || students == Some([]) ==> r == Err(EmptyList) && dir.accounts == old(dir.accounts)
    ensures students.Some? && students.value != [] ==>
      r.Ok? && (dir.accounts, r.value) == Bulk(old(dir.accounts), students.value, insertError)
    ensures dir.Valid()
  {
    if students.None? || |students.value| == 0 {
      return Err(EmptyList);
    }
    var entries := students.value;
    var results := BulkResults(0, 0, []);
    var i := 0;
    while i < |entries|
      invariant 0 <= i <= |entries|
      invariant (dir.accounts, results) == Bulk(old(dir.accounts), entries[..i], insertError)
      invariant dir.Valid()
    {
      assert entries[..i + 1][..i] == entries[..i];
      var e := entries[i];
      var outcome := AddStudent(dir, e, insertError);
      if outcome.Ok? {
        results := results.(added := results.added + 1);
      } else {
        results := results.(failed := results.failed + 1,
                            errors := results.errors + [BulkError(e.email, FailureMessage(outcome.error))]);
      }
      i := i + 1;
    }
    assert entries[..i] == entries;
    return Ok(results);
  }
}
