/** Change applications (backend/models/ChangeApplication.js): a student's
    request for a different bed type or hostel, decided by an admin. */
module ChangeApplications {
  import opened Common
  import opened Rooms
  import opened Profiles

  const BedTypeChange: string := "bed_type"
  const HostelChange: string := "hostel"

  datatype ApplicationStatus = AppPending | AppApproved | AppRejected

  /** The stored application. `kind` is the request's `type` text. */
  datatype ChangeApplication = ChangeApplication(
    user: UserId,
    name: string,
    registrationNumber: string,
    reason: string,
    kind: string,
    desiredSeater: Option<int>,
    desiredAC: Option<bool>,
    desiredHostel: Option<HostelRef>,
    status: ApplicationStatus,
    adminNote: Option<string>)

  /** The `desiredHostel` validator: a number from 1 to 8 or a named hostel.
      Mongoose runs it only on a value that is present. */
  function DesiredHostelValid(h: Option<HostelRef>): (ok: bool)
    ensures h.None? ==> ok
    ensures h.Some? ==>
      (ok <==> ((h.value.HostelNo? && 1 <= h.value.number <= 8) || (h.value.HostelNamed? && h.value.name in NamedHostels)))
  {
    h.None? || HostelRefValid(h.value)
  }

  /** The schema: the four texts are required (non-empty), `type` is one of
      the two kinds, and a present seater is in the seater enum. */
  predicate ApplicationSchemaValid(a: ChangeApplication) {
    a.name != "" && a.registrationNumber != "" && a.reason != ""
    && (a.kind == BedTypeChange || a.kind == HostelChange)
    && (a.desiredSeater.Some? ==> IsSeaterValue(a.desiredSeater.value))
    && DesiredHostelValid(a.desiredHostel)
  }

  /** The controller's own checks guarantee the desired fields of the
      application's kind; together with the schema this is what every
      stored application satisfies. */
  predicate ApplicationComplete(a: ChangeApplication) {
    ApplicationSchemaValid(a)
    && (a.kind == BedTypeChange ==> a.desiredSeater.Some? && a.desiredAC.Some?)
    && (a.kind == HostelChange ==> a.desiredHostel.Some?)
  }

  /** Deciding changes the status and the note and nothing that the schema
      checks, so a valid application stays valid. */
  lemma DecidingKeepsValid(a: ChangeApplication, s: ApplicationStatus, note: Option<string>)
    requires ApplicationComplete(a)
    ensures ApplicationComplete(a.(status := s, adminNote := note))
  {
  }
}
