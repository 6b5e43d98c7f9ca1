/** Swap requests (backend/models/SwapRequest.js): two students ask to
    exchange rooms; the initiator room's bed type is kept as a snapshot. */
module SwapRequests {
  import opened Common
  import opened Rooms

  datatype SwapStatus = SwapPendingStatus | SwapApproved | SwapRejected | SwapCancelled

  /** The status of a freshly created request. */
  const DefaultSwapStatus: SwapStatus := SwapPendingStatus

  /** `fromUser` and `toUser` are required by the types; the snapshot fields
      are optional here so that the schema check on them can be stated. */
  datatype SwapRequest = SwapRequest(
    fromUser: UserId,
    toUser: UserId,
    status: SwapStatus,
    reason: Option<string>,
    seater: Option<int>,
    ac: Option<bool>)

  /** The schema: the seater snapshot is present and in the seater enum, and
      the AC snapshot is present. */
  predicate SwapSchemaValid(s: SwapRequest) {
    s.seater.Some? && IsSeaterValue(s.seater.value) && s.ac.Some?
  }

  /** A new request as `create` builds it: status pending, snapshots copied. */
  function NewSwap(fromUser: UserId, toUser: UserId, reason: Option<string>, seater: Option<int>, ac: Option<bool>): (s: SwapRequest)
    ensures s.status == SwapPendingStatus
    ensures s.fromUser == fromUser && s.toUser == toUser && s.reason == reason
    ensures SwapSchemaValid(s) <==> seater.Some? && IsSeaterValue(seater.value) && ac.Some?
  {
    SwapRequest(fromUser, toUser, DefaultSwapStatus, reason, seater, ac)
  }
}
