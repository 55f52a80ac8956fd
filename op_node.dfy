/**
 * The op-node (rollup verifier) adapter: `optimism_syncStatus`, then the
 * distance of the derivation's L1 block behind the L1 head, then the age of
 * the unsafe L2 head.
 */
module OpNode {
  import opened Wrappers
  import opened Text
  import opened Errors
  import opened Healthcheck

  /** The fields of the sync-status snapshot the check reads (uint64 on the wire). */
  datatype SyncStatus =
    | SyncStatus(currentL1: U64, headL1: U64, unsafeL2Time: U64)
    | SyncStatusUnparseable

  /** `time.Unix(int64(t), 0)` as used for the unsafe L2 timestamp: the uint64-to-int64 conversion wraps. */
  function UnsafeL2Age(now: int, s: SyncStatus): int
    requires s.SyncStatus?
  {
    Age(now, ToInt64(s.unsafeL2Time))
  }

  // The fixed text in front of each of the three `fmt.Errorf` formats below.
  const AheadText: string := "current l1 block is greater than head: "
  const BehindText: string := "current l1 block is behind the l1 head for more than confirmation distance: "
  const StaleText: string := "latest l2 unsafe timestamp "

  function AheadWarning(s: SyncStatus): Error
    requires s.SyncStatus? && s.currentL1 > s.headL1
  {
    Formatted([Lit(AheadText), Int(s.currentL1), Lit(" - "), Int(s.headL1), Lit(" = "), Int(s.currentL1 - s.headL1)])
  }

  function BehindError(behind: nat, confirmationDistance: nat): Error {
    Formatted([Lit(BehindText), Int(behind), Lit(" > "), Int(confirmationDistance)])
  }

  function StaleL2Error(s: SyncStatus): Error
    requires s.SyncStatus?
  {
    Formatted([Lit(StaleText), Int(s.unsafeL2Time), Lit(" is too old")])
  }

  /**
   * The part of `OpNode` that reads a decoded sync-status snapshot: the L1
   * distance, then (when a threshold is set) the unsafe L2 age.
   */
  method CheckSyncStatus(threshold: int, confirmationDistance: U64, s: SyncStatus, now: int)
    returns (res: Result)
    requires s.SyncStatus?
    ensures res.source == Some(SourceOpNode)
    ensures !res.ok ==> res.err.Some?
    ensures s.currentL1 == s.headL1 + 1 ==> VerdictOf(res) == Healthy && res.err == None
    ensures s.currentL1 > s.headL1 + 1 ==> VerdictOf(res) == Degraded && res.err == Some(AheadWarning(s))
    ensures s.currentL1 <= s.headL1 ==>
      && VerdictOf(res) != Degraded
      && (VerdictOf(res) == Healthy <==>
            && s.headL1 - s.currentL1 <= confirmationDistance
            && (threshold == 0 || UnsafeL2Age(now, s) <= threshold))
      && (s.headL1 - s.currentL1 > confirmationDistance ==>
            res.err == Some(BehindError(s.headL1 - s.currentL1, confirmationDistance)))
      && (s.headL1 - s.currentL1 <= confirmationDistance && threshold != 0 && UnsafeL2Age(now, s) > threshold ==>
            res.err == Some(StaleL2Error(s)))
  {
    res := Result(Some(SourceOpNode), false, None);

    if s.currentL1 > s.headL1 {
      var ahead: U64 := s.currentL1 - s.headL1;
      if ahead == 1 {
        res := res.(ok := true);
        return;
      }
      res := res.(ok := true, err := Some(AheadWarning(s)));
      return;
    }

    // CurrentL1 <= HeadL1 here, so the uint64 subtraction cannot wrap
    var behind: U64 := s.headL1 - s.currentL1;
    if behind > confirmationDistance {
      res := res.(err := Some(BehindError(behind, confirmationDistance)));
      return;
    }

    if threshold != 0 {
      var age := UnsafeL2Age(now, s);
      if age > threshold {
        res := res.(err := Some(StaleL2Error(s)));
        return;
      }
    }

    res := res.(ok := true);
  }

  /**
   * `OpNode`: `now` is the clock read just before the request. A CurrentL1 one
   * past HeadL1 is the normal synced shape and skips the age check; further
   * ahead is a warning; behind by more than the confirmation distance, or an
   * unsafe L2 head older than the threshold (when it is non-zero), is an error.
   */
  method OpNode(threshold: int, confirmationDistance: U64, reply: Reply<SyncStatus>, now: int)
    returns (res: Result)
    ensures res.source == Some(SourceOpNode)
    ensures !res.ok ==> res.err.Some?
    ensures !Answered(reply) || reply.payload.SyncStatusUnparseable? ==> !res.ok
    ensures reply.Failed? ==> res.err == Some(reply.err)
    ensures reply.Replied? && reply.readErr.Some? ==> res.err == reply.readErr
    ensures reply.Replied? && reply.readErr.None? && reply.status != StatusOK ==>
      res.err == Some(UnexpectedStatus(reply.status))
    ensures Answered(reply) && reply.payload.SyncStatusUnparseable? ==> res.err == Some(ParseFailure())
    ensures Answered(reply) && reply.payload.SyncStatus? && reply.payload.currentL1 == reply.payload.headL1 + 1 ==>
      VerdictOf(res) == Healthy && res.err == None
    ensures Answered(reply) && reply.payload.SyncStatus? && reply.payload.currentL1 > reply.payload.headL1 + 1 ==>
      VerdictOf(res) == Degraded && res.err == Some(AheadWarning(reply.payload))
    ensures Answered(reply) && reply.payload.SyncStatus? && reply.payload.currentL1 <= reply.payload.headL1 ==>
      var s := reply.payload;
      && VerdictOf(res) != Degraded
      && (VerdictOf(res) == Healthy <==>
            && s.headL1 - s.currentL1 <= confirmationDistance
            && (threshold == 0 || UnsafeL2Age(now, s) <= threshold))
      && (s.headL1 - s.currentL1 > confirmationDistance ==>
            res.err == Some(BehindError(s.headL1 - s.currentL1, confirmationDistance)))
      && (s.headL1 - s.currentL1 <= confirmationDistance && threshold != 0 && UnsafeL2Age(now, s) > threshold ==>
            res.err == Some(StaleL2Error(s)))
  {
    res := Result(Some(SourceOpNode), false, None);

    match reply {
      case Failed(e) =>
        res := res.(err := Some(e));
      case Replied(status, readErr, s) =>
        if readErr.Some? {
          res := res.(err := readErr);
        } else if status != StatusOK {
          res := res.(err := Some(UnexpectedStatus(status)));
        } else if s.SyncStatusUnparseable? {
          res := res.(err := Some(ParseFailure()));
        } else {
          res := CheckSyncStatus(threshold, confirmationDistance, s, now);
        }
    }
  }
}
