/**
 * The lighthouse (consensus client) adapter: `/lighthouse/syncing`, then,
 * when a block-age threshold is set, the age of the beacon head's execution
 * payload.
 */
module Lighthouse {
  import opened Wrappers
  import opened Text
  import opened Errors
  import opened Healthcheck

  datatype BackFill = BackFill(completed: U64, remaining: U64)

  datatype SlotRange = SlotRange(startSlot: string, targetSlot: string)

  /**
   * The `/lighthouse/syncing` body: `data` as a string ("Synced", "Stalled",
   * "SyncTransition", ...), else `data` as an object with optional
   * BackFillSyncing / SyncingFinalized / SyncingHead members, else neither.
   */
  datatype SyncState =
    | StateString(data: string)
    | StateStruct(backFillSyncing: Option<BackFill>, syncingFinalized: Option<SlotRange>, syncingHead: Option<SlotRange>)
    | SyncStateUnparseable

  /** The `eth/v2/beacon/blocks/head` body: the slot and the decimal execution-payload timestamp. */
  datatype BeaconHead = BeaconHead(slot: string, timestamp: string) | BeaconHeadUnparseable

  /** The node reports "Synced". */
  predicate IsSynced(reply: Reply<SyncState>) {
    Answered(reply) && reply.payload == StateString("Synced")
  }

  /** The node reports the struct form with BackFillSyncing set (whatever else is set). */
  predicate IsBackFilling(reply: Reply<SyncState>) {
    Answered(reply) && reply.payload.StateStruct? && reply.payload.backFillSyncing.Some?
  }

  /** The head stage passes: a readable 200 response whose decimal timestamp is at most `threshold` old. */
  predicate FreshHead(reply: Reply<BeaconHead>, now: int, threshold: int) {
    && Answered(reply)
    && reply.payload.BeaconHead?
    && ParseInt64(reply.payload.timestamp, 10).Some?
    && Age(now, ParseInt64(reply.payload.timestamp, 10).value) <= threshold
  }

  function BackFillWarning(b: BackFill): Error {
    Formatted([Lit("is in 'BackFillSyncing' state (completed: "), Int(b.completed),
      Lit(", remaining: "), Int(b.remaining), Lit(")")])
  }

  function SyncingFinalizedError(r: SlotRange): Error {
    Msg("is in 'SyncingFinalized' state (start_slot: '" + r.startSlot + "', target_slot: '" + r.targetSlot + "')")
  }

  function SyncingHeadError(r: SlotRange): Error {
    Msg("is in 'SyncingHead' state (start_slot: '" + r.startSlot + "', target_slot: '" + r.targetSlot + "')")
  }

  function NotSyncedError(data: string): Error {
    Msg("is not in synced state: " + data)
  }

  function UnrecognisedStateError(): Error {
    Msg("is in unrecognised state")
  }

  function HeadTimestampError(timestamp: string): Error {
    Msg("failed to parse timestamp '" + timestamp + "'")
  }

  function HeadTooOld(slot: string, timestamp: string): Error {
    Msg("beacon head timestamp '" + timestamp + "' (slot '" + slot + "') is too old")
  }

  /**
   * What the head stage fails with: the transport, read or status error, an
   * undecodable body, an unparseable timestamp or a head that is too old,
   * in that order of checking; nothing for a fresh head.
   */
  function HeadStageError(reply: Reply<BeaconHead>, now: int, threshold: int): (r: Option<Error>)
    ensures r.None? <==> FreshHead(reply, now, threshold)
    ensures reply.Failed? ==> r == Some(reply.err)
    ensures reply.Replied? && reply.readErr.Some? ==> r == reply.readErr
    ensures reply.Replied? && reply.readErr.None? && reply.status != StatusOK ==>
      r == Some(UnexpectedStatus(reply.status))
    ensures Answered(reply) && reply.payload.BeaconHeadUnparseable? ==> r == Some(ParseFailure())
    ensures Answered(reply) && reply.payload.BeaconHead? && ParseInt64(reply.payload.timestamp, 10).None? ==>
      r == Some(HeadTimestampError(reply.payload.timestamp))
    ensures (&& Answered(reply) && reply.payload.BeaconHead? && ParseInt64(reply.payload.timestamp, 10).Some?
             && Age(now, ParseInt64(reply.payload.timestamp, 10).value) > threshold) ==>
      r == Some(HeadTooOld(reply.payload.slot, reply.payload.timestamp))
  {
    match reply
    case Failed(e) => Some(e)
    case Replied(status, readErr, block) =>
      if readErr.Some? then readErr
      else if status != StatusOK then Some(UnexpectedStatus(status))
      else if block.BeaconHeadUnparseable? then Some(ParseFailure())
      else if ParseInt64(block.timestamp, 10).None? then Some(HeadTimestampError(block.timestamp))
      else if Age(now, ParseInt64(block.timestamp, 10).value) > threshold then Some(HeadTooOld(block.slot, block.timestamp))
      else None
  }

  /**
   * `Lighthouse`: `now` is the clock read just before the head request. The
   * result starts as not ok with no error; each failing branch sets the error
   * and returns.
   */
  method Lighthouse(threshold: int, syncing: Reply<SyncState>, head: Reply<BeaconHead>, now: int)
    returns (res: Result)
    ensures res.source == Some(SourceLighthouse)
    ensures !res.ok ==> res.err.Some?
    ensures VerdictOf(res) == Degraded <==> IsBackFilling(syncing)
    ensures VerdictOf(res) == Healthy <==> IsSynced(syncing) && (threshold == 0 || FreshHead(head, now, threshold))
    ensures IsBackFilling(syncing) ==> res.err == Some(BackFillWarning(syncing.payload.backFillSyncing.value))
    ensures Answered(syncing) && syncing.payload.StateStruct? && syncing.payload.backFillSyncing.None? ==>
      var p := syncing.payload;
      && (p.syncingFinalized.Some? ==> res.err == Some(SyncingFinalizedError(p.syncingFinalized.value)))
      && (p.syncingFinalized.None? && p.syncingHead.Some? ==> res.err == Some(SyncingHeadError(p.syncingHead.value)))
    ensures syncing.Failed? ==> res.err == Some(syncing.err)
    ensures syncing.Replied? && syncing.readErr.Some? ==> res.err == syncing.readErr
    ensures syncing.Replied? && syncing.readErr.None? && syncing.status != StatusOK ==>
      res.err == Some(UnexpectedStatus(syncing.status))
    ensures IsSynced(syncing) && threshold != 0 && head.Failed? ==> res.err == Some(head.err)
    ensures IsSynced(syncing) && threshold != 0 ==> res.err == HeadStageError(head, now, threshold)
    ensures Answered(syncing) && syncing.payload.SyncStateUnparseable? ==> res.err == Some(ParseFailure())
    ensures Answered(syncing) && syncing.payload.StateString? && syncing.payload.data != "Synced" ==>
      res.err == Some(NotSyncedError(syncing.payload.data))
    ensures Answered(syncing) && syncing.payload == StateStruct(None, None, None) ==>
      res.err == Some(UnrecognisedStateError())
  {
    res := Result(Some(SourceLighthouse), false, None);

    // lighthouse/syncing
    match syncing {
      case Failed(e) =>
        res := res.(err := Some(e));
        return;
      case Replied(status, readErr, state) =>
        if readErr.Some? {
          res := res.(err := readErr);
          return;
        }
        if status != StatusOK {
          res := res.(err := Some(UnexpectedStatus(status)));
          return;
        }
        match state {
          case SyncStateUnparseable =>
            res := res.(err := Some(ParseFailure()));
            return;
          case StateStruct(backFill, finalized, syncingHead) =>
            if backFill.Some? {
              // the state lighthouse enters once checkpoint sync is complete
              res := res.(ok := true, err := Some(BackFillWarning(backFill.value)));
            } else if finalized.Some? {
              res := res.(err := Some(SyncingFinalizedError(finalized.value)));
            } else if syncingHead.Some? {
              res := res.(err := Some(SyncingHeadError(syncingHead.value)));
            } else {
              res := res.(err := Some(UnrecognisedStateError()));
            }
            return;
          case StateString(data) =>
            if data != "Synced" {
              res := res.(err := Some(NotSyncedError(data)));
              return;
            }
        }
    }

    // eth/v2/beacon/blocks/head
    if threshold != 0 {
      match head {
        case Failed(e) =>
          res := res.(err := Some(e));
          return;
        case Replied(status, readErr, block) =>
          if readErr.Some? {
            res := res.(err := readErr);
            return;
          }
          if status != StatusOK {
            res := res.(err := Some(UnexpectedStatus(status)));
            return;
          }
          if block.BeaconHeadUnparseable? {
            res := res.(err := Some(ParseFailure()));
            return;
          }
          var epoch := ParseInt64(block.timestamp, 10);
          if epoch.None? {
            res := res.(err := Some(HeadTimestampError(block.timestamp)));
            return;
          }
          var age := Age(now, epoch.value);
          if age > threshold {
            res := res.(err := Some(HeadTooOld(block.slot, block.timestamp)));
            return;
          }
      }
    }

    res := res.(ok := true);
  }
}
