/**
 * The geth (execution client) adapter: `eth_syncing`, then, when a block-age
 * threshold is set, the age of `eth_getBlockByNumber("latest")`.
 */
module Geth {
  import opened Wrappers
  import opened Errors
  import opened Healthcheck

  /** The `eth_syncing` result: `false`/`true`, a sync-progress object, or neither. */
  datatype SyncingResult =
    | NotSyncing(syncing: bool)
    | Syncing(currentBlock: string, highestBlock: string)
    | SyncingUnparseable

  /**
   * The `eth_syncing` stage passes: a 200 response whose result is `false`.
   * A failed body read does not stop it (see `Geth`).
   */
  predicate SyncedStage(reply: Reply<SyncingResult>) {
    reply.Replied? && reply.status == StatusOK && reply.payload == NotSyncing(false)
  }

  function StillSyncing(): Error {
    Msg("still syncing")
  }

  /**
   * `Geth`: unlike the other adapters, a failed body read of `eth_syncing`
   * only records its error and goes on; a later failure overwrites it, and if
   * the check passes it stays behind as a warning.
   */
  method Geth(threshold: int, syncing: Reply<SyncingResult>, latest: Reply<LatestBlock>, now: int)
    returns (res: Result)
    ensures res.source == Some(SourceGeth)
    ensures !res.ok ==> res.err.Some?
    ensures res.ok <==> SyncedStage(syncing) && (threshold == 0 || FreshBlock(latest, now, threshold))
    ensures res.ok ==> res.err == syncing.readErr
    ensures SyncedStage(syncing) && threshold != 0 && BlockStageError(latest, now, threshold).Some? ==>
      res.err == BlockStageError(latest, now, threshold)
    ensures syncing.Replied? && syncing.status == StatusOK && syncing.payload.SyncingUnparseable? ==>
      res.err == Some(ParseFailure())
    ensures syncing.Failed? ==> res.err == Some(syncing.err)
    ensures syncing.Replied? && syncing.status != StatusOK ==> res.err == Some(UnexpectedStatus(syncing.status))
    ensures syncing.Replied? && syncing.status == StatusOK && syncing.payload == NotSyncing(true) ==>
      res.err == Some(StillSyncing())
    ensures syncing.Replied? && syncing.status == StatusOK && syncing.payload.Syncing? ==>
      res.err == Some(Msg("still syncing (current: '" + syncing.payload.currentBlock
        + "', highest: '" + syncing.payload.highestBlock + "')"))
  {
    res := Result(Some(SourceGeth), false, None);

    // eth_syncing
    match syncing {
      case Failed(e) =>
        res := res.(err := Some(e));
        return;
      case Replied(status, readErr, result) =>
        if readErr.Some? {
          res := res.(err := readErr);
        }
        if status != StatusOK {
          res := res.(err := Some(UnexpectedStatus(status)));
          return;
        }
        match result {
          case SyncingUnparseable =>
            res := res.(err := Some(ParseFailure()));
            return;
          case Syncing(current, highest) =>
            res := res.(err := Some(Msg("still syncing (current: '" + current + "', highest: '" + highest + "')")));
            return;
          case NotSyncing(isSyncing) =>
            if isSyncing {
              res := res.(err := Some(StillSyncing()));
              return;
            }
        }
    }

    // eth_getBlockByNumber
    if threshold != 0 {
      var failure := CheckLatestBlock(latest, now, threshold);
      if failure.Some? {
        res := res.(err := failure);
        return;
      }
    }

    res := res.(ok := true);
  }
}
