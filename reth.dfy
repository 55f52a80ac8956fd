/**
 * The reth (execution client) adapter: `eth_syncing` with reth's per-stage
 * progress, then, when a block-age threshold is set, the age of
 * `eth_getBlockByNumber("latest")`.
 */
module Reth {
  import opened Wrappers
  import opened Text
  import opened Errors
  import opened Healthcheck

  /** One sync stage and the block it has reached. */
  datatype Stage = Stage(name: string, block: string)

  /** The `eth_syncing` result: `false`/`true`, a sync-progress object with stages, or neither. */
  datatype SyncingResult =
    | NotSyncing(syncing: bool)
    | Syncing(currentBlock: string, highestBlock: string, stages: seq<Stage>)
    | SyncingUnparseable

  /** A stage as listed in the error: `name(idx)=block`, `idx` being its position. */
  function StageEntry(idx: nat, stage: Stage): string {
    stage.name + "(" + Decimal(idx) + ")=" + stage.block
  }

  function StageEntries(stages: seq<Stage>): (entries: seq<string>)
    ensures |entries| == |stages|
  {
    seq(|stages|, i requires 0 <= i < |stages| => StageEntry(i, stages[i]))
  }

  function StillSyncingWith(current: string, highest: string, stages: seq<Stage>): Error {
    Msg("still syncing (current: " + current + ", highest: " + highest + "): " + JoinWith(StageEntries(stages), ", "))
  }

  /** The loop that formats the stages, one entry per stage, in order. */
  method FormatStages(stages: seq<Stage>) returns (entries: seq<string>)
    ensures |entries| == |stages|
    ensures forall i :: 0 <= i < |stages| ==> entries[i] == StageEntry(i, stages[i])
  {
    entries := [];
    for idx := 0 to |stages|
      invariant |entries| == idx
      invariant forall i :: 0 <= i < idx ==> entries[i] == StageEntry(i, stages[i])
    {
      entries := entries + [StageEntry(idx, stages[idx])];
    }
  }

  /**
   * After at least one stage, adding a stage to the progress report appends
   * exactly its entry, with its position as index, after a ", " separator.
   */
  lemma StageListGrows(stages: seq<Stage>, next: Stage)
    requires |stages| > 0
    ensures JoinWith(StageEntries(stages + [next]), ", ")
         == JoinWith(StageEntries(stages), ", ") + ", " + StageEntry(|stages|, next)
  {
    assert StageEntries(stages + [next]) == StageEntries(stages) + [StageEntry(|stages|, next)];
    JoinWithSnoc(StageEntries(stages), ", ", StageEntry(|stages|, next));
  }

  function StillSyncing(): Error {
    Msg("still syncing")
  }

  /** `Reth`: every failure, a failed body read included, returns at once. */
  method Reth(threshold: int, syncing: Reply<SyncingResult>, latest: Reply<LatestBlock>, now: int)
    returns (res: Result)
    ensures res.source == Some(SourceReth)
    ensures !res.ok ==> res.err.Some?
    ensures res.ok ==> res.err.None?
    ensures res.ok <==>
      && Answered(syncing) && syncing.payload == NotSyncing(false)
      && (threshold == 0 || FreshBlock(latest, now, threshold))
    ensures syncing.Failed? ==> res.err == Some(syncing.err)
    ensures syncing.Replied? && syncing.readErr.Some? ==> res.err == syncing.readErr
    ensures syncing.Replied? && syncing.readErr.None? && syncing.status != StatusOK ==>
      res.err == Some(UnexpectedStatus(syncing.status))
    ensures Answered(syncing) && syncing.payload == NotSyncing(true) ==> res.err == Some(StillSyncing())
    ensures Answered(syncing) && syncing.payload.SyncingUnparseable? ==> res.err == Some(ParseFailure())
    ensures Answered(syncing) && syncing.payload == NotSyncing(false) && threshold != 0 ==>
      res.err == BlockStageError(latest, now, threshold)
    ensures Answered(syncing) && syncing.payload.Syncing? ==>
      var p := syncing.payload;
      res.err == Some(StillSyncingWith(p.currentBlock, p.highestBlock, p.stages))
  {
    res := Result(Some(SourceReth), false, None);

    // eth_syncing
    match syncing {
      case Failed(e) =>
        res := res.(err := Some(e));
        return;
      case Replied(status, readErr, result) =>
        if readErr.Some? {
          res := res.(err := readErr);
          return;
        }
        if status != StatusOK {
          res := res.(err := Some(UnexpectedStatus(status)));
          return;
        }
        match result {
          case SyncingUnparseable =>
            res := res.(err := Some(ParseFailure()));
            return;
          case Syncing(current, highest, stages) =>
            var entries := FormatStages(stages);
            assert entries == StageEntries(stages);
            res := res.(err := Some(Msg("still syncing (current: " + current + ", highest: " + highest + "): "
              + JoinWith(entries, ", "))));
            return;
          case NotSyncing(isSyncing) =>
            if isSyncing {
              res := res.(err := Some(StillSyncing()));
              return;
            }
        }
    }

    // eth_getBlockByNumber
    if threshold != 0 {
      var failure := CheckLatestBlock(latest, now, threshold);
      if failure.Some? {
        res := res.(err := failure);
        return;
      }
    }

    res := res.(ok := true);
  }
}
