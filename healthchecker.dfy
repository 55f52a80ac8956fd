/**
 * The older `healthchecker` package: the same drain-and-report cycle with
 * fixed response codes and no cache, over geth and lighthouse checks only.
 */
module Healthchecker {
  import opened Wrappers
  import opened Errors
  import opened Config
  import opened Healthcheck
  import opened Aggregation
  import Lighthouse
  import Geth

  /** `healthcheckResult`: no source label. */
  datatype LegacyResult = LegacyResult(ok: bool, err: Option<Error>)

  /** The response codes the handler uses: 500 for errors, 202 for warnings only, and net/http's implicit 200. */
  const LegacyCodes: HttpStatus := HttpStatus(200, 202, 500)

  /** A monitor and the URL it was configured with (already joined with its path). */
  datatype Monitor = GethMonitor(rpcURL: string) | LighthouseMonitor(syncingURL: string)

  /** What `url.JoinPath` made of a configured URL and a path: the joined URL, or its error. */
  datatype Joined = JoinedURL(url: string) | JoinFailed(err: Error)

  /** A legacy result seen through the server's result type. */
  function Lift(r: Option<LegacyResult>): Option<Result> {
    match r
    case None => None
    case Some(x) => Some(Result(None, x.ok, x.err))
  }

  function LiftAll(arrivals: seq<Option<LegacyResult>>): (r: seq<Option<Result>>)
    ensures |r| == |arrivals|
    ensures forall i :: 0 <= i < |arrivals| ==> r[i] == Lift(arrivals[i])
  {
    seq(|arrivals|, i requires 0 <= i < |arrivals| => Lift(arrivals[i]))
  }

  /**
   * `checkLighthouse`: "Synced" is healthy, BackFillSyncing is a warning,
   * every other state and every transport, status or parse failure is an
   * error. It agrees with the current lighthouse adapter's sync stage.
   */
  function CheckLighthouse(reply: Reply<Lighthouse.SyncState>): (r: LegacyResult)
    ensures !r.ok ==> r.err.Some?
    ensures r.ok && r.err.None? <==> Lighthouse.IsSynced(reply)
    ensures r.ok && r.err.Some? <==> Lighthouse.IsBackFilling(reply)
    ensures reply.Failed? ==> r.err == Some(reply.err)
    ensures reply.Replied? && reply.readErr.Some? ==> r.err == reply.readErr
    ensures reply.Replied? && reply.readErr.None? && reply.status != StatusOK ==>
      r.err == Some(UnexpectedStatus(reply.status))
  {
    match reply
    case Failed(e) => LegacyResult(false, Some(e))
    case Replied(status, readErr, state) =>
      if readErr.Some? then LegacyResult(false, readErr)
      else if status != StatusOK then LegacyResult(false, Some(UnexpectedStatus(status)))
      else match state
        case SyncStateUnparseable => LegacyResult(false, Some(ParseFailure()))
        case StateStruct(backFill, finalized, syncingHead) =>
          if backFill.Some? then
            LegacyResult(true, Some(Msg("lighthouse is in 'BackFillSyncing' state")))
          else if finalized.Some? then
            LegacyResult(false, Some(Msg("lighthouse is in 'SyncingFinalized' state")))
          else if syncingHead.Some? then
            LegacyResult(false, Some(Msg("lighthouse is in 'SyncingHead' state")))
          else
            LegacyResult(false, Some(Msg("lighthouse is in unrecognised state")))
        case StateString(data) =>
          if data != "Synced" then LegacyResult(false, Some(Msg("lighthouse is not in synced state: " + data)))
          else LegacyResult(true, None)
  }

  /**
   * `checkGeth`: nil exactly when `eth_syncing` answered `false`; unlike the
   * current geth adapter, a failed body read is an error here.
   */
  function CheckGeth(reply: Reply<Geth.SyncingResult>): (r: Option<Error>)
    ensures r.None? <==> Geth.SyncedStage(reply) && reply.readErr.None?
    ensures reply.Failed? ==> r == Some(reply.err)
    ensures reply.Replied? && reply.readErr.Some? ==> r == reply.readErr
    ensures Answered(reply) && reply.payload == Geth.NotSyncing(true) ==> r == Some(Msg("geth is (still) syncing"))
    ensures Answered(reply) && reply.payload.Syncing? ==>
      r == Some(Msg("geth is still syncing (current: " + reply.payload.currentBlock
        + ", highest: " + reply.payload.highestBlock + ")"))
  {
    match reply
    case Failed(e) => Some(e)
    case Replied(status, readErr, result) =>
      if readErr.Some? then readErr
      else if status != StatusOK then Some(UnexpectedStatus(status))
      else match result
        case SyncingUnparseable => Some(ParseFailure())
        case Syncing(current, highest) =>
          Some(Msg("geth is still syncing (current: " + current + ", highest: " + highest + ")"))
        case NotSyncing(isSyncing) =>
          if isSyncing then Some(Msg("geth is (still) syncing")) else None
  }

  /** How the geth monitor turns `checkGeth`'s error into a result: ok exactly when there is none. */
  function GethMonitorResult(err: Option<Error>): LegacyResult {
    LegacyResult(err.None?, err)
  }

  /**
   * Through the geth monitor, `checkGeth` never produces a warning: the
   * drain files its result as an error exactly when geth is not in the
   * synced stage or its body could not be read.
   */
  lemma GethMonitorNeverWarns(reply: Reply<Geth.SyncingResult>)
    ensures WarningOf(Lift(Some(GethMonitorResult(CheckGeth(reply))))) == []
    ensures ErrorOf(Lift(Some(GethMonitorResult(CheckGeth(reply))))) == []
        <==> Geth.SyncedStage(reply) && reply.readErr.None?
  {
  }

  class Healthchecker {
    const timeout: int
    var monitors: seq<Monitor>

    constructor (timeout: int)
      ensures this.timeout == timeout && monitors == []
    {
      this.timeout := timeout;
      monitors := [];
    }

    method AddMonitor(m: Monitor)
      modifies this
      ensures monitors == old(monitors) + [m]
    {
      monitors := monitors + [m];
    }

    /**
     * `handleHTTPRequest`: drains exactly `|monitors|` results; with neither
     * errors nor warnings it writes nothing (net/http then answers 200), else
     * 500 or 202 and the same lines as the server's report.
     */
    method HandleHTTPRequest(arrivals: seq<Option<LegacyResult>>) returns (status: Option<int>, lines: seq<string>)
      requires |arrivals| == |monitors|
      ensures var errs, wrns := ErrorsOf(LiftAll(arrivals)), WarningsOf(LiftAll(arrivals));
        && (status.None? <==> errs == [] && wrns == [])
        && (status.Some? ==> status.value == Status(LegacyCodes, errs, wrns))
        && lines == Body(errs, wrns)
    {
      var count := |monitors|;
      var received := 0;
      var errs: seq<Option<Error>> := [];
      var warns: seq<Error> := [];
      while count > 0
        invariant 0 <= count <= |arrivals| && received == |arrivals| - count
        invariant errs == ErrorsOf(LiftAll(arrivals)[..received])
        invariant warns == WarningsOf(LiftAll(arrivals)[..received])
      {
        count := count - 1;
        var res := arrivals[received];
        ClassifyNext(LiftAll(arrivals), received);
        received := received + 1;
        if res.Some? {
          if !res.value.ok {
            errs := errs + [res.value.err];
          } else if res.value.err.Some? {
            warns := warns + [res.value.err.value];
          }
        }
      }
      assert LiftAll(arrivals)[..received] == LiftAll(arrivals);

      if errs == [] && warns == [] {
        return None, [];
      }
      var code;
      code, lines := Report(LegacyCodes, errs, warns);
      status := Some(code);
    }
  }

  /**
   * `New`: a geth monitor, then a lighthouse monitor, each only for a
   * non-empty URL; a URL that cannot be joined with its path fails `New`
   * with that error.
   */
  method New(gethURL: string, lighthouseURL: string, timeout: int, gethJoin: Joined, lighthouseJoin: Joined)
    returns (h: Healthchecker?, err: Option<Error>)
    ensures err.Some? <==> h == null
    ensures (gethURL == "" || gethJoin.JoinedURL?) && (lighthouseURL == "" || lighthouseJoin.JoinedURL?) ==>
      err.None?
    ensures gethURL != "" && gethJoin.JoinFailed? ==> err == Some(gethJoin.err)
    ensures (gethURL == "" || gethJoin.JoinedURL?) && lighthouseURL != "" && lighthouseJoin.JoinFailed? ==>
      err == Some(lighthouseJoin.err)
    ensures h != null ==>
      && fresh(h) && h.timeout == timeout
      && (gethURL != "" ==> gethJoin.JoinedURL?)
      && (lighthouseURL != "" ==> lighthouseJoin.JoinedURL?)
      && h.monitors == (if gethURL != "" then [GethMonitor(gethJoin.url)] else [])
                     + (if lighthouseURL != "" then [LighthouseMonitor(lighthouseJoin.url)] else [])
  {
    var hc := new Healthchecker(timeout);

    if gethURL != "" {
      match gethJoin {
        case JoinFailed(e) =>
          return null, Some(e);
        case JoinedURL(u) =>
          hc.AddMonitor(GethMonitor(u));
      }
    }

    if lighthouseURL != "" {
      match lighthouseJoin {
        case JoinFailed(e) =>
          return null, Some(e);
        case JoinedURL(u) =>
          hc.AddMonitor(LighthouseMonitor(u));
      }
    }

    return hc, None;
  }
}
