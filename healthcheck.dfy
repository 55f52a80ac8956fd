/**
 * What every upstream adapter shares: the result record, the shape of one
 * HTTP exchange once it has happened, and the block-age stage that the two
 * execution-client adapters run after `eth_syncing`.
 */
module Healthcheck {
  import opened Wrappers
  import opened Text
  import opened Errors

  /** The adapter that produced a result. */
  datatype Source = SourceGeth | SourceLighthouse | SourceOpNode | SourceReth

  /**
   * One check's outcome: `ok == false` is an error whatever `err` holds,
   * `ok` with an `err` is a warning, `ok` without one is healthy.
   */
  datatype Result = Result(source: Option<Source>, ok: bool, err: Option<Error>)

  datatype Verdict = Healthy | Degraded | Failing

  function VerdictOf(r: Result): (v: Verdict)
    ensures v == Failing <==> !r.ok
    ensures v == Degraded <==> r.ok && r.err.Some?
  {
    if !r.ok then Failing else if r.err.Some? then Degraded else Healthy
  }

  const StatusOK: int := 200

  /** Nanoseconds per second: `time.Unix(sec, 0)` scales a timestamp in seconds by this. */
  const NanosPerSecond: int := 1_000_000_000

  /**
   * One HTTP exchange with an upstream, after the fact. `Failed` is any error
   * before a response arrived (building the URL or the request, or the
   * transport); `Replied` carries the status, the error of reading the body
   * (if any) and what the body decoded to.
   */
  datatype Reply<P> = Failed(err: Error) | Replied(status: int, readErr: Option<Error>, payload: P)

  /** A response that was read in full and carried 200. */
  predicate Answered<P>(reply: Reply<P>) {
    reply.Replied? && reply.readErr.None? && reply.status == StatusOK
  }

  function UnexpectedStatus(status: int): Error {
    Formatted([Lit("unexpected HTTP status '"), Int(status), Lit("'")])
  }

  function ParseFailure(): Error {
    Msg("failed to parse JSON body")
  }

  // ---------------------------------------------------------------------------
  // Time: instants are nanoseconds since the Unix epoch, durations nanoseconds

  /** Seconds from 0001-01-01 UTC, where Go's `time.Time` counts from, to the Unix epoch. */
  const UnixToInternal: int := 62_135_596_800

  /** The zero `time.Time`, January 1 of year 1, as an instant. */
  const ZeroTime: int := -UnixToInternal * NanosPerSecond

  /**
   * `time.Unix(sec, 0)`: the seconds are shifted onto Go's year-1 scale in an
   * int64, so a `sec` within 62 135 596 800 of MaxInt64 wraps into the distant past.
   */
  function UnixTime(sec: int): (t: int)
    requires MinInt64 <= sec <= MaxInt64
    ensures sec <= MaxInt64 - UnixToInternal ==> t == sec * NanosPerSecond
    ensures sec > MaxInt64 - UnixToInternal ==> t < ZeroTime
  {
    var internal := sec + UnixToInternal;
    var wrapped := if internal > MaxInt64 then internal - 0x1_0000_0000_0000_0000 else internal;
    (wrapped - UnixToInternal) * NanosPerSecond
  }

  /** `Time.Sub`: the difference, saturated at the bounds of a `time.Duration`. */
  function Sub(t: int, u: int): (d: int)
    ensures MinInt64 <= d <= MaxInt64
    ensures MinInt64 <= t - u <= MaxInt64 ==> d == t - u
    ensures t - u > MaxInt64 ==> d == MaxInt64
    ensures t - u < MinInt64 ==> d == MinInt64
  {
    if t - u > MaxInt64 then MaxInt64 else if t - u < MinInt64 then MinInt64 else t - u
  }

  /** `now.Sub(time.Unix(epoch, 0))`: how old a timestamp in seconds is at `now`. */
  function Age(now: int, epochSeconds: int): int
    requires MinInt64 <= epochSeconds <= MaxInt64
  {
    Sub(now, UnixTime(epochSeconds))
  }

  /** An ordinary timestamp: the age is the plain difference whenever that fits a Duration. */
  lemma AgeOfOrdinaryEpoch(now: int, epochSeconds: int)
    requires MinInt64 <= epochSeconds <= MaxInt64 - UnixToInternal
    requires MinInt64 <= now - epochSeconds * NanosPerSecond <= MaxInt64
    ensures Age(now, epochSeconds) == now - epochSeconds * NanosPerSecond
  {
  }

  /**
   * A timestamp so large that `time.Unix` wraps lands before year 1: at any
   * instant from year 1 on, its age saturates at the largest Duration, so
   * every threshold short of that calls it too old.
   */
  lemma WrappedEpochIsStale(now: int, epochSeconds: int, threshold: int)
    requires ZeroTime <= now
    requires MaxInt64 - UnixToInternal < epochSeconds <= MaxInt64
    requires threshold < MaxInt64
    ensures Age(now, epochSeconds) == MaxInt64
    ensures Age(now, epochSeconds) > threshold
  {
    var t := UnixTime(epochSeconds);
    assert t == (epochSeconds - 0x1_0000_0000_0000_0000) * NanosPerSecond;
    assert now - t > MaxInt64;
  }

  /** The body of `eth_getBlockByNumber("latest", false)`: the block's hex timestamp, or undecodable. */
  datatype LatestBlock = Block(timestamp: string) | BlockUnparseable

  /** One leading "0x" is trimmed and the rest read as a base-16 int64. */
  function BlockEpoch(timestamp: string): (r: Option<int>)
    ensures r.Some? ==> 0 <= r.value <= MaxInt64
  {
    ParseInt64(TrimPrefix(timestamp, "0x"), 16)
  }

  /** A "0x"-prefixed hex quantity, as Ethereum JSON-RPC writes block timestamps, reads back as its value. */
  lemma BlockEpochRoundTrip(n: nat)
    requires n <= MaxInt64
    ensures BlockEpoch("0x" + Digits(n, 16)) == Some(n)
  {
    ParseDigitsOfDigits(n, 16);
    assert TrimPrefix("0x" + Digits(n, 16), "0x") == Digits(n, 16);
  }

  /** Only one prefix is trimmed: a doubled "0x0x" fails to parse. */
  lemma BlockEpochTrimsOnce(rest: string)
    ensures BlockEpoch("0x0x" + rest) == None
  {
    var trimmed := TrimPrefix("0x0x" + rest, "0x");
    assert "0x" <= "0x0x" + rest;
    assert trimmed == "0x" + rest;
    ParseDigitsRejects(trimmed, 16, 1);
  }

  /** The block stage passes: a readable 200 response whose timestamp parses and is at most `threshold` old. */
  predicate FreshBlock(reply: Reply<LatestBlock>, now: int, threshold: int) {
    && Answered(reply)
    && reply.payload.Block?
    && BlockEpoch(reply.payload.timestamp).Some?
    && Age(now, BlockEpoch(reply.payload.timestamp).value) <= threshold
  }

  /**
   * The largest hex timestamp that parses, "0x7fffffffffffffff", fails the
   * block stage for every threshold below the largest Duration, at any
   * instant from year 1 on.
   */
  lemma MaxHexBlockIsStale(now: int, threshold: int)
    requires ZeroTime <= now
    requires threshold < MaxInt64
    ensures !FreshBlock(Replied(StatusOK, None, Block("0x" + Digits(MaxInt64, 16))), now, threshold)
  {
    BlockEpochRoundTrip(MaxInt64);
    WrappedEpochIsStale(now, MaxInt64, threshold);
  }

  function HexTimestampError(timestamp: string): Error {
    Msg("failed to parse hex timestamp '" + timestamp + "'")
  }

  function BlockTooOld(timestamp: string): Error {
    Msg("latest block's timestamp '" + timestamp + "' is too old")
  }

  /**
   * What the block stage fails with: the transport, read or status error,
   * an undecodable body, an unparseable timestamp or a block that is too
   * old, in that order of checking; nothing for a fresh block.
   */
  function BlockStageError(reply: Reply<LatestBlock>, now: int, threshold: int): (r: Option<Error>)
    ensures r.None? <==> FreshBlock(reply, now, threshold)
    ensures reply.Failed? ==> r == Some(reply.err)
    ensures reply.Replied? && reply.readErr.Some? ==> r == reply.readErr
    ensures reply.Replied? && reply.readErr.None? && reply.status != StatusOK ==>
      r == Some(UnexpectedStatus(reply.status))
    ensures Answered(reply) && reply.payload.BlockUnparseable? ==> r == Some(ParseFailure())
    ensures Answered(reply) && reply.payload.Block? && BlockEpoch(reply.payload.timestamp).None? ==>
      r == Some(HexTimestampError(reply.payload.timestamp))
    ensures (&& Answered(reply) && reply.payload.Block? && BlockEpoch(reply.payload.timestamp).Some?
             && Age(now, BlockEpoch(reply.payload.timestamp).value) > threshold) ==>
      r == Some(BlockTooOld(reply.payload.timestamp))
  {
    match reply
    case Failed(e) => Some(e)
    case Replied(status, readErr, block) =>
      if readErr.Some? then readErr
      else if status != StatusOK then Some(UnexpectedStatus(status))
      else if block.BlockUnparseable? then Some(ParseFailure())
      else if BlockEpoch(block.timestamp).None? then Some(HexTimestampError(block.timestamp))
      else if Age(now, BlockEpoch(block.timestamp).value) > threshold then Some(BlockTooOld(block.timestamp))
      else None
  }

  /**
   * The `eth_getBlockByNumber` stage shared by the geth and reth adapters;
   * `now` is the clock read just before the request is sent. Returns the
   * error that fails the check, or None when the latest block is fresh.
   */
  method CheckLatestBlock(reply: Reply<LatestBlock>, now: int, threshold: int) returns (failure: Option<Error>)
    ensures failure == BlockStageError(reply, now, threshold)
    ensures failure.None? <==> FreshBlock(reply, now, threshold)
    ensures reply.Failed? ==> failure == Some(reply.err)
    ensures reply.Replied? && reply.readErr.Some? ==> failure == reply.readErr
    ensures reply.Replied? && reply.readErr.None? && reply.status != StatusOK ==>
      failure == Some(UnexpectedStatus(reply.status))
  {
    match reply
    case Failed(e) =>
      return Some(e);
    case Replied(status, readErr, block) =>
      if readErr.Some? {
        return readErr;
      }
      if status != StatusOK {
        return Some(UnexpectedStatus(status));
      }
      if block.BlockUnparseable? {
        return Some(ParseFailure());
      }
      var epoch := BlockEpoch(block.timestamp);
      if epoch.None? {
        return Some(HexTimestampError(block.timestamp));
      }
      var age := Age(now, epoch.value);
      if age > threshold {
        return Some(BlockTooOld(block.timestamp));
      }
      return None;
  }
}
