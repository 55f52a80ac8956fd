# node-healthchecker, modelled in Dafny

node-healthchecker turns the sync status of several blockchain clients into one HTTP
health endpoint for a load balancer. The clients are geth and reth (execution
clients), lighthouse (consensus client) and op-node (rollup verifier). On each request
the server runs one monitor per configured upstream. It drains their results into a
list of errors and a list of warnings. It answers with one of three configured status
codes and a numbered line per error and warning. A cool-off cache can reuse the last
outcome for a short time.

This project models the logic that decides the verdict once the raw data is in hand:

- `Healthcheck` (healthcheck/healthcheck.go) holds the shared types. A result is `ok`
  plus an optional `err` and a source tag. A `Verdict` reads it: not ok is Failing, ok
  with an error is Degraded (a warning), anything else is Healthy. An HTTP exchange that
  has already happened is a `Reply<P>`: either `Failed(err)` before any response, or
  `Replied(status, readErr, payload)`. The payload is a tagged value standing for what
  the JSON body decoded to. This module also holds the `eth_getBlockByNumber` block-age
  stage that geth and reth share.
- `Lighthouse`, `OpNode`, `Geth`, `Reth` (healthcheck/*.go) are the four adapters. Each
  is an imperative method that builds the result record branch by branch, as the source
  does. Each contract says when the result is healthy, degraded
  or failing, and which error it carries on every branch. The error texts are shortened,
  as noted under "## Left out".
- `Aggregation` (server/healthcheck.go) covers the count-down drain, the choice of
  status code and the body lines. The drain and the report are loops proved against
  the specification functions `ErrorsOf`, `WarningsOf`, `Status` and `Body`.
- `Server` (server/server.go, server/cache.go) covers the monitor list built by `New`
  and the cool-off cache as a small state machine under the cache lock.
- `Config` (config/errors.go) holds the in-place compaction `flatten`. `Errors` holds
  the error values: a fixed text, an `fmt.Errorf` format whose `%d` arguments stay
  integers until the text is rendered, or an `errors.Join`; and the switch that ends
  `Run` and `flatten`: nil, the single error itself, or the join.
- `Healthchecker` (healthchecker/*.go) is the older package. It has the same drain
  with the fixed codes 500/202 and no code written when all is well, plus its two
  checks. Its handler's contract uses the server's own `ErrorsOf`/`WarningsOf`/`Body`.
  Its checks' contracts use the same predicates as the current adapters. This makes
  the two aggregation paths directly comparable.
- `Text` holds `%d` formatting and `strconv` parsing without a sign. Parsing goes up to
  the int64 range, in base 10 (`Atoi`) or base 16 (`ParseInt(s, 16, 64)`). The module
  also has `strings.TrimPrefix` and `strings.Join`, with round-trip lemmas.

Readings chosen where the source disagrees with itself:

- `server/healthcheck.go` reads `Healthcheck.CacheTimeout`. The configuration and
  `server.New` use `Healthcheck.CacheCoolOff`. Both are read as the one cool-off value
  `cacheCoolOff`.
- `healthchecker/healthchecker.go:57` returns `checkGeth`'s result as a monitor
  result, but `checkGeth` returns an `error`. The model's `CheckGeth` returns
  `Option<Error>`. The geth monitor's result is read as ok exactly when that error is
  nil (`GethMonitorResult`).
- `healthcheck/healthcheck.go` declares `Result` without a `Source` field, while every
  adapter sets one. The model's `Result` has an optional source tag.

Instants are integer nanoseconds since the Unix epoch, and `now` is a parameter.
`time.Unix(sec, 0)` (`Healthcheck.UnixTime`) moves the seconds onto Go's internal
scale, which counts from January 1 of year 1, in an int64. A timestamp within
62 135 596 800 seconds of 2^63 - 1 therefore wraps into the distant past. Every other
timestamp becomes `sec * 10^9`. `Time.Sub` (`Healthcheck.Sub`) saturates at the bounds
of a `time.Duration`. A fresh cache expires at Go's zero `time.Time`: January 1 of
year 1, which is `Healthcheck.ZeroTime` = -62 135 596 800 * 10^9 on this scale. A Go `error` is `Error = Msg(text) | Join(parts)`,
so a joined error and "the single error itself" stay distinguishable. A nil error
printed with `%s` is written `%!s(<nil>)`, as Go's fmt does.

## Model

| member | source | states |
|---|---|---|
| `Aggregation.Drain` | server/healthcheck.go:30-53 | receives exactly the given results in arrival order, skipping nil ones; the error list is the `err` (nil included) of every not-ok result, the warning list the `err` of every ok result that has one |
| `Aggregation.ClassifyNext` | server/healthcheck.go:45-52 | receiving the next result extends the error list by its `err` when it is not ok and the warning list by its `err` when it is ok with one |
| `Aggregation.ClassifyAppend` | server/healthcheck.go:44-53 | classifying results received later only appends to both lists: arrival order is kept |
| `Aggregation.ClassifyBound` | server/healthcheck.go:44-53 | errors plus warnings never exceed the results received minus the nil ones |
| `Aggregation.NoErrorsIff` | server/healthcheck.go:46-48 | the error list is empty exactly when every non-nil result is ok |
| `Aggregation.NoWarningsIff` | server/healthcheck.go:49-51 | the warning list is empty exactly when no ok result carries an error |
| `Aggregation.Report` | server/healthcheck.go:64-120 | the code is the error code if there is an error, else the warning code if there is a warning, else the ok code; the lines are exactly `Body` |
| `Aggregation.Body` | server/healthcheck.go:76-113 | as many lines as errors plus warnings when there is an error, else as many as warnings (none when both lists are empty) |
| `Aggregation.BodyNumbering` | server/healthcheck.go:76-106 | reading the digits before the first ':' of line k gives k: errors are numbered from 0 and warnings continue after them (or start at 0 when there is no error) |
| `Aggregation.LeadingIndexOf` | server/healthcheck.go:77 | a line starting with `%d` of an index and then ':' gives that index back |
| `Aggregation.StatusIgnoresArrivalOrder` | server/healthcheck.go:67-101 | two arrival orders of the same results give the same response code |
| `Aggregation.AllHealthy` | server/healthcheck.go:68-70 | all results ok without error: the ok code and an empty body |
| `Aggregation.AnyFailureDominates` | server/healthcheck.go:72-73 | one not-ok result gives the error code whatever the others report |
| `Aggregation.WarningsOnly` | server/healthcheck.go:101-102 | no not-ok result and one ok result with an error: the warning code |
| `Server.Server.Healthcheck` | server/healthcheck.go:15-62 | a cache hit (expiry strictly after now) reports the stored lists, runs no monitor and leaves the cache unchanged; a miss runs the monitors, reports the fresh lists and, when caching is on, stores them with expiry now + cool-off; with cool-off 0 there is no cache and every call runs |
| `Server.CoolOffWindow` | server/healthcheck.go:16-27 | after an evaluating request, a second one inside the cool-off window is served from cache with the same status and the same lines, and one at or after the window's end evaluates again |
| `Server.Cache.constructor` | server/cache.go:8-15 | a fresh cache expires at the zero `time.Time` (year 1) and holds empty lists |
| `Server.SelectMonitors` | server/server.go:36-58 | a monitor per non-empty base URL and no other, in the order geth, lighthouse, op-node, reth; as many as there are non-empty URLs (at most 4) |
| `Server.Server.New` | server/server.go:33-87 | never fails; the monitor list as in `SelectMonitors`; a fresh cache, expiring at the zero time with empty lists, exists exactly when the cool-off is non-zero |
| `Server.FirstRequest` | server/healthcheck.go:16-27 | a freshly built server runs its monitors on its first request at any instant from year 1 on, and answers with their outcome |
| `Errors.Collapse` | server/server.go:143-150 | no error gives nil, exactly one gives that error itself, more give their join |
| `Errors.CollapseKeepsText` | config/errors.go:14-21 | whatever the count, the collapsed error's text is all messages one per line |
| `Config.Flatten` | config/errors.go:5-22 | the first k slots of the caller's array hold the k non-nil inputs in order, the slots from k on keep their old values, and the result is nil, that error, or the join |
| `Config.NonNilAppend` | config/errors.go:7-12 | compaction of a longer input extends the kept list: order is preserved |
| `Config.NonNilEmpty` | config/errors.go:20-21 | nothing is kept (so nil is returned) exactly when every input is nil, the empty slice included |
| `Config.NonNilKeeps` | config/errors.go:8-10 | every non-nil input is kept |
| `Config.NonNilOfSomes` | config/errors.go:13 | the compacted prefix, unwrapped, is the kept list |
| `Aggregation.VerdictFiling` | server/healthcheck.go:46-51 | a failing result (not ok) goes to the errors with its `err`, a degraded one (ok with an error) to the warnings, and a healthy one nowhere; each verdict in both directions |
| `Lighthouse.Lighthouse` | healthcheck/lighthouse.go:85-261 | healthy exactly for "Synced" plus (threshold 0 or a parseable decimal head timestamp with age <= threshold); a warning exactly for BackFillSyncing (checked first, returning before the age stage); SyncingFinalized before SyncingHead; every other outcome not ok with an error; the error of each branch: transport, read, status and parse failures, "not in synced state" with the reported state, the unrecognised struct, and for a synced node with a threshold exactly `HeadStageError` |
| `Lighthouse.HeadStageError` | healthcheck/lighthouse.go:184-255 | nothing exactly for a fresh head; otherwise the transport, read, status, body-parse, timestamp-parse or too-old error, checked in that order |
| `OpNode.OpNode` | healthcheck/op_node.go:103-201 | CurrentL1 = HeadL1 + 1 is healthy without the age check; further ahead is a warning; otherwise healthy exactly when HeadL1 - CurrentL1 (no underflow) <= confirmation distance and (threshold 0 or unsafe-L2 age <= threshold); failures, status and parse errors are not ok; the error of each branch: none one block ahead, the "greater than head" warning further ahead, the confirmation-distance error with the distance, and the stale unsafe-L2 error exactly when the age check runs and fails |
| `OpNode.CheckSyncStatus` | healthcheck/op_node.go:158-200 | on a decoded snapshot: one block ahead is healthy with no error, further ahead is a healthy warning carrying the "greater than head" message with both numbers and their difference; at or behind the head the result is never a warning, is healthy exactly when the distance is within the confirmation distance and (threshold 0 or the unsafe-L2 age within it), and fails with the confirmation-distance error or, when only the age check fails, the stale unsafe-L2 error |
| `Geth.Geth` | healthcheck/geth.go:73-214 | healthy or warned exactly for status 200 with result `false` and (threshold 0 or a fresh latest block); when ok, the error is the body-read error (a warning) or nil; status, parse failure, syncing object and `true` give their errors; once the sync stage passes, a failing block stage leaves exactly `BlockStageError` in the result |
| `Reth.Reth` | healthcheck/reth.go:59-206 | ok exactly for a fully read 200 with result `false` and (threshold 0 or a fresh latest block), and then no error; a read failure returns at once; parse failure, `true` and a syncing object (listing its stages) give their errors; once the sync stage passes with a threshold, the error is exactly `BlockStageError` |
| `Reth.FormatStages` | healthcheck/reth.go:113-116 | one entry per stage, in order, `name(idx)=block` with the stage's position |
| `Reth.StageListGrows` | healthcheck/reth.go:117-121 | after at least one stage, one more stage appends ", " and its entry to the joined list |
| `Healthcheck.CheckLatestBlock` | healthcheck/geth.go:141-210 | passes exactly for a readable 200 whose hex timestamp parses and whose age is <= threshold; otherwise the error `BlockStageError` names |
| `Healthcheck.BlockStageError` | healthcheck/geth.go:141-208 | nothing exactly for a fresh block; otherwise the transport, read, status, body-parse, hex-parse or too-old error, checked in that order |
| `Healthcheck.BlockEpochRoundTrip` | healthcheck/geth.go:186-196 | a "0x"-prefixed hex timestamp within int64 parses back to its value |
| `Healthcheck.UnixTime` | healthcheck/geth.go:198 | a timestamp up to 2^63 - 1 - 62 135 596 800 seconds is `sec * 10^9`; a larger one wraps to before year 1 |
| `Healthcheck.Sub` | healthcheck/geth.go:199 | the difference when it fits a Duration, else the largest or smallest Duration |
| `Healthcheck.AgeOfOrdinaryEpoch` | healthcheck/geth.go:198-201 | for a timestamp that does not wrap, the age is `now - sec * 10^9` whenever that fits a Duration |
| `Healthcheck.WrappedEpochIsStale` | healthcheck/lighthouse.go:244-247 | a timestamp that wraps in `time.Unix` has the largest Duration as its age from year 1 on, so it is too old for any smaller threshold |
| `Healthcheck.MaxHexBlockIsStale` | healthcheck/reth.go:190-193 | the block "0x7fffffffffffffff" fails the block stage for every threshold below the largest Duration, at any instant from year 1 on |
| `Healthcheck.BlockEpochTrimsOnce` | healthcheck/reth.go:178-188 | only one "0x" is trimmed: "0x0x..." fails to parse |
| `Text.DecimalRoundTrip` | healthcheck/lighthouse.go:236-243 | `Atoi` of `%d` of a number within int64 gives the number |
| `Text.ParseDigitsOfDigits` | healthcheck/lighthouse.go:236 | parsing the digits of n in base 10 or 16 gives n |
| `Text.ParseDigitsRejects` | healthcheck/geth.go:190-196 | any character that is not a digit of the base fails the parse |
| `Text.ParseInt64` | healthcheck/geth.go:186-189 | a value only for digit strings whose value is at most 2^63 - 1 |
| `Text.ToInt64` | healthcheck/op_node.go:185 | `int64` of a uint64 is the value, or the value minus 2^64 above 2^63 - 1 |
| `Healthchecker.CheckLighthouse` | healthchecker/check_lighthouse.go:12-121 | healthy exactly for "Synced", a warning exactly for BackFillSyncing (the same predicates as the current adapter), every other outcome not ok with an error |
| `Healthchecker.CheckGeth` | healthchecker/check_geth.go:13-83 | nil exactly for a fully read 200 with result `false`; `true` gives "geth is (still) syncing", a syncing object names current and highest block, failures return their error |
| `Healthchecker.GethMonitorNeverWarns` | healthchecker/healthchecker.go:56-58 | the geth monitor's result, read as ok exactly when `checkGeth` returns nil, never becomes a warning, and becomes an error exactly when geth is not synced or its body was not read |
| `Healthchecker.Healthchecker.HandleHTTPRequest` | healthchecker/healthchecker.go:112-187 | drains exactly the monitors' results into the same lists as the server's drain; no code written when both are empty, else 500 with any error, else 202; the same lines as the server's `Body` |
| `Healthchecker.New` | healthchecker/healthchecker.go:42-74 | succeeds exactly when every non-empty URL joins, with a geth monitor then a lighthouse monitor, each only for a non-empty URL; a URL that cannot be joined fails `New` with that error and no checker, geth's first, then lighthouse's whether or not a geth URL is set |

## Left out

- HTTP and JSON: building requests, `http.DefaultClient.Do`, `io.ReadAll`, `url.JoinPath` and `encoding/json`. Their outcomes are inputs: `Reply` carries the transport error or the status, the read error and the decoded payload; legacy `New` takes the joined URL or its error.
- Concurrency: the goroutines, the result channel, `context.WithTimeout` and the cache mutex. The drain consumes a given arrival sequence. `Server.Healthcheck` is one atomic step, which is what holding the lock for the whole call gives.
- Clock: `time.Now` is a parameter, and its monotonic reading is not modelled; the cache compares wall-clock instants. `now.Add(cool-off)` for the cache expiry is unbounded addition, where Go's would overflow only in the far future.
- `strconv` signs and `int` width: `Atoi` and `ParseInt` also accept a leading '+' or '-'. The model parses unsigned digit strings only.
- Exact error wording: most adapter messages are shortened, and the response body text inside them is dropped. The line formats, the reth stage list and the nil-error rendering are exact.
- Logging through zap, the metrics instruments, the CLI, the network-interface lookup and the `Preprocess` methods: wiring with no bearing on the verdict.
- `Run`: the server start, the signal wait and shutdown. Only its final switch (`Errors.Collapse`) is modelled.
- Monitors are identified by their source tag. Which adapter a monitor slot runs is not tied to the arrival sequence's results.
