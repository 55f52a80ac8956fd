/**
 * The server: which monitors it runs, in which order, and the cool-off cache
 * in front of the evaluation cycle.
 */
module Server {
  import opened Wrappers
  import opened Errors
  import opened Config
  import opened Healthcheck
  import opened Aggregation

  /** The fixed position of each upstream in the monitor list. */
  function Rank(s: Source): nat {
    match s
    case SourceGeth => 0
    case SourceLighthouse => 1
    case SourceOpNode => 2
    case SourceReth => 3
  }

  function BaseURL(cfg: Config, s: Source): string {
    match s
    case SourceGeth => cfg.gethBaseURL
    case SourceLighthouse => cfg.lighthouseBaseURL
    case SourceOpNode => cfg.opNodeBaseURL
    case SourceReth => cfg.rethBaseURL
  }

  function Configured(cfg: Config): (n: nat)
    ensures n <= 4
  {
    (if cfg.gethBaseURL != "" then 1 else 0) + (if cfg.lighthouseBaseURL != "" then 1 else 0)
    + (if cfg.opNodeBaseURL != "" then 1 else 0) + (if cfg.rethBaseURL != "" then 1 else 0)
  }

  /**
   * The monitor list `New` builds: one monitor per non-empty base URL, in the
   * order geth, lighthouse, op-node, reth.
   */
  method SelectMonitors(cfg: Config) returns (monitors: seq<Source>)
    ensures forall s :: s in monitors <==> BaseURL(cfg, s) != ""
    ensures forall i, j :: 0 <= i < j < |monitors| ==> Rank(monitors[i]) < Rank(monitors[j])
    ensures |monitors| == Configured(cfg)
  {
    monitors := [];
    if cfg.gethBaseURL != "" {
      monitors := monitors + [SourceGeth];
    }
    if cfg.lighthouseBaseURL != "" {
      monitors := monitors + [SourceLighthouse];
    }
    if cfg.opNodeBaseURL != "" {
      monitors := monitors + [SourceOpNode];
    }
    if cfg.rethBaseURL != "" {
      monitors := monitors + [SourceReth];
    }
  }

  /** The cached outcome of the last evaluated cycle; a fresh cache expires at the zero time. */
  class Cache {
    var expiry: int
    var errs: seq<Option<Error>>
    var wrns: seq<Error>

    constructor ()
      ensures expiry == ZeroTime && errs == [] && wrns == []
    {
      expiry, errs, wrns := ZeroTime, [], [];
    }
  }

  class Server {
    const cfg: Config
    const monitors: seq<Source>
    const cache: Cache?

    /** Caching is on exactly when the cool-off is non-zero, and then the cache exists. */
    predicate Valid() {
      (cache != null) == (cfg.healthcheck.cacheCoolOff != 0)
    }

    /** `New`: never fails; allocates the cache only for a non-zero cool-off. */
    constructor New(cfg: Config)
      ensures Valid() && this.cfg == cfg
      ensures forall s :: s in monitors <==> BaseURL(cfg, s) != ""
      ensures forall i, j :: 0 <= i < j < |monitors| ==> Rank(monitors[i]) < Rank(monitors[j])
      ensures |monitors| == Configured(cfg)
      ensures cache != null ==> fresh(cache) && cache.expiry == ZeroTime && cache.errs == [] && cache.wrns == []
    {
      var selected := SelectMonitors(cfg);
      this.cfg := cfg;
      this.monitors := selected;
      if cfg.healthcheck.cacheCoolOff != 0 {
        this.cache := new Cache();
      } else {
        this.cache := null;
      }
    }

    /**
     * `healthcheck`, run under the cache's lock. `arrivals` are the monitors'
     * results in the order they come off the channel; `ran` says whether the
     * monitors were run at all. A hit (expiry strictly after `now`) reports
     * the stored lists and changes nothing; a miss moves the expiry to
     * `now + cool-off` first and stores the fresh lists after reporting them.
     */
    method Healthcheck(now: int, arrivals: seq<Option<Result>>) returns (status: int, lines: seq<string>, ran: bool)
      requires Valid()
      requires |arrivals| == |monitors|
      modifies cache
      ensures cache != null && old(cache.expiry) > now ==>
        && !ran
        && status == Status(cfg.httpStatus, old(cache.errs), old(cache.wrns))
        && lines == Body(old(cache.errs), old(cache.wrns))
        && unchanged(cache)
      ensures cache == null || old(cache.expiry) <= now ==>
        && ran
        && status == Status(cfg.httpStatus, ErrorsOf(arrivals), WarningsOf(arrivals))
        && lines == Body(ErrorsOf(arrivals), WarningsOf(arrivals))
      ensures cache != null && ran ==>
        && cache.expiry == now + cfg.healthcheck.cacheCoolOff
        && cache.errs == ErrorsOf(arrivals)
        && cache.wrns == WarningsOf(arrivals)
    {
      if cfg.healthcheck.cacheCoolOff != 0 {
        if cache.expiry > now {
          status, lines := Report(cfg.httpStatus, cache.errs, cache.wrns);
          ran := false;
          return;
        }
        cache.expiry := now + cfg.healthcheck.cacheCoolOff;
      }

      var errs, wrns := Drain(arrivals);
      status, lines := Report(cfg.httpStatus, errs, wrns);
      ran := true;

      if cfg.healthcheck.cacheCoolOff != 0 {
        cache.errs := errs;
        cache.wrns := wrns;
      }
    }
  }

  /** A freshly built server evaluates its first request at any instant from year 1 on. */
  method FirstRequest(cfg: Config, now: int, arrivals: seq<Option<Result>>) returns (status: int, lines: seq<string>, ran: bool)
    requires ZeroTime <= now
    requires |arrivals| == Configured(cfg)
    ensures ran
    ensures status == Status(cfg.httpStatus, ErrorsOf(arrivals), WarningsOf(arrivals))
    ensures lines == Body(ErrorsOf(arrivals), WarningsOf(arrivals))
  {
    var s := new Server.New(cfg);
    status, lines, ran := s.Healthcheck(now, arrivals);
  }

  /**
   * Two requests inside one cool-off window: when the first evaluates, the
   * second is served from the cache with the same response; a third at or
   * after the window's end evaluates afresh.
   */
  method CoolOffWindow(s: Server, t1: int, t2: int, t3: int, a1: seq<Option<Result>>, a2: seq<Option<Result>>, a3: seq<Option<Result>>)
    returns (status1: int, lines1: seq<string>, ran1: bool, status2: int, lines2: seq<string>, ran2: bool, ran3: bool)
    requires s.Valid() && s.cfg.healthcheck.cacheCoolOff > 0
    requires |a1| == |a2| == |a3| == |s.monitors|
    requires t1 <= t2 < t1 + s.cfg.healthcheck.cacheCoolOff <= t3
    modifies s.cache
    ensures ran1 ==> !ran2 && status2 == status1 && lines2 == lines1 && ran3
  {
    status1, lines1, ran1 := s.Healthcheck(t1, a1);
    status2, lines2, ran2 := s.Healthcheck(t2, a2);
    var status3, lines3;
    status3, lines3, ran3 := s.Healthcheck(t3, a3);
  }
}
