/**
 * The burst detector of security/antiDdos.js. `REQUEST_HISTORY` maps each
 * client IP (possibly missing) to a fixed-window counter; `analyzeRequestBurst`
 * counts the request in the IP's window, reports a burst past fifty requests,
 * and, when the map has grown past ten thousand entries, deletes the expired
 * ones. `antiDdosMiddleware` logs a burst and redirects it to a trap.
 *
 * `now` stands for `Date.now()` in milliseconds.
 */
module AntiDdos {
  import opened Wrappers
  import opened HttpRequest
  import opened JsString
  import opened ThreatLogging

  const WINDOW_MS := 10000
  const BURST_LIMIT := 50
  const SWEEP_THRESHOLD := 10000

  /** `{ count, windowStart }` */
  datatype Record = Record(count: nat, windowStart: int)

  type History = map<Option<string>, Record>

  /** A window that started more than ten seconds ago is over. */
  predicate Expired(r: Record, now: int) {
    now - r.windowStart > WINDOW_MS
  }

  /** The IP's record once this request is counted. */
  function Counted(h: History, ip: Option<string>, now: int): Record {
    if ip !in h || Expired(h[ip], now) then Record(1, now)
    else Record(h[ip].count + 1, h[ip].windowStart)
  }

  /** The history without its expired records. */
  function Sweep(h: History, now: int): History {
    map k | k in h && !Expired(h[k], now) :: h[k]
  }

  /** `analyzeRequestBurst`: the new history and whether this request is a burst. */
  function BurstStep(h: History, ip: Option<string>, now: int): (History, bool) {
    var record := Counted(h, ip, now);
    var h1 := h[ip := record];
    if record.count > BURST_LIMIT then (h1, true)
    else if |h1| > SWEEP_THRESHOLD then (Sweep(h1, now), false)
    else (h1, false)
  }

  /** A new window starts without a record or after more than ten seconds; otherwise
      the count goes up by one in the same window, and at exactly ten seconds the
      window is still open. */
  lemma CountedRecord(h: History, ip: Option<string>, now: int)
    ensures ip !in h ==> Counted(h, ip, now) == Record(1, now)
    ensures ip in h && now - h[ip].windowStart > WINDOW_MS ==> Counted(h, ip, now) == Record(1, now)
    ensures ip in h && now - h[ip].windowStart <= WINDOW_MS
        ==> Counted(h, ip, now).count == h[ip].count + 1 && Counted(h, ip, now).windowStart == h[ip].windowStart
    ensures ip in h && now == h[ip].windowStart + WINDOW_MS ==> Counted(h, ip, now).count == h[ip].count + 1
    ensures !Expired(Counted(h, ip, now), now)
  {
  }

  /** The sweep removes exactly the expired records and keeps the others as they are. */
  lemma SweepRemovesOnlyExpired(h: History, now: int)
    ensures Sweep(h, now).Keys <= h.Keys
    ensures forall k | k in h :: k in Sweep(h, now) <==> !Expired(h[k], now)
    ensures forall k | k in Sweep(h, now) :: Sweep(h, now)[k] == h[k]
  {
  }

  /** A request is a burst exactly when its IP's window is still open and already
      counted fifty requests. */
  lemma BurstIff(h: History, ip: Option<string>, now: int)
    ensures BurstStep(h, ip, now).1
        <==> ip in h && now - h[ip].windowStart <= WINDOW_MS && h[ip].count >= BURST_LIMIT
  {
  }

  /** After the call the map holds the counted record for the IP; a sweep happens only
      when there was no burst and the map had more than ten thousand entries, and it
      deletes only expired records of other IPs. */
  lemma BurstStepEffect(h: History, ip: Option<string>, now: int)
    ensures var (h', burst) := BurstStep(h, ip, now);
      var h1 := h[ip := Counted(h, ip, now)];
      && ip in h' && h'[ip] == Counted(h, ip, now)
      && (h' != h1 ==> !burst && |h1| > SWEEP_THRESHOLD)
      && h'.Keys <= h1.Keys
      && (forall k | k in h1 && k !in h' :: k != ip && Expired(h1[k], now))
      && (forall k | k in h' :: h'[k] == h1[k])
  {
    var h1 := h[ip := Counted(h, ip, now)];
    SweepRemovesOnlyExpired(h1, now);
  }

  /** Feeding the IP's requests at the given times, one after another. */
  function Replay(h: History, ip: Option<string>, times: seq<int>): (History, seq<bool>)
    decreases |times|
  {
    if times == [] then (h, [])
    else
      var (h0, verdicts) := Replay(h, ip, times[..|times| - 1]);
      var (h1, burst) := BurstStep(h0, ip, times[|times| - 1]);
      (h1, verdicts + [burst])
  }

  /** Requests from an IP with no record, all within ten seconds of the first, are
      counted one by one in a single window: the 51st is the first one flagged. */
  lemma {:induction false} BurstAfterFiftyInWindow(h: History, ip: Option<string>, times: seq<int>)
    requires ip !in h && |times| > 0
    requires forall k | 0 <= k < |times| :: times[k] - times[0] <= WINDOW_MS
    ensures var (h', verdicts) := Replay(h, ip, times);
      && |verdicts| == |times|
      && ip in h' && h'[ip] == Record(|times|, times[0])
      && forall k | 0 <= k < |times| :: verdicts[k] == (k >= BURST_LIMIT)
  {
    var n := |times|;
    var prefix := times[..n - 1];
    if n == 1 {
      assert prefix == [];
      BurstStepEffect(h, ip, times[0]);
    } else {
      assert prefix[0] == times[0];
      BurstAfterFiftyInWindow(h, ip, prefix);
      var (h0, v0) := Replay(h, ip, prefix);
      BurstStepEffect(h0, ip, times[n - 1]);
      BurstIff(h0, ip, times[n - 1]);
    }
  }

  /** What the middleware, or the rate limiter's handler, does with the request. */
  datatype DdosVerdict =
    | Next           // `next()`
    | TrapRedirect   // 302 to "http://attack-trap.invalid.pulsehub.fake/api/bomb"
    | RateLimitTrap  // 302 to "http://rate-limit-trap.pulsehub.fake/429"

  /** The threat data the middleware logs for a burst. */
  function DdosThreat(req: Request): ThreatData {
    ThreatData(req.clientIp, UserAgent(req),
      Some(if Truthy(req.fingerprint) then req.fingerprint.value else "unknown"),
      Some("ddos_attempt"), Some("redirected"), Some(req.path))
  }

  /** A burst's threat data meets the log schema whenever the request has an IP. */
  lemma DdosThreatAcceptable(req: Request)
    ensures Acceptable(DdosThreat(req)) <==> Truthy(req.clientIp)
  {
    assert "ddos_attempt" == REASONS[6] && "redirected" == ACTIONS[1];
  }

  /** `antiDdosMiddleware`: the new history, the new log and the verdict. */
  function DdosStep(h: History, log: seq<ThreatEntry>, req: Request, now: int, dbUp: bool)
    : (History, seq<ThreatEntry>, DdosVerdict)
  {
    var (h', burst) := BurstStep(h, req.clientIp, now);
    if burst then (h', LogStep(log, DdosThreat(req), now, dbUp).0, TrapRedirect)
    else (h', log, Next)
  }

  /** The middleware redirects exactly the bursts, and logs only them. */
  lemma DdosStepIff(h: History, log: seq<ThreatEntry>, req: Request, now: int, dbUp: bool)
    ensures var (h', log', verdict) := DdosStep(h, log, req, now, dbUp);
      && h' == BurstStep(h, req.clientIp, now).0
      && (verdict == TrapRedirect <==> BurstStep(h, req.clientIp, now).1)
      && (verdict == Next ==> log' == log)
      && (verdict == TrapRedirect && Truthy(req.clientIp) && dbUp ==> log' == log + [ToEntry(DdosThreat(req), now).value])
  {
    DdosThreatAcceptable(req);
    LogStoresIff(log, DdosThreat(req), now, dbUp);
    ToEntryIff(DdosThreat(req), now);
  }

  /** The forwarded data of `apiRateLimiter`'s handler, as written: its
      `actionTaken` is `'rate_limited'`, which is not in the schema's enum. */
  function RateLimitThreatAsWritten(req: Request): ThreatData {
    ThreatData(req.clientIp, UserAgent(req), req.fingerprint, Some("api_bomb"), Some("rate_limited"), Some(req.path))
  }

  /** As written, no rate-limit hit ever reaches the log. */
  lemma RateLimitNeverLogged(log: seq<ThreatEntry>, req: Request, now: int, dbUp: bool)
    ensures LogStep(log, RateLimitThreatAsWritten(req), now, dbUp).0 == log
    ensures LogStep(log, RateLimitThreatAsWritten(req), now, dbUp).1 != Stored
  {
    RateLimitedNeverStored(log, RateLimitThreatAsWritten(req), now, dbUp);
  }

  /** The rate-limit data with the enum value the handler's redirect calls for. */
  function RateLimitThreat(req: Request): ThreatData {
    ThreatData(req.clientIp, UserAgent(req), req.fingerprint, Some("api_bomb"), Some("redirected"), Some(req.path))
  }

  /** Corrected, a rate-limit hit with an IP is logged when the database is up. */
  lemma RateLimitLogged(log: seq<ThreatEntry>, req: Request, now: int, dbUp: bool)
    ensures LogStep(log, RateLimitThreat(req), now, dbUp).1 == Stored <==> Truthy(req.clientIp) && dbUp
    ensures Truthy(req.clientIp) && dbUp ==>
      var e := LogStep(log, RateLimitThreat(req), now, dbUp).0[|log|];
      e.reason == ApiBomb && e.actionTaken == Some(Redirected) && e.ip == req.clientIp.value
  {
    assert "api_bomb" == REASONS[5] && "redirected" == ACTIONS[1];
    LogStoresIff(log, RateLimitThreat(req), now, dbUp);
    LogAppendOnly(log, RateLimitThreat(req), now, dbUp);
  }

  /** `REQUEST_HISTORY` */
  class RequestHistory {
    var records: History

    constructor ()
      ensures records == map[]
    {
      records := map[];
    }

    /** The cleanup loop: every entry whose window is over is deleted. */
    method SweepExpired(now: int)
      modifies this
      ensures records == Sweep(old(records), now)
    {
      ghost var before := records;
      var keys := records.Keys;
      while keys != {}
        invariant keys <= before.Keys
        invariant records.Keys <= before.Keys
        invariant forall k | k in before :: k in records <==> (k in keys || !Expired(before[k], now))
        invariant forall k | k in records :: records[k] == before[k]
        decreases keys
      {
        var key :| key in keys;
        if Expired(records[key], now) {
          records := records - {key};
        }
        keys := keys - {key};
      }
      assert records == Sweep(before, now);
    }

    /** `analyzeRequestBurst(req)` */
    method AnalyzeRequestBurst(ip: Option<string>, now: int) returns (burst: bool)
      modifies this
      ensures (records, burst) == BurstStep(old(records), ip, now)
    {
      var record;
      if ip !in records || now - records[ip].windowStart > WINDOW_MS {
        record := Record(1, now);
      } else {
        record := Record(records[ip].count + 1, records[ip].windowStart);
      }
      records := records[ip := record];
      if record.count > BURST_LIMIT {
        return true;
      }
      if |records| > SWEEP_THRESHOLD {
        SweepExpired(now);
      }
      return false;
    }
  }

  /** The rate limiter's `handler`, with the corrected enum value: it logs the hit
      and always answers with the redirect to the rate-limit trap. */
  method OnRateLimited(log: ThreatLog, req: Request, now: int, dbUp: bool)
    returns (verdict: DdosVerdict)
    modifies log
    ensures verdict == RateLimitTrap
    ensures log.entries == LogStep(old(log.entries), RateLimitThreat(req), now, dbUp).0
  {
    var _ := log.LogThreat(RateLimitThreat(req), now, dbUp);
    return RateLimitTrap;
  }

  /** `antiDdosMiddleware(req, res, next)` */
  method AntiDdosMiddleware(history: RequestHistory, log: ThreatLog, req: Request, now: int, dbUp: bool)
    returns (verdict: DdosVerdict)
    modifies history, log
    ensures (history.records, log.entries, verdict)
         == DdosStep(old(history.records), old(log.entries), req, now, dbUp)
  {
    var burst := history.AnalyzeRequestBurst(req.clientIp, now);
    if burst {
      var _ := log.LogThreat(DdosThreat(req), now, dbUp);
      return TrapRedirect;
    }
    return Next;
  }
}
