/**
 * The threat log of models/logging.js: `logThreat(data)` drops data without an
 * IP, and otherwise saves a `ThreatLog` document, which Mongoose validates
 * against `threatLogSchema` (a required `ip`, a required `reason` from an enum
 * of eight, an optional `actionTaken` from an enum of four). A failed save is
 * caught and only reported on the console, so `logThreat` never fails.
 *
 * The log is a collection that only grows. `now` stands for `Date.now` (the
 * default of `timestamp`), and `dbUp` for whether the database accepts the
 * write at all.
 */
module ThreatLogging {
  import opened Wrappers
  import opened JsString

  datatype Reason =
    | BanEvasion | VpnProxy | RapidRequests | HeadlessBrowser
    | AdblockDetected | ApiBomb | DdosAttempt | SuspiciousBehavior

  datatype Action = Blocked | Redirected | Logged | Captcha

  /** The `reason` enum as the schema lists it. */
  const REASONS: seq<string> := [
    "ban_evasion", "vpn_proxy", "rapid_requests", "headless_browser",
    "adblock_detected", "api_bomb", "ddos_attempt", "suspicious_behavior"]

  /** The `actionTaken` enum as the schema lists it. */
  const ACTIONS: seq<string> := ["blocked", "redirected", "logged", "captcha"]

  function ReasonName(r: Reason): string {
    match r
    case BanEvasion => "ban_evasion"
    case VpnProxy => "vpn_proxy"
    case RapidRequests => "rapid_requests"
    case HeadlessBrowser => "headless_browser"
    case AdblockDetected => "adblock_detected"
    case ApiBomb => "api_bomb"
    case DdosAttempt => "ddos_attempt"
    case SuspiciousBehavior => "suspicious_behavior"
  }

  function ActionName(a: Action): string {
    match a
    case Blocked => "blocked"
    case Redirected => "redirected"
    case Logged => "logged"
    case Captcha => "captcha"
  }

  /** The enum validator of `reason`: the value named by the string, if any. */
  function ParseReason(s: string): (r: Option<Reason>)
    ensures r.Some? ==> ReasonName(r.value) == s
  {
    if s == "ban_evasion" then Some(BanEvasion)
    else if s == "vpn_proxy" then Some(VpnProxy)
    else if s == "rapid_requests" then Some(RapidRequests)
    else if s == "headless_browser" then Some(HeadlessBrowser)
    else if s == "adblock_detected" then Some(AdblockDetected)
    else if s == "api_bomb" then Some(ApiBomb)
    else if s == "ddos_attempt" then Some(DdosAttempt)
    else if s == "suspicious_behavior" then Some(SuspiciousBehavior)
    else None
  }

  /** The enum validator of `actionTaken`. */
  function ParseAction(s: string): (r: Option<Action>)
    ensures r.Some? ==> ActionName(r.value) == s
  {
    if s == "blocked" then Some(Blocked)
    else if s == "redirected" then Some(Redirected)
    else if s == "logged" then Some(Logged)
    else if s == "captcha" then Some(Captcha)
    else None
  }

  /** Every reason's name parses back to it, and exactly the listed names parse. */
  lemma ReasonRoundTrip(r: Reason, s: string)
    ensures ParseReason(ReasonName(r)) == Some(r)
    ensures ParseReason(s).Some? <==> s in REASONS
  {
    match r
    case BanEvasion =>
    case VpnProxy =>
    case RapidRequests =>
    case HeadlessBrowser =>
    case AdblockDetected =>
    case ApiBomb =>
    case DdosAttempt =>
    case SuspiciousBehavior =>
  }

  /** Every action's name parses back to it, and exactly the listed names parse. */
  lemma ActionRoundTrip(a: Action, s: string)
    ensures ParseAction(ActionName(a)) == Some(a)
    ensures ParseAction(s).Some? <==> s in ACTIONS
  {
    match a
    case Blocked =>
    case Redirected =>
    case Logged =>
    case Captcha =>
  }

  /** What a caller hands to `logThreat`; `None` is a field left out (`undefined`).
      `headers`, `geo`, `metadata` and the other untyped fields are not modelled. */
  datatype ThreatData = ThreatData(
    ip: Option<string>,
    userAgent: Option<string>,
    fingerprint: Option<string>,
    reason: Option<string>,
    actionTaken: Option<string>,
    endpoint: Option<string>)

  /** A stored `ThreatLog` document. */
  datatype ThreatEntry = ThreatEntry(
    ip: string,
    userAgent: Option<string>,
    fingerprint: Option<string>,
    reason: Reason,
    actionTaken: Option<Action>,
    endpoint: Option<string>,
    timestamp: int)

  datatype LogOutcome =
    | MissingIp     // "[LOG ERROR] Missing IP in threat log"
    | Stored        // "[THREAT] ..."
    | SaveFailed    // "[MONGO LOG FAILED] ...": validation or database error, caught

  /** `new ThreatLog(data)` followed by the schema's validation: the document, or
      `None` when a validator rejects it. */
  function ToEntry(data: ThreatData, now: int): (e: Option<ThreatEntry>)
    ensures e.Some? ==> && data.ip == Some(e.value.ip) && data.reason == Some(ReasonName(e.value.reason))
                        && data.userAgent == e.value.userAgent && data.fingerprint == e.value.fingerprint
                        && data.endpoint == e.value.endpoint && e.value.timestamp == now
                        && (data.actionTaken.Some? <==> e.value.actionTaken.Some?)
                        && (data.actionTaken.Some? ==> data.actionTaken.value == ActionName(e.value.actionTaken.value))
  {
    if !Truthy(data.ip) || data.reason.None? then None
    else
      match ParseReason(data.reason.value)
      case None => None
      case Some(r) =>
        if data.actionTaken.None? then
          Some(ThreatEntry(data.ip.value, data.userAgent, data.fingerprint, r, None, data.endpoint, now))
        else
          match ParseAction(data.actionTaken.value)
          case None => None
          case Some(a) =>
            Some(ThreatEntry(data.ip.value, data.userAgent, data.fingerprint, r, Some(a), data.endpoint, now))
  }

  /** The schema's conditions on the caller's data. */
  predicate Acceptable(data: ThreatData) {
    && Truthy(data.ip)
    && data.reason.Some? && data.reason.value in REASONS
    && (data.actionTaken.Some? ==> data.actionTaken.value in ACTIONS)
  }

  function LogStep(log: seq<ThreatEntry>, data: ThreatData, now: int, dbUp: bool)
    : (seq<ThreatEntry>, LogOutcome)
  {
    if !Truthy(data.ip) then (log, MissingIp)
    else
      match ToEntry(data, now)
      case None => (log, SaveFailed)
      case Some(e) => if dbUp then (log + [e], Stored) else (log, SaveFailed)
  }

  /** Validation accepts exactly the data that meets the schema's conditions. */
  lemma ToEntryIff(data: ThreatData, now: int)
    ensures ToEntry(data, now).Some? <==> Acceptable(data)
  {
    if data.reason.Some? {
      ReasonRoundTrip(BanEvasion, data.reason.value);
    }
    if data.actionTaken.Some? {
      ActionRoundTrip(Blocked, data.actionTaken.value);
    }
  }

  /** The log only grows, by at most the one entry built from the data. */
  lemma LogAppendOnly(log: seq<ThreatEntry>, data: ThreatData, now: int, dbUp: bool)
    ensures var log' := LogStep(log, data, now, dbUp).0;
      && |log| <= |log'| <= |log| + 1
      && log'[..|log|] == log
      && (|log'| == |log| + 1 ==> ToEntry(data, now) == Some(log'[|log|]))
  {
    match ToEntry(data, now)
    case None =>
    case Some(e) =>
      if Truthy(data.ip) && dbUp {
        assert (log + [e])[..|log|] == log;
      }
  }

  /** An entry is stored exactly when it has an IP, passes the enum validators and
      the database is up; every other call leaves the log as it was. */
  lemma LogStoresIff(log: seq<ThreatEntry>, data: ThreatData, now: int, dbUp: bool)
    ensures LogStep(log, data, now, dbUp).1 == Stored <==> Acceptable(data) && dbUp
    ensures LogStep(log, data, now, dbUp).1 != Stored ==> LogStep(log, data, now, dbUp).0 == log
    ensures !Truthy(data.ip) ==> LogStep(log, data, now, dbUp) == (log, MissingIp)
  {
    ToEntryIff(data, now);
  }

  /** An `actionTaken` of `'rate_limited'` is outside the enum: such data is never stored. */
  lemma RateLimitedNeverStored(log: seq<ThreatEntry>, data: ThreatData, now: int, dbUp: bool)
    requires data.actionTaken == Some("rate_limited")
    ensures LogStep(log, data, now, dbUp).0 == log
    ensures LogStep(log, data, now, dbUp).1 != Stored
  {
    LogStoresIff(log, data, now, dbUp);
    assert "rate_limited" !in ACTIONS;
  }

  /** The `ThreatLog` collection. */
  class ThreatLog {
    var entries: seq<ThreatEntry>

    constructor ()
      ensures entries == []
    {
      entries := [];
    }

    /** `logThreat(data)` */
    method LogThreat(data: ThreatData, now: int, dbUp: bool) returns (outcome: LogOutcome)
      modifies this
      ensures (entries, outcome) == LogStep(old(entries), data, now, dbUp)
    {
      if !Truthy(data.ip) {
        return MissingIp;
      }
      var logEntry := ToEntry(data, now);
      if logEntry.None? || !dbUp {
        return SaveFailed;
      }
      entries := entries + [logEntry.value];
      outcome := Stored;
    }
  }
}
