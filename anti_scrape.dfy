/**
 * The automation detector of security/antiScrape.js: a request whose
 * user-agent or headers look like a headless browser or a scraper is logged
 * and refused with 403 and the code `AUTOMATION_BLOCKED`; any other request
 * goes on to `next()`.
 */
module AntiScrape {
  import opened Wrappers
  import opened JsString
  import opened HttpRequest
  import opened ThreatLogging

  const AUTOMATION_SIGNATURES: seq<string> :=
    ["HeadlessChrome", "PhantomJS", "Selenium", "Puppeteer", "Cypress", "Playwright"]

  const BLOCK_CODE := "AUTOMATION_BLOCKED"

  /** `sigs.some(sig => ua.includes(sig))`, one signature after another. */
  function SomeIncluded(ua: string, sigs: seq<string>): (b: bool)
    ensures b <==> exists k | 0 <= k < |sigs| :: Includes(ua, sigs[k])
  {
    if sigs == [] then false
    else Includes(ua, sigs[0]) || SomeIncluded(ua, sigs[1..])
  }

  /** `req.get('User-Agent') || ''` */
  function Ua(req: Request): string {
    UserAgent(req).GetOr("")
  }

  predicate IsHeadless(req: Request) {
    || SomeIncluded(Ua(req), AUTOMATION_SIGNATURES)
    || Header(req, "webdriver") == Some("true")
    || Truthy(Header(req, "x-puppeteer"))
    || !Truthy(Header(req, "accept-language"))
    || Header(req, "headless") == Some("1")
  }

  /** `&&` binds tighter than `||`: the `curl` test is the last disjunct. */
  predicate IsSuspicious(req: Request) {
    || Truthy(Header(req, "x-scraper"))
    || Includes(Ua(req), "Python-urllib")
    || Includes(Ua(req), "scrapy")
    || (Includes(Ua(req), "curl") && !Includes(Ua(req), "Chrome"))
  }

  datatype ScrapeVerdict =
    | Next       // `next()`
    | Forbidden  // 403 `{ error: "Automated access detected. Access denied.", code: BLOCK_CODE }`

  /** The threat data logged for a refused request (`metadata` is not modelled). */
  function ScrapeThreat(req: Request): ThreatData {
    ThreatData(req.clientIp, Some(Ua(req)),
      Some(if Truthy(req.fingerprint) then req.fingerprint.value else "unknown"),
      Some("headless_browser"), Some("blocked"), Some(req.path))
  }

  /** `detectAutomation`: the new log and the verdict. */
  function ScrapeStep(log: seq<ThreatEntry>, req: Request, now: int, dbUp: bool): (seq<ThreatEntry>, ScrapeVerdict) {
    if IsHeadless(req) || IsSuspicious(req) then (LogStep(log, ScrapeThreat(req), now, dbUp).0, Forbidden)
    else (log, Next)
  }

  /** A request is refused exactly when it is classified headless or suspicious; a
      passed one leaves the log alone, a refused one is logged when it has an IP and
      the database is up. */
  lemma ScrapeStepIff(log: seq<ThreatEntry>, req: Request, now: int, dbUp: bool)
    ensures var (log', verdict) := ScrapeStep(log, req, now, dbUp);
      && (verdict == Forbidden <==> IsHeadless(req) || IsSuspicious(req))
      && (verdict == Next ==> log' == log)
      && (verdict == Forbidden ==> (|log'| == |log| + 1 <==> Truthy(req.clientIp) && dbUp))
  {
    assert "headless_browser" == REASONS[3] && "blocked" == ACTIONS[0];
    LogStoresIff(log, ScrapeThreat(req), now, dbUp);
    LogAppendOnly(log, ScrapeThreat(req), now, dbUp);
  }

  /** Any of the six signatures in the user-agent is refused. */
  lemma SignatureRefused(log: seq<ThreatEntry>, req: Request, now: int, dbUp: bool, k: nat)
    requires k < |AUTOMATION_SIGNATURES| && Includes(Ua(req), AUTOMATION_SIGNATURES[k])
    ensures ScrapeStep(log, req, now, dbUp).1 == Forbidden
  {
  }

  /** Refused by the headers alone: no or an empty `accept-language`, `webdriver:
      true`, `headless: 1`, a non-empty `x-puppeteer` or `x-scraper`. */
  lemma HeadersRefused(log: seq<ThreatEntry>, req: Request, now: int, dbUp: bool)
    requires || "accept-language" !in req.headers || req.headers["accept-language"] == ""
             || Header(req, "webdriver") == Some("true") || Header(req, "headless") == Some("1")
             || Truthy(Header(req, "x-puppeteer")) || Truthy(Header(req, "x-scraper"))
    ensures ScrapeStep(log, req, now, dbUp).1 == Forbidden
  {
  }

  /** With every other signal absent, a `curl` user-agent is refused exactly when it
      does not also mention `Chrome`. */
  lemma CurlRefusedOnlyWithoutChrome(log: seq<ThreatEntry>, req: Request, now: int, dbUp: bool)
    requires forall k | 0 <= k < |AUTOMATION_SIGNATURES| :: !Includes(Ua(req), AUTOMATION_SIGNATURES[k])
    requires Header(req, "webdriver") != Some("true") && Header(req, "headless") != Some("1")
    requires !Truthy(Header(req, "x-puppeteer")) && !Truthy(Header(req, "x-scraper"))
    requires Truthy(Header(req, "accept-language"))
    requires !Includes(Ua(req), "Python-urllib") && !Includes(Ua(req), "scrapy")
    ensures ScrapeStep(log, req, now, dbUp).1 == Forbidden
        <==> Includes(Ua(req), "curl") && !Includes(Ua(req), "Chrome")
  {
  }

  /** `detectAutomation(req, res, next)` */
  method DetectAutomation(log: ThreatLog, req: Request, now: int, dbUp: bool) returns (verdict: ScrapeVerdict)
    modifies log
    ensures (log.entries, verdict) == ScrapeStep(old(log.entries), req, now, dbUp)
  {
    var ua := Ua(req);
    var isHeadless := SomeIncluded(ua, AUTOMATION_SIGNATURES)
      || Header(req, "webdriver") == Some("true")
      || Truthy(Header(req, "x-puppeteer"))
      || !Truthy(Header(req, "accept-language"))
      || Header(req, "headless") == Some("1");
    var isSuspicious := Truthy(Header(req, "x-scraper"))
      || Includes(ua, "Python-urllib")
      || Includes(ua, "scrapy")
      || (Includes(ua, "curl") && !Includes(ua, "Chrome"));
    if isHeadless || isSuspicious {
      var _ := log.LogThreat(ScrapeThreat(req), now, dbUp);
      return Forbidden;
    }
    return Next;
  }
}
