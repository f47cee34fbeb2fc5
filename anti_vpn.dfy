/**
 * The ban-evasion detector of security/antiVpn.js. Private addresses always
 * pass; otherwise a request whose IP or browser fingerprint was banned is
 * logged and redirected to a trap. `banUser` adds to the two in-memory ban
 * sets, which nothing ever shrinks.
 *
 * The fingerprint is a parameter: `generateFingerprint` hashes headers, the IP
 * and a secret with SHA-256, and the model treats its value as opaque.
 */
module AntiVpn {
  import opened Wrappers
  import opened JsString
  import opened HttpRequest
  import opened ThreatLogging

  predicate IsDigitIn(c: char, lo: char, hi: char) {
    lo <= c <= hi
  }

  /** The `172\.(1[6-9]|2[0-9]|3[0-1])\.` alternative of the pattern. */
  predicate Private172(ip: string) {
    && |ip| >= 7 && ip[..4] == "172." && ip[6] == '.'
    && (|| (ip[4] == '1' && IsDigitIn(ip[5], '6', '9'))
        || (ip[4] == '2' && IsDigitIn(ip[5], '0', '9'))
        || (ip[4] == '3' && IsDigitIn(ip[5], '0', '1')))
  }

  /** `isPrivateIp(ip)`: the anchored pattern
      `^(10\.|172\.(1[6-9]|2[0-9]|3[0-1])\.|192\.168\.|127\.|169\.254\.)`. */
  predicate IsPrivateIp(ip: string) {
    StartsWith(ip, "10.") || Private172(ip) || StartsWith(ip, "192.168.")
    || StartsWith(ip, "127.") || StartsWith(ip, "169.254.")
  }

  /** The private ranges written out as prefixes. */
  const PRIVATE_PREFIXES: seq<string> := [
    "10.",
    "172.16.", "172.17.", "172.18.", "172.19.", "172.20.", "172.21.", "172.22.", "172.23.",
    "172.24.", "172.25.", "172.26.", "172.27.", "172.28.", "172.29.", "172.30.", "172.31.",
    "192.168.", "127.", "169.254."]

  /** A listed prefix in the 172 range is matched by the `172` alternative. */
  lemma Private172Prefix(ip: string, k: nat)
    requires 1 <= k < 17 && StartsWith(ip, PRIVATE_PREFIXES[k])
    ensures Private172(ip)
  {
    var p := PRIVATE_PREFIXES[k];
    assert |p| == 7 && ip[..7] == p;
    assert p[..4] == "172." && p[6] == '.';
    assert ip[..4] == p[..4] && ip[4] == p[4] && ip[5] == p[5] && ip[6] == p[6];
  }

  /** An address the `172` alternative matches starts with one of the listed prefixes. */
  lemma Private172HasPrefix(ip: string)
    requires Private172(ip)
    ensures exists k | 1 <= k < 17 :: ip[..7] == PRIVATE_PREFIXES[k]
  {
    var p := ip[..7];
    assert p == "172." + [ip[4], ip[5], '.'];
    if ip[5] == '6' && ip[4] == '1' {
      assert p == PRIVATE_PREFIXES[1];
    } else if ip[5] == '7' && ip[4] == '1' {
      assert p == PRIVATE_PREFIXES[2];
    } else if ip[5] == '8' && ip[4] == '1' {
      assert p == PRIVATE_PREFIXES[3];
    } else if ip[5] == '9' && ip[4] == '1' {
      assert p == PRIVATE_PREFIXES[4];
    } else if ip[5] == '0' && ip[4] == '2' {
      assert p == PRIVATE_PREFIXES[5];
    } else if ip[5] == '1' && ip[4] == '2' {
      assert p == PRIVATE_PREFIXES[6];
    } else if ip[5] == '2' && ip[4] == '2' {
      assert p == PRIVATE_PREFIXES[7];
    } else if ip[5] == '3' && ip[4] == '2' {
      assert p == PRIVATE_PREFIXES[8];
    } else if ip[5] == '4' && ip[4] == '2' {
      assert p == PRIVATE_PREFIXES[9];
    } else if ip[5] == '5' && ip[4] == '2' {
      assert p == PRIVATE_PREFIXES[10];
    } else if ip[5] == '6' && ip[4] == '2' {
      assert p == PRIVATE_PREFIXES[11];
    } else if ip[5] == '7' && ip[4] == '2' {
      assert p == PRIVATE_PREFIXES[12];
    } else if ip[5] == '8' && ip[4] == '2' {
      assert p == PRIVATE_PREFIXES[13];
    } else if ip[5] == '9' && ip[4] == '2' {
      assert p == PRIVATE_PREFIXES[14];
    } else if ip[5] == '0' && ip[4] == '3' {
      assert p == PRIVATE_PREFIXES[15];
    } else if ip[5] == '1' && ip[4] == '3' {
      assert p == PRIVATE_PREFIXES[16];
    }
  }

  /** The other alternatives are single prefixes. */
  lemma OtherPrefix(ip: string, k: nat)
    requires k < |PRIVATE_PREFIXES| && !(1 <= k < 17) && StartsWith(ip, PRIVATE_PREFIXES[k])
    ensures StartsWith(ip, "10.") || StartsWith(ip, "192.168.") || StartsWith(ip, "127.") || StartsWith(ip, "169.254.")
  {
    if k == 0 {
      assert PRIVATE_PREFIXES[k] == "10.";
    } else if k == 17 {
      assert PRIVATE_PREFIXES[k] == "192.168.";
    } else if k == 18 {
      assert PRIVATE_PREFIXES[k] == "127.";
    } else {
      assert PRIVATE_PREFIXES[k] == "169.254.";
    }
  }

  /** The pattern matches exactly the addresses starting with a listed prefix. */
  lemma IsPrivateIpIff(ip: string)
    ensures IsPrivateIp(ip) <==> exists k | 0 <= k < |PRIVATE_PREFIXES| :: StartsWith(ip, PRIVATE_PREFIXES[k])
  {
    if Private172(ip) {
      Private172HasPrefix(ip);
      var k :| 1 <= k < 17 && ip[..7] == PRIVATE_PREFIXES[k];
      assert StartsWith(ip, PRIVATE_PREFIXES[k]);
    } else if StartsWith(ip, "10.") {
      assert StartsWith(ip, PRIVATE_PREFIXES[0]);
    } else if StartsWith(ip, "192.168.") {
      assert StartsWith(ip, PRIVATE_PREFIXES[17]);
    } else if StartsWith(ip, "127.") {
      assert StartsWith(ip, PRIVATE_PREFIXES[18]);
    } else if StartsWith(ip, "169.254.") {
      assert StartsWith(ip, PRIVATE_PREFIXES[19]);
    }
    forall k | 0 <= k < |PRIVATE_PREFIXES| && StartsWith(ip, PRIVATE_PREFIXES[k]) ensures IsPrivateIp(ip) {
      if 1 <= k < 17 {
        Private172Prefix(ip, k);
      } else {
        OtherPrefix(ip, k);
      }
    }
  }

  /** `172.15.` and `172.32.` lie just outside the private range. */
  lemma Edges172NotPrivate(ip: string)
    requires StartsWith(ip, "172.15.") || StartsWith(ip, "172.32.")
    ensures !IsPrivateIp(ip)
  {
    var q := ip[..7];
    assert q == "172.15." || q == "172.32.";
    assert ip[0] == q[0] == '1' && ip[1] == q[1] == '7' && ip[2] == q[2] == '2' && ip[3] == q[3] == '.';
    assert ip[4] == q[4] && ip[5] == q[5];
    assert ip[..3] != "10." && ip[..4] != "127." && ip[..4] != "169.";
    assert |ip| >= 8 ==> ip[..8][1] == '7';
  }

  /** What happens to the request. */
  datatype VpnVerdict =
    | Pass(fingerprint: string)  // `req.fingerprint = fingerprint; next()`
    | TrapRedirect               // 302 to "http://trap.pulsehub.invalid-domain.fake/"

  /** The threat data logged for a banned request. */
  function EvasionThreat(req: Request, fingerprint: string): ThreatData {
    ThreatData(req.clientIp, UserAgent(req), Some(fingerprint), Some("ban_evasion"), Some("blocked"), Some(req.path))
  }

  predicate IsPrivate(ip: Option<string>) {
    ip.Some? && IsPrivateIp(ip.value)
  }

  predicate IsBanned(ips: set<Option<string>>, fingerprints: set<string>, ip: Option<string>, fingerprint: string) {
    ip in ips || fingerprint in fingerprints
  }

  /** `detectVpnOrBanEvasion` over the ban sets: the new log and the verdict. */
  function VpnStep(ips: set<Option<string>>, fingerprints: set<string>, log: seq<ThreatEntry>,
                   req: Request, fingerprint: string, now: int, dbUp: bool)
    : (seq<ThreatEntry>, VpnVerdict)
  {
    if IsPrivate(req.clientIp) then (log, Pass(fingerprint))
    else if IsBanned(ips, fingerprints, req.clientIp, fingerprint) then
      (LogStep(log, EvasionThreat(req, fingerprint), now, dbUp).0, TrapRedirect)
    else (log, Pass(fingerprint))
  }

  /** A request is trapped exactly when it is not from a private address and its IP or
      fingerprint is banned. A request that passes carries its fingerprint on and
      leaves the log alone; a trapped one is logged when it has an IP and the
      database is up. */
  lemma VpnStepIff(ips: set<Option<string>>, fingerprints: set<string>, log: seq<ThreatEntry>,
                   req: Request, fingerprint: string, now: int, dbUp: bool)
    ensures var (log', verdict) := VpnStep(ips, fingerprints, log, req, fingerprint, now, dbUp);
      && (verdict == TrapRedirect <==> !IsPrivate(req.clientIp) && IsBanned(ips, fingerprints, req.clientIp, fingerprint))
      && (verdict != TrapRedirect ==> verdict == Pass(fingerprint) && log' == log)
      && (verdict == TrapRedirect ==> (|log'| == |log| + 1 <==> Truthy(req.clientIp) && dbUp))
  {
    assert "ban_evasion" == REASONS[0] && "blocked" == ACTIONS[0];
    LogStoresIff(log, EvasionThreat(req, fingerprint), now, dbUp);
    LogAppendOnly(log, EvasionThreat(req, fingerprint), now, dbUp);
  }

  /** A private address passes even when its IP and fingerprint are both banned. */
  lemma PrivateAlwaysPasses(ips: set<Option<string>>, fingerprints: set<string>, log: seq<ThreatEntry>,
                            req: Request, fingerprint: string, now: int, dbUp: bool)
    requires req.clientIp.Some? && IsPrivateIp(req.clientIp.value)
    ensures VpnStep(ips, fingerprints, log, req, fingerprint, now, dbUp) == (log, Pass(fingerprint))
  {
  }

  /** More bans never let more requests through. */
  lemma BansOnlyTighten(ips: set<Option<string>>, fingerprints: set<string>,
                        ips': set<Option<string>>, fingerprints': set<string>, log: seq<ThreatEntry>,
                        req: Request, fingerprint: string, now: int, dbUp: bool)
    requires ips <= ips' && fingerprints <= fingerprints'
    requires VpnStep(ips, fingerprints, log, req, fingerprint, now, dbUp).1 == TrapRedirect
    ensures VpnStep(ips', fingerprints', log, req, fingerprint, now, dbUp).1 == TrapRedirect
  {
    VpnStepIff(ips, fingerprints, log, req, fingerprint, now, dbUp);
    VpnStepIff(ips', fingerprints', log, req, fingerprint, now, dbUp);
  }

  /** `BANNED_IPS` and `BANNED_FINGERPRINTS` */
  class BanLists {
    var bannedIps: set<Option<string>>
    var bannedFingerprints: set<string>

    constructor ()
      ensures bannedIps == {} && bannedFingerprints == {}
    {
      bannedIps := {};
      bannedFingerprints := {};
    }

    /** `banUser(ip, fingerprint)`: both sets only grow. */
    method BanUser(ip: Option<string>, fingerprint: string)
      modifies this
      ensures bannedIps == old(bannedIps) + {ip}
      ensures bannedFingerprints == old(bannedFingerprints) + {fingerprint}
    {
      bannedIps := bannedIps + {ip};
      bannedFingerprints := bannedFingerprints + {fingerprint};
    }

    /** `detectVpnOrBanEvasion(req, res, next)` */
    method DetectVpnOrBanEvasion(log: ThreatLog, req: Request, fingerprint: string, now: int, dbUp: bool)
      returns (verdict: VpnVerdict)
      modifies log
      ensures (log.entries, verdict)
           == VpnStep(bannedIps, bannedFingerprints, old(log.entries), req, fingerprint, now, dbUp)
    {
      var ip := req.clientIp;
      if ip.Some? && IsPrivateIp(ip.value) {
        return Pass(fingerprint);
      }
      if ip in bannedIps || fingerprint in bannedFingerprints {
        var _ := log.LogThreat(EvasionThreat(req, fingerprint), now, dbUp);
        return TrapRedirect;
      }
      return Pass(fingerprint);
    }
  }

  /** Once a user is banned, every request from that IP or with that fingerprint that
      is not from a private address is trapped. */
  lemma BannedUserTrapped(ips: set<Option<string>>, fingerprints: set<string>, ip: Option<string>, banned: string,
                          log: seq<ThreatEntry>, req: Request, fingerprint: string, now: int, dbUp: bool)
    requires !IsPrivate(req.clientIp) && (req.clientIp == ip || fingerprint == banned)
    ensures VpnStep(ips + {ip}, fingerprints + {banned}, log, req, fingerprint, now, dbUp).1 == TrapRedirect
  {
  }
}
