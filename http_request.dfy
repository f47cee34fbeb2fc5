/**
 * The parts of an Express request that the security middleware reads.
 * Node stores header names in lower case, so `headers` is keyed by lower-case
 * names and `req.get('User-Agent')` is the `user-agent` entry.
 */
module HttpRequest {
  import opened Wrappers

  datatype Request = Request(
    clientIp: Option<string>,      // `req.clientIp`, set by request-ip (may be missing)
    fingerprint: Option<string>,   // `req.fingerprint`, set by the anti-VPN middleware
    path: string,                  // `req.path`
    headers: map<string, string>)  // `req.headers`

  /** `req.headers[name]`: `undefined` when the header was not sent. */
  function Header(req: Request, name: string): (v: Option<string>)
    ensures v.Some? <==> name in req.headers
    ensures v.Some? ==> v.value == req.headers[name]
  {
    if name in req.headers then Some(req.headers[name]) else None
  }

  /** `req.get('User-Agent')` */
  function UserAgent(req: Request): Option<string> {
    Header(req, "user-agent")
  }
}
