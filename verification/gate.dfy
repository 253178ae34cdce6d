/** The admission checks of the webhook receiver and the admin endpoint:
    the IP allowlist, the JSON content-type test, the shared-secret / header
    verification and the admin bearer token. Configuration is a record read
    once at start-up; a request is its headers, socket address and body. */
module Gate {
  import opened Wrappers
  import opened Js
  import Strings
  import Normalize

  /** The service's security settings. An empty string means "not configured". */
  datatype Config = Config(
    sharedSecret: string,
    headerName: string,
    expectedHeaderValue: string,
    adminToken: string,
    ipAllowlist: seq<string>)

  /** An incoming HTTP request as Express hands it over. Header names are
      lower-case, as Node reports them. */
  datatype Request = Request(
    headers: map<string, string>,
    remoteAddress: Option<string>,
    body: Json,
    rawBody: Option<string>)

  /** `process.env.A || process.env.B || ''`. */
  function EnvOr(env: map<string, string>, a: string, b: string): (r: string)
    ensures a in env && env[a] != "" ==> r == env[a]
    ensures !(a in env && env[a] != "") && b in env && env[b] != "" ==> r == env[b]
    ensures !(a in env && env[a] != "") && !(b in env && env[b] != "") ==> r == ""
    ensures r != "" ==> (a in env && r == env[a]) || (b in env && r == env[b])
  {
    if a in env && env[a] != "" then env[a]
    else if b in env && env[b] != "" then env[b]
    else ""
  }

  /** The start-up configuration: each setting takes the MILES_ variable, else
      the vendor-named or plain fallback, else ""; the allowlist is the
      comma-separated, trimmed, non-empty entries of its variable. */
  function LoadConfig(env: map<string, string>): (cfg: Config)
    ensures forall ip :: ip in cfg.ipAllowlist ==> ip != "" && Strings.Trimmed(ip) && ',' !in ip
    ensures cfg.ipAllowlist == Strings.CommaItems(EnvOr(env, "MILES_WEBHOOK_IP_ALLOWLIST", "WEBHOOK_IP_ALLOWLIST"))
    ensures cfg.sharedSecret == EnvOr(env, "MILES_SHARED_SECRET", "MERAKI_SHARED_SECRET")
    ensures cfg.headerName == EnvOr(env, "MILES_HEADER_NAME", "MERAKI_HEADER_NAME")
    ensures cfg.expectedHeaderValue == EnvOr(env, "MILES_EXPECTED_HEADER_VALUE", "MERAKI_EXPECTED_HEADER_VALUE")
    ensures cfg.adminToken == EnvOr(env, "MILES_ADMIN_TOKEN", "ADMIN_TOKEN")
    ensures ("MILES_SHARED_SECRET" in env && env["MILES_SHARED_SECRET"] != "")
            ==> cfg.sharedSecret == env["MILES_SHARED_SECRET"]
    ensures ("MILES_ADMIN_TOKEN" in env && env["MILES_ADMIN_TOKEN"] != "")
            ==> cfg.adminToken == env["MILES_ADMIN_TOKEN"]
  {
    Config(
      EnvOr(env, "MILES_SHARED_SECRET", "MERAKI_SHARED_SECRET"),
      EnvOr(env, "MILES_HEADER_NAME", "MERAKI_HEADER_NAME"),
      EnvOr(env, "MILES_EXPECTED_HEADER_VALUE", "MERAKI_EXPECTED_HEADER_VALUE"),
      EnvOr(env, "MILES_ADMIN_TOKEN", "ADMIN_TOKEN"),
      Strings.CommaItems(EnvOr(env, "MILES_WEBHOOK_IP_ALLOWLIST", "WEBHOOK_IP_ALLOWLIST")))
  }

  /** An allowlist written as its addresses joined with commas is read back as
      exactly those addresses, so a configured allowlist is never empty. */
  lemma AllowlistOfJoin(env: map<string, string>, ips: seq<string>)
    requires |ips| > 0
    requires forall ip :: ip in ips ==> ip != "" && Strings.Trimmed(ip) && ',' !in ip
    requires "MILES_WEBHOOK_IP_ALLOWLIST" in env && env["MILES_WEBHOOK_IP_ALLOWLIST"] == Strings.Join(ips, ",")
    ensures LoadConfig(env).ipAllowlist == ips
  {
    assert Strings.Join(ips, ",") != "" by {
      assert ips[0] in ips;
      Normalize.JoinStartsWithFirst(ips, ",");
    }
    Strings.CommaItemsOfJoin(ips);
  }

  function Header(req: Request, name: string): Option<string> {
    if name in req.headers then Some(req.headers[name]) else None
  }

  /** The candidate client addresses: the `x-forwarded-for` entries in order,
      then the socket address when it is known and non-empty. */
  function ClientIps(req: Request): (ips: seq<string>)
    ensures forall ip :: ip in ips ==> ip != ""
    ensures forall ip :: ip in ips <==>
              ip in Strings.CommaItems(Header(req, "x-forwarded-for").GetOr(""))
              || (req.remoteAddress.Some? && req.remoteAddress.value != "" && ip == req.remoteAddress.value)
    ensures req.remoteAddress.Some? && req.remoteAddress.value != "" ==> |ips| > 0 && ips[|ips| - 1] == req.remoteAddress.value
  {
    var proxyIps := Strings.CommaItems(Header(req, "x-forwarded-for").GetOr(""));
    var remote := if req.remoteAddress.Some? && req.remoteAddress.value != "" then [req.remoteAddress.value] else [];
    proxyIps + remote
  }

  /** `ips.some((ip) => allow.includes(ip))`. */
  function AnyListed(ips: seq<string>, allow: seq<string>): (r: bool)
    ensures r <==> exists i :: 0 <= i < |ips| && ips[i] in allow
  {
    if |ips| == 0 then false
    else if ips[0] in allow then true
    else
      var r := AnyListed(ips[1..], allow);
      assert forall i :: 1 <= i < |ips| ==> ips[i] == ips[1..][i - 1];
      r
  }

  /** An empty allowlist admits everyone; otherwise some candidate address of
      the request must be on it. */
  function IpAllowed(cfg: Config, req: Request): (ok: bool)
    ensures |cfg.ipAllowlist| == 0 ==> ok
    ensures |cfg.ipAllowlist| > 0 ==> (ok <==> exists ip :: ip in ClientIps(req) && ip in cfg.ipAllowlist)
  {
    |cfg.ipAllowlist| == 0 || AnyListed(ClientIps(req), cfg.ipAllowlist)
  }

  /** The content-type test: reject unless the header equals or contains
      `application/json`, which comes down to "contains". A missing header fails. */
  function ContentTypeAccepted(req: Request): (ok: bool)
    ensures ok <==> Header(req, "content-type").Some?
                    && Strings.Contains(Header(req, "content-type").value, "application/json")
  {
    var ct := Header(req, "content-type");
    assert ct == Some("application/json") ==> Strings.IsPrefix("application/json", ct.value[0..]);
    assert !Strings.Contains("", "application/json") by {
      if Strings.Contains("", "application/json") {
        Strings.EmptyContainsOnlyEmpty("application/json");
      }
    }
    !(ct != Some("application/json") && !Strings.Contains(ct.GetOr(""), "application/json"))
  }

  /** The header check passes when a header name and value are both configured
      and the request carries exactly that value under the lower-cased name. */
  predicate HeaderSecretOk(cfg: Config, req: Request) {
    && cfg.headerName != ""
    && cfg.expectedHeaderValue != ""
    && Header(req, Strings.Lower(cfg.headerName)) == Some(cfg.expectedHeaderValue)
  }

  /** The body check passes when a shared secret is configured and the body's
      `sharedSecret` is a string equal to it. */
  predicate BodySecretOk(cfg: Config, req: Request) {
    && cfg.sharedSecret != ""
    && Get(req.body, "sharedSecret") == Str(cfg.sharedSecret)
  }

  /** Secret verification: either check suffices; with neither configured
      nothing passes. */
  function VerifySecret(cfg: Config, req: Request): (ok: bool)
    ensures ok <==> HeaderSecretOk(cfg, req) || BodySecretOk(cfg, req)
    ensures cfg.sharedSecret == "" && (cfg.headerName == "" || cfg.expectedHeaderValue == "") ==> !ok
  {
    var headerOk := cfg.headerName != "" && cfg.expectedHeaderValue != ""
                    && Header(req, Strings.Lower(cfg.headerName)) == Some(cfg.expectedHeaderValue);
    var bodySecret := Get(req.body, "sharedSecret");
    var bodyOk := cfg.sharedSecret != "" && bodySecret.Str? && bodySecret.s == cfg.sharedSecret;
    headerOk || bodyOk
  }

  /** A body secret that is not a JSON string never verifies, even when it
      stringifies to the configured secret (say the number 42 against "42"). */
  lemma NonStringBodySecretIgnored(cfg: Config, req: Request)
    requires !Get(req.body, "sharedSecret").Str?
    requires !HeaderSecretOk(cfg, req)
    ensures !VerifySecret(cfg, req)
  {
  }

  /** The admin check: an empty admin token rejects every request; otherwise the
      `authorization` header must be exactly `Bearer <token>`. */
  function AdminAuthorized(cfg: Config, req: Request): (ok: bool)
    ensures cfg.adminToken == "" ==> !ok
    ensures ok <==> cfg.adminToken != "" && Header(req, "authorization") == Some("Bearer " + cfg.adminToken)
  {
    var auth := Header(req, "authorization").GetOr("");
    !(cfg.adminToken == "" || auth != "Bearer " + cfg.adminToken)
  }
}
