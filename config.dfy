/**
 * Startup configuration read from the environment: the origin and IP
 * allowlists and the two email addresses. The values are read once and are
 * then fixed for the life of the process.
 */
module Config {
  import opened Js
  import opened Allowlist

  /** The environment variables the model reads; an unset variable is `None`. */
  datatype Env = Env(
    allowedClientsOrigin: Option<string>,       // ALLOWED_CLIENTS_ORIGIN
    allowedClientsOriginLower: Option<string>,  // allowed_clients_origin
    frontendOrigin: Option<string>,             // FRONTEND_ORIGIN
    allowedClientsIp: Option<string>,           // ALLOWED_CLIENTS_IP
    allowedClientsIpLower: Option<string>,      // allowed_clients_ip
    toEmail: Option<string>,                    // TO_EMAIL
    fromEmail: Option<string>)                  // FROM_EMAIL

  datatype Config = Config(
    allowedOrigins: seq<string>,
    allowedIPs: seq<string>,
    toEmail: Option<string>,
    fromEmail: Option<string>)

  /** The raw origin value: the first non-empty of the three variables, in order, else `*`. */
  function RawOrigins(env: Env): (r: string)
    ensures r != ""
    ensures Truthy(env.allowedClientsOrigin) ==> r == env.allowedClientsOrigin.value
    ensures !Truthy(env.allowedClientsOrigin) && Truthy(env.allowedClientsOriginLower) ==>
      r == env.allowedClientsOriginLower.value
    ensures !Truthy(env.allowedClientsOrigin) && !Truthy(env.allowedClientsOriginLower) && Truthy(env.frontendOrigin) ==>
      r == env.frontendOrigin.value
    ensures !Truthy(env.allowedClientsOrigin) && !Truthy(env.allowedClientsOriginLower) && !Truthy(env.frontendOrigin) ==>
      r == "*"
  {
    OrDefault(Or(Or(env.allowedClientsOrigin, env.allowedClientsOriginLower), env.frontendOrigin), "*")
  }

  /** The raw IP value: the first non-empty of the two variables, else the empty string. */
  function RawIps(env: Env): (r: string)
    ensures Truthy(env.allowedClientsIp) ==> r == env.allowedClientsIp.value
    ensures !Truthy(env.allowedClientsIp) && Truthy(env.allowedClientsIpLower) ==> r == env.allowedClientsIpLower.value
    ensures !Truthy(env.allowedClientsIp) && !Truthy(env.allowedClientsIpLower) ==> r == ""
  {
    OrDefault(Or(env.allowedClientsIp, env.allowedClientsIpLower), "")
  }

  /** `FROM_EMAIL || TO_EMAIL`: the sender falls back to the recipient address. */
  function FromAddress(env: Env): (r: Option<string>)
    ensures Truthy(env.fromEmail) ==> r == env.fromEmail
    ensures !Truthy(env.fromEmail) ==> r == env.toEmail
  {
    Or(env.fromEmail, env.toEmail)
  }

  /**
   * The startup step: both lists start empty and are reassigned from the
   * raw values. With nothing set, every origin is allowed and the IP gate
   * is off.
   */
  method LoadConfig(env: Env) returns (cfg: Config)
    ensures cfg.allowedOrigins == ParseOrigins(RawOrigins(env))
    ensures cfg.allowedIPs == ParseIps(RawIps(env))
    ensures cfg.toEmail == env.toEmail && cfg.fromEmail == FromAddress(env)
    ensures forall i :: 0 <= i < |cfg.allowedOrigins| ==> IsEntry(cfg.allowedOrigins[i])
    ensures forall i :: 0 <= i < |cfg.allowedIPs| ==> IsEntry(cfg.allowedIPs[i])
    ensures !Truthy(env.allowedClientsOrigin) && !Truthy(env.allowedClientsOriginLower) && !Truthy(env.frontendOrigin) ==>
      cfg.allowedOrigins == ["*"]
    ensures !Truthy(env.allowedClientsIp) && !Truthy(env.allowedClientsIpLower) ==> cfg.allowedIPs == []
  {
    var rawAllowed := RawOrigins(env);
    var allowedOrigins: seq<string> := [];
    if rawAllowed == "*" {
      allowedOrigins := ["*"];
    } else {
      allowedOrigins := ParseList(rawAllowed);
    }

    var rawAllowedIPs := RawIps(env);
    var allowedIPs: seq<string> := [];
    if rawAllowedIPs != "" {
      if Trim(rawAllowedIPs) == "*" {
        allowedIPs := ["*"];
      } else {
        allowedIPs := ParseList(rawAllowedIPs);
      }
    }

    cfg := Config(allowedOrigins, allowedIPs, env.toEmail, FromAddress(env));
  }
}
