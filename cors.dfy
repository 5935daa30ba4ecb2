/**
 * The origin check handed to the CORS middleware: given the request's
 * `Origin` header (absent for non-browser callers) and the parsed origin
 * allowlist, allow the request or refuse it with an error.
 */
module Cors {
  import opened Js
  import opened Allowlist
  import opened Config

  /** What the callback reports: `callback(null, true)` or `callback(new Error(msg), false)`. */
  datatype Verdict = Allow | Reject(error: string)

  const NotAllowed := "Not allowed by CORS"

  /**
   * The `origin` callback: a missing or empty origin is always allowed, a
   * wildcard entry allows every origin, and otherwise the origin must be a
   * literal entry of the list.
   */
  function OriginCallback(origin: Option<string>, allowedOrigins: seq<string>): (r: Verdict)
    ensures !Truthy(origin) ==> r == Allow
    ensures "*" in allowedOrigins ==> r == Allow
    ensures r == Allow <==> !Truthy(origin) || "*" in allowedOrigins || origin.value in allowedOrigins
    ensures r != Allow ==> r == Reject(NotAllowed)
  {
    if !Truthy(origin) then Allow
    else if "*" in allowedOrigins then Allow
    else if origin.value in allowedOrigins then Allow
    else Reject(NotAllowed)
  }

  /**
   * The gate in terms of the configured value: a present, non-empty origin
   * passes exactly when some comma-separated token of the raw value trims to
   * `*` or to the origin itself.
   */
  lemma OriginGateFromRaw(raw: string, o: string)
    requires o != ""
    ensures OriginCallback(Some(o), ParseOrigins(raw)) == Allow <==>
      SomeTrimsTo(Split(raw, ","), "*") || SomeTrimsTo(Split(raw, ","), o)
  {
    OriginsAreParsedList(raw);
    ParseListMembers(raw, "*");
    ParseListMembers(raw, o);
  }

  /**
   * Unless the configured list holds the wildcard, an origin carrying
   * surrounding whitespace or a comma can never match an entry, so it is
   * refused.
   */
  lemma MalformedOriginRejected(raw: string, o: string)
    requires o != "" && !IsEntry(o)
    requires !SomeTrimsTo(Split(raw, ","), "*")
    ensures OriginCallback(Some(o), ParseOrigins(raw)) == Reject(NotAllowed)
  {
    OriginsAreParsedList(raw);
    ParseListMembers(raw, "*");
  }

  /**
   * With none of the three origin variables set to a non-empty value, the
   * raw value defaults to `*` and every origin passes.
   */
  lemma DefaultOriginsAllowAll(env: Env, origin: Option<string>)
    requires !Truthy(env.allowedClientsOrigin) && !Truthy(env.allowedClientsOriginLower) && !Truthy(env.frontendOrigin)
    ensures OriginCallback(origin, ParseOrigins(RawOrigins(env))) == Allow
  {
    assert RawOrigins(env) == "*";
  }
}
