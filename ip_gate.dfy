/**
 * The IP allowlist middleware: which address the caller is taken to have,
 * how that address is normalised, and whether the request proceeds or is
 * refused with status 403.
 */
module IpGate {
  import opened Js
  import opened Allowlist
  import opened Config

  /** The prefix of an IPv4 address written as an IPv4-mapped IPv6 address. */
  const Mapped := "::ffff:"

  /** What the middleware sees of a request. */
  datatype Request = Request(
    forwardedFor: Option<string>,   // the X-Forwarded-For header
    ip: Option<string>,             // req.ip as the framework computes it
    remoteAddress: Option<string>)  // the socket's peer address

  /** `next()`, or `res.status(status).json({ error })`. */
  datatype Gate = Next | Deny(status: int, error: string)

  const UnknownIp := "Access denied (unknown IP)"

  /** `ip.split('::ffff:')[1]` for an `ip` that starts with the mapped prefix. */
  function AfterMapped(ip: string): (r: string)
    requires StartsWith(ip, Mapped)
    ensures |Mapped| + |r| <= |ip| && r == ip[|Mapped|..|Mapped| + |r|]
    ensures Free(r, Mapped)
    ensures forall k :: |Mapped| <= k < |Mapped| + |r| ==> !OccursAt(ip, Mapped, k)
    ensures |Mapped| + |r| == |ip| || OccursAt(ip, Mapped, |Mapped| + |r|)
  {
    SecondPiece(ip, Mapped);
    var r := Split(ip, Mapped)[1];
    PieceAfterPrefix(ip, Mapped, r);
    r
  }

  /**
   * When `s` starts with `sep`, `s.split(sep)[1]` is the text after that
   * leading `sep`, up to the next occurrence of `sep` or the end.
   */
  lemma PieceAfterPrefix(s: string, sep: string, r: string)
    requires |sep| > 0 && StartsWith(s, sep)
    requires |Split(s, sep)| > 1 && r == Split(s, sep)[1]
    ensures |sep| + |r| <= |s| && r == s[|sep|..|sep| + |r|]
    ensures forall k :: |sep| <= k < |sep| + |r| ==> !OccursAt(s, sep, k)
    ensures |sep| + |r| == |s| || OccursAt(s, sep, |sep| + |r|)
  {
    SecondPiece(s, sep);
    var rest := s[|sep|..];
    FirstPiece(rest, sep);
    assert |r| == |rest| || OccursAt(rest, sep, |r|);
    ShiftedPiece(s, sep, r);
  }

  /**
   * A piece that starts at index `|sep|` of `s` and stops at the first
   * occurrence of `sep` after it (or the end) is that slice of `s`, and no
   * occurrence of `sep` in `s` starts inside it.
   */
  lemma ShiftedPiece(s: string, sep: string, p: string)
    requires |sep| <= |s|
    requires |p| <= |s| - |sep| && p == s[|sep|..][..|p|]
    requires forall k: nat :: k < |p| ==> !OccursAt(s[|sep|..], sep, k)
    requires |p| == |s| - |sep| || OccursAt(s[|sep|..], sep, |p|)
    ensures p == s[|sep|..|sep| + |p|]
    ensures forall k :: |sep| <= k < |sep| + |p| ==> !OccursAt(s, sep, k)
    ensures |sep| + |p| == |s| || OccursAt(s, sep, |sep| + |p|)
  {
    forall k | |sep| <= k <= |sep| + |p|
      ensures OccursAt(s, sep, k) <==> OccursAt(s[|sep|..], sep, k - |sep|)
    {
      OccursShifted(s, |sep|, sep, k - |sep|);
    }
  }

  /** When `s` starts with `sep`, the pieces are `""` and then the pieces of what follows it. */
  lemma SecondPiece(s: string, sep: string)
    requires |sep| > 0 && StartsWith(s, sep)
    ensures |Split(s, sep)| > 1
    ensures Split(s, sep)[1] == Split(s[|sep|..], sep)[0]
  {
    assert IndexOf(s, sep) == Some(0);
    assert Split(s, sep) == [s[..0]] + Split(s[|sep|..], sep);
  }

  /** An occurrence in a suffix `s[n..]` is an occurrence in `s`, shifted by `n`. */
  lemma OccursShifted(s: string, n: nat, pat: string, k: nat)
    requires n <= |s|
    ensures OccursAt(s, pat, n + k) <==> OccursAt(s[n..], pat, k)
  {
    if n + k + |pat| <= |s| {
      assert s[n..][k..k + |pat|] == s[n + k..n + k + |pat|];
    }
  }

  /**
   * `normalizeIp`: nothing gives the empty string, an IPv4-mapped address
   * gives the text after the prefix (up to any later repetition of it),
   * the IPv6 loopback gives the IPv4 loopback, anything else is unchanged.
   */
  function NormalizeIp(ip: Option<string>): (r: string)
    ensures !Truthy(ip) ==> r == ""
    ensures Truthy(ip) && StartsWith(ip.value, Mapped) ==>
      && |Mapped| + |r| <= |ip.value| && r == ip.value[|Mapped|..|Mapped| + |r|]
      && Free(r, Mapped)
      && (forall k :: |Mapped| <= k < |Mapped| + |r| ==> !OccursAt(ip.value, Mapped, k))
      && (|Mapped| + |r| == |ip.value| || OccursAt(ip.value, Mapped, |Mapped| + |r|))
    ensures ip == Some("::1") ==> r == "127.0.0.1"
    ensures Truthy(ip) && !StartsWith(ip.value, Mapped) && ip.value != "::1" ==> r == ip.value
  {
    if !Truthy(ip) then ""
    else if StartsWith(ip.value, Mapped) then AfterMapped(ip.value)
    else if ip.value == "::1" then "127.0.0.1"
    else ip.value
  }

  /**
   * `String(forwarded).split(',')[0].trim()`: the first hop of the header,
   * trimmed; it holds no comma and nothing of the header past its first comma.
   */
  function FirstHop(forwarded: string): (r: string)
    ensures IsTrimmed(r) && ',' !in r
    ensures forall k :: 0 <= k <= |forwarded| && ',' !in forwarded[..k] && (k == |forwarded| || forwarded[k] == ',') ==>
      r == Trim(forwarded[..k])
    ensures Free(forwarded, ",") ==> r == Trim(forwarded)
  {
    var p := Split(forwarded, ",")[0];
    FirstPiece(forwarded, ",");
    TrimKeepsCommaFree(p);
    PiecesBeforeComma(forwarded);
    Trim(p)
  }

  /** The first comma-separated piece is the text up to the first comma, wherever that is. */
  lemma PiecesBeforeComma(s: string)
    ensures forall k :: 0 <= k <= |s| && ',' !in s[..k] && (k == |s| || s[k] == ',') ==> Split(s, ",")[0] == s[..k]
  {
    forall k | 0 <= k <= |s| && ',' !in s[..k] && (k == |s| || s[k] == ',')
      ensures Split(s, ",")[0] == s[..k]
    {
      PieceBeforeChar(s, ',', k);
    }
  }

  /** `s.split(c)[0]` is `s[..k]` when `k` is the first index of the character `c` in `s`, or its end. */
  lemma PieceBeforeChar(s: string, c: char, k: nat)
    requires k <= |s| && c !in s[..k] && (k == |s| || s[k] == c)
    ensures Split(s, [c])[0] == s[..k]
  {
    FirstPiece(s, [c]);
    var r := Split(s, [c]);
    var p := r[0];
    forall j | 0 <= j < k ensures !OccursAt(s, [c], j) {
      assert s[..k][j] == s[j];
      OccursChar(s, c, j);
    }
    if |r| > 1 {
      assert OccursAt(s, [c], |p|);
    }
    assert k <= |p|;
    if k < |s| {
      OccursChar(s, c, k);
    }
    assert |p| <= k;
  }

  /** A one-character string occurs at `j` exactly when that character is at `j`. */
  lemma OccursChar(s: string, c: char, j: nat)
    requires j < |s|
    ensures OccursAt(s, [c], j) <==> s[j] == c
  {
    assert s[j..j + 1] == [s[j]];
  }

  /**
   * The address the middleware works on: the trimmed first hop of
   * X-Forwarded-For when that is non-empty, else `req.ip` when non-empty,
   * else the remote address, then normalised.
   */
  function ClientIp(req: Request): (r: string)
    ensures Truthy(req.forwardedFor) && FirstHop(req.forwardedFor.value) != "" ==>
      r == NormalizeIp(Some(FirstHop(req.forwardedFor.value)))
    ensures !(Truthy(req.forwardedFor) && FirstHop(req.forwardedFor.value) != "") ==>
      r == NormalizeIp(Or(req.ip, req.remoteAddress))
  {
    var hop := if Truthy(req.forwardedFor) then Some(FirstHop(req.forwardedFor.value)) else req.forwardedFor;
    NormalizeIp(Or(Or(hop, req.ip), req.remoteAddress))
  }

  /**
   * The middleware: an empty list or a wildcard entry lets everything
   * through; otherwise an empty caller address is refused as unknown, a
   * listed one proceeds and any other is refused with a message naming it.
   */
  function Check(allowedIPs: seq<string>, req: Request): (r: Gate)
    ensures |allowedIPs| == 0 || "*" in allowedIPs ==> r == Next
    ensures r == Next <==>
      |allowedIPs| == 0 || "*" in allowedIPs || (ClientIp(req) != "" && ClientIp(req) in allowedIPs)
    ensures r != Next ==> r.status == 403
    ensures r != Next && ClientIp(req) == "" ==> r.error == UnknownIp
    ensures r != Next && ClientIp(req) != "" ==> r.error == "Access denied from IP " + ClientIp(req)
  {
    if |allowedIPs| == 0 then Next
    else if "*" in allowedIPs then Next
    else
      var ip := ClientIp(req);
      if ip == "" then Deny(403, UnknownIp)
      else if ip in allowedIPs then Next
      else Deny(403, "Access denied from IP " + ip)
  }

  /**
   * The gate in terms of the configured value: a request passes exactly
   * when no comma-separated token of the raw value is non-blank, or some
   * token trims to `*`, or some token trims to the caller's non-empty
   * normalised address.
   */
  lemma IpGateFromRaw(raw: string, req: Request)
    ensures var tokens := Split(raw, ",");
      Check(ParseIps(raw), req) == Next <==>
      || (forall j :: 0 <= j < |tokens| ==> Trim(tokens[j]) == "")
      || SomeTrimsTo(tokens, "*")
      || (ClientIp(req) != "" && SomeTrimsTo(tokens, ClientIp(req)))
  {
    var ip := ClientIp(req);
    IpsAreParsedList(raw);
    ParseListBlank(raw);
    ParseListMembers(raw, "*");
    ParseListMembers(raw, ip);
  }

  /**
   * Once the first hop of X-Forwarded-For is non-empty, neither `req.ip`
   * nor the remote address has any say in the decision.
   */
  lemma ForwardedHopDecides(allowedIPs: seq<string>, forwarded: string, a: Request, b: Request)
    requires a.forwardedFor == b.forwardedFor == Some(forwarded)
    requires FirstHop(forwarded) != ""
    ensures Check(allowedIPs, a) == Check(allowedIPs, b)
  {
  }

  /**
   * The header is taken as the caller sends it: a request whose
   * X-Forwarded-For starts with a listed plain address passes, whatever the
   * peer address and whatever the rest of the header.
   */
  lemma ForgedForwardedHeaderAdmitted(allowedIPs: seq<string>, a: string, rest: string, ip: Option<string>, remote: Option<string>)
    requires a in allowedIPs && IsEntry(a)
    requires !StartsWith(a, Mapped) && a != "::1"
    ensures Check(allowedIPs, Request(Some(a + "," + rest), ip, remote)) == Next
  {
    FirstHopOfEntry(a, rest);
  }

  /** The first hop of `a + "," + rest` is `a` itself when `a` is a trimmed, comma-free entry. */
  lemma FirstHopOfEntry(a: string, rest: string)
    requires IsEntry(a)
    ensures FirstHop(a + "," + rest) == a
  {
    var h := a + "," + rest;
    forall k: nat | k < |a| ensures !OccursAt(h, ",", k) {
      assert h[k] == a[k];
      assert k + 1 <= |h| ==> h[k..k + 1][0] == h[k];
    }
    assert h[|a|..|a| + 1] == ",";
    assert OccursAt(h, ",", |a|);
    assert IndexOf(h, ",") == Some(|a|);
    assert h[..|a|] == a;
    assert Split(h, ",")[0] == a;
  }

  /** `::1` reaching the gate is compared as `127.0.0.1`. */
  lemma LoopbackNormalised(allowedIPs: seq<string>, req: Request)
    requires req.forwardedFor == None && req.ip == Some("::1")
    ensures ClientIp(req) == "127.0.0.1"
    ensures "127.0.0.1" in allowedIPs ==> Check(allowedIPs, req) == Next
  {
    assert !StartsWith("::1", Mapped);
  }

  /** With neither IP variable set to a non-empty value, the gate is off for every request. */
  lemma UnsetIpsAllowAll(env: Env, req: Request)
    requires !Truthy(env.allowedClientsIp) && !Truthy(env.allowedClientsIpLower)
    ensures Check(ParseIps(RawIps(env)), req) == Next
  {
    assert RawIps(env) == "";
  }
}
