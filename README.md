# meucontato-backend: access gates and contact handler, in Dafny

This project models the decision logic of the `meucontato-backend` server
(`index.js`), a small Express application that relays a contact-form
submission as two emails and guards its routes with an origin allowlist and
an IP allowlist. The model covers:

- reading the two allowlists from the environment at startup (`Allowlist`,
  `Config`): a literal `*` becomes the wildcard list, anything else is split
  on commas, trimmed and stripped of empty tokens; an unset or empty IP value
  gives the empty list, which switches the IP gate off;
- the origin callback given to the CORS middleware (`Cors`);
- `normalizeIp`, the choice of the caller's address and the IP middleware's
  verdict (`IpGate`);
- the `POST /contact` handler: field validation, the two message records,
  the sequential sends and the response (`Contact`).

`Js` holds the JavaScript string operations this logic depends on
(`trim` with the ECMAScript whitespace set, `split` with a string separator,
`startsWith`, `includes`, truthiness and `||` on a value that may be
`undefined`), each with the properties the rest of the model uses: `split`
pieces rejoin to the input and never contain the separator, `trim` removes
only whitespace and only at the ends.

The code sends the two emails one after the other: the acknowledgment is
attempted only when the notification succeeded, and any failure gives one
generic 500 answer. `index.js` has no concurrent sends, no per-recipient
error list, no path that bypasses the IP gate and no `/health` route, so
the model has none either.

The email provider is replaced by a sequence of outcomes. `outcomes[i]` is
true when the i-th send is delivered and false when it throws. `PostContact`
returns the response and the messages it handed to the provider, in order.
It requires at least two outcomes, one for each send it may make.

## Model

| member | source | states |
|---|---|---|
| `Js.Or` | index.js:12 | logical or of two possibly-undefined strings: the first operand when it is truthy, otherwise exactly the second (so `''` or-ed with nothing is nothing); truthy exactly when one operand is |
| `Js.OrDefault` | index.js:40 | logical or with a string literal as last operand: the first operand when truthy, else the literal; never empty when the literal is not |
| `Js.Trim` | index.js:17 | the result has no whitespace at either end, is empty exactly when the input is all whitespace, and leaves an already trimmed string unchanged; it is a contiguous slice of the input with only whitespace before and after it |
| `Js.Split` | index.js:17 | `split` with a non-empty separator gives at least one piece, the pieces rejoined with the separator give back the input, no piece contains the separator, and no occurrence of the separator starts inside the first piece (the scan is leftmost, also for a self-overlapping separator) |
| `Js.FirstPiece` | index.js:63 | `split(sep)[0]` is the prefix before the first occurrence of the separator (none starts inside it); when there is none it is the whole string and the only piece |
| `Js.SplitRest` | index.js:17 | after the first piece and the separator that ends it, the remaining pieces are the split of the rest of the string |
| `Js.ContainsTransitive` | index.js:95 | a string inside a string inside `s` is inside `s` |
| `Allowlist.Clean` | index.js:17 | `map(trim).filter(Boolean)` keeps at most as many entries, each non-empty and trimmed |
| `Allowlist.CleanMembers` | index.js:17 | a string survives `map(trim).filter(Boolean)` exactly when it is the non-empty trim of some token |
| `Allowlist.ParseList` | index.js:17 | every entry of a split-trim-filter list is non-empty, trimmed and free of commas |
| `Allowlist.ParseListMembers` | index.js:17 | `x` is in the parsed list exactly when it is non-empty and is the trim of one comma-separated token of the raw value |
| `Allowlist.ParseListBlank` | index.js:17 | the parsed list is empty exactly when every token is blank |
| `Allowlist.ParseOrigins` | index.js:14-18 | exactly `*` gives `['*']`; every entry is non-empty, trimmed and comma-free |
| `Allowlist.ParseIps` | index.js:42-48 | the empty value gives `[]`; a value whose trim is `*` gives `['*']`; every entry is non-empty, trimmed and comma-free |
| `Allowlist.OriginsAreParsedList` | index.js:14-17 | the untrimmed `'*'` test on the origin value is redundant: the result always equals plain split-trim-filter |
| `Allowlist.IpsAreParsedList` | index.js:42-46 | the emptiness test and the trimmed `'*'` test on the IP value agree with plain split-trim-filter |
| `Allowlist.BlankIpsParseEmpty` | index.js:42-48 | a value made only of whitespace and commas passes the non-empty test yet yields `[]`, so it leaves the IP gate off |
| `Config.RawOrigins` | index.js:12 | the raw origin value is the first non-empty of `ALLOWED_CLIENTS_ORIGIN`, `allowed_clients_origin`, `FRONTEND_ORIGIN`, in that order, else `*` |
| `Config.RawIps` | index.js:40 | the raw IP value is the first non-empty of `ALLOWED_CLIENTS_IP`, `allowed_clients_ip`, else the empty string |
| `Config.FromAddress` | index.js:71 | the sender is `FROM_EMAIL` when it is non-empty, else `TO_EMAIL` |
| `Config.LoadConfig` | index.js:12-48 | the startup assignments give the lists `ParseOrigins`/`ParseIps` describe, entries are well formed, and with no variable set the origin list is `['*']` and the IP list `[]` |
| `Cors.OriginCallback` | index.js:23-28 | an absent or empty origin is allowed; a list holding `*` allows all; otherwise allowed exactly when the origin is a literal entry, else rejected with `Not allowed by CORS` |
| `Cors.OriginGateFromRaw` | index.js:12-27 | a non-empty origin passes exactly when some token of the raw value trims to `*` or to the origin itself |
| `Cors.MalformedOriginRejected` | index.js:17-27 | without a wildcard token, an origin with surrounding whitespace or a comma is always rejected |
| `Cors.DefaultOriginsAllowAll` | index.js:12-26 | for every environment where none of the three origin variables is set to a non-empty value, every origin is allowed |
| `IpGate.AfterMapped` | index.js:53 | `split('::ffff:')[1]` is the text after the leading prefix, up to the first later `::ffff:` (none starts inside it) or the end |
| `IpGate.NormalizeIp` | index.js:50-56 | nothing or `''` gives `''`; a `::ffff:` address gives the text after the prefix up to the first later `::ffff:`; `::1` gives `127.0.0.1`; anything else is unchanged |
| `IpGate.FirstHop` | index.js:63 | the first hop of X-Forwarded-For is the trimmed text before its first comma (all of it when there is none); it is trimmed and holds no comma |
| `IpGate.ClientIp` | index.js:62-63 | the address is the normalised first hop when that is non-empty, else the normalised `req.ip` when non-empty, else the normalised remote address |
| `IpGate.Check` | index.js:59-67 | an empty or wildcard list admits everything; otherwise admitted exactly when the address is non-empty and listed; refusals are 403 with `Access denied (unknown IP)` for an empty address and `Access denied from IP <ip>` otherwise |
| `IpGate.IpGateFromRaw` | index.js:40-65 | a request passes exactly when every token of the raw value is blank, or one trims to `*`, or one trims to the caller's non-empty address |
| `IpGate.ForwardedHopDecides` | index.js:62-63 | once the forwarded first hop is non-empty, `req.ip` and the remote address do not affect the verdict |
| `IpGate.ForgedForwardedHeaderAdmitted` | index.js:62-65 | an X-Forwarded-For starting with a listed plain address is admitted whatever the peer address and the rest of the header |
| `IpGate.LoopbackNormalised` | index.js:54-65 | a caller seen as `::1` is checked as `127.0.0.1` |
| `IpGate.UnsetIpsAllowAll` | index.js:40-60 | for every environment where neither IP variable is set to a non-empty value, every request passes |
| `Contact.Fields` | index.js:83 | a missing body has all three fields absent |
| `Contact.AdminMessage` | index.js:90-96 | the notification goes to `TO_EMAIL` from the sender address; its subject names the submitter and their email; text and HTML contain the message verbatim |
| `Contact.UserMessage` | index.js:99-105 | the acknowledgment goes to the submitted email from the sender address; its subject names the submitter; text and HTML contain the message verbatim |
| `Contact.MarkupReachesHtml` | index.js:95-104 | markup inside the message appears unescaped in both HTML bodies |
| `Contact.PostContact` | index.js:82-115 | a missing or empty field gives 400 `Missing required fields: name, email, message` with no send; otherwise the notification is sent first, the acknowledgment only after it succeeds; 200 `{ok, sentTo: [TO_EMAIL, email]}` exactly when both succeed, else 500 `Erro interno ao enviar e-mail` |

## Left out

- Express, `cors` and `express.json` wiring, `dotenv`, `PORT` and `app.listen` (index.js:1-9, 30-31, 117-119): framework plumbing and I/O.
- The trust-proxy setting and how Express derives `req.ip` (index.js:35-37): `req.ip` and the remote address are plain optional inputs of `IpGate.Request`.
- `sgMail.setApiKey` and `sgMail.send` (index.js:76, 107-108): the provider is a foreign network client, replaced by one boolean outcome per send; a missing API key or `TO_EMAIL` shows up only as a failed outcome.
- `console.log` and `console.error` (index.js:20, 73-74, 112): logging without stated behaviour.
- The `GET /` liveness route (index.js:78-80): a constant response.
- The async/await mechanics: the two sends are strictly sequential, so the model runs them in order.
- `Contact.Body`: body fields are absent or strings; JSON numbers, booleans, `null` or objects in those fields (which JavaScript would also judge by truthiness and stringify into the templates) are not modelled.
- `IpGate.Request`: the X-Forwarded-For header is a single optional string; the array form a header can take in Node is not modelled.
- `Contact.PostContact`: requires at least two outcomes, one for each send it may make, because the provider always answers each send.
