# Heymail: message bodies, bearer tokens and identity lookup

Heymail is a mail client. It has two parts, and this project models the
logic in each of them:

- **heymail** is the front end. It reads Gmail messages. For each listed
  message it builds a record: subject, sender, timestamp, read flag and body.
  The body is found by searching the message's MIME tree. The preferred part
  is `text/html`, then `text/plain`, then a fixed sentinel text. A part's data
  is base64url: it is rewritten to the standard alphabet, padded with `=` to a
  multiple of four characters, and decoded.
- **heyserv** is the back end. Its middleware reads the `Authorization`
  header. The token is the second space-separated segment. A Keycloak
  signature check then accepts the request (its claims are stored on the
  request) or rejects it with one of three 401 replies. The `/email` and
  `/email/send` handlers come next:
  - they ask Keycloak for an admin token with the client-credentials grant
    (section 4.4 of RFC 6749);
  - they list the user's federated identities and pick the first `google`
    record;
  - they map any thrown error to a 500 reply.

The modules:

- `Wrappers` holds `Option`.
- `Base64` covers `decodeBase64Url` and an encoder used to state the round
  trip.
- `MimeBody` covers `extractEmailBody` and `findPart`.
- `GmailMessages` covers the record built by `fetchEmails`.
- `Bearer` covers header splitting, token extraction and the middleware's
  decision.
- `KeycloakAdmin` covers the `URLSearchParams` form and the identity
  selection.
- `Heyserv` covers the middleware acting on request and response objects and
  the two routes.

The signature check, the token endpoint and the identity listing are
parameters. Each one either returns a value or gives the message of the
error it throws. The routes are functions that return the reply together
with the list of calls made, so the orderings can be stated as lemmas.

In two places the code does something a reader would not expect. The model
follows the code in both:

- **The search can stop at an empty decoding.** `findPart` returns the
  decoding of the first matching part whose data is a non-empty string,
  even when that decoding is empty. For example, `"A"` holds no whole byte.
  The parent call ignores the empty result, but the sibling loop that
  returned it has already ended. So a later matching sibling is never
  reached. `MimeBody.EmptyDecodingHidesLaterSibling` exhibits this. The
  document-order lemmas assume that every matching part's data is
  well-formed.
- **`/email` succeeds without a google identity.** When the user has no
  `google` identity, `/email` answers 200 with the identity absent. It is not
  treated as a failure. `/email/send` answers 500 "Failed to send email" in
  that case, because `.token` is read from `undefined`.

## Model

| member | source | states |
|---|---|---|
| Base64.StdValue | heymail/src/gmailApi.ts:101 | a character of the standard alphabet has a 6-bit value whose encoding is that character; `=`, `-` and `_` have none |
| Base64.UrlToStandard | heymail/src/gmailApi.ts:97 | same length; every `-` becomes `+`, every `_` becomes `/`, every other character is unchanged |
| Base64.PadToQuad | heymail/src/gmailApi.ts:98-100 | the padding loop ends with: length a multiple of 4; the input as prefix; at most 3 characters added, all `=`; an input already a multiple of 4 is not extended |
| Base64.DecodeStd | heymail/src/gmailApi.ts:101 | a non-empty well-formed standard base64 text decodes to at least one byte |
| Base64.BytesToText | heymail/src/gmailApi.ts:101 | one character per decoded byte |
| Base64.DecodeBase64Url | heymail/src/gmailApi.ts:96-102 | rewrite, pad, decode gives `DecodeText`, the text of the base64url decoding, or "" for malformed input; non-empty well-formed input gives non-empty text |
| Base64.WellFormedDecodesNonEmpty | heymail/src/gmailApi.ts:96-102 | non-empty well-formed base64url data never decodes to the empty text |
| Base64.DecodeEncode | heymail/src/gmailApi.ts:101 | standard decoding inverts standard padded encoding for every byte sequence |
| Base64.RoundTrip | heymail/src/gmailApi.ts:96-102 | every byte sequence, encoded, moved to the URL-safe alphabet and stripped of `=`, decodes back to itself |
| Base64.DecodeExample | heymail/src/gmailApi.ts:96-102 | `"QUI"` decodes to the bytes 65, 66, that is the text `"AB"` |
| MimeBody.FindPart | heymail/src/gmailApi.ts:77-88 | the loop with early returns and recursion computes `Search` over the parts: a part's own match first, then its children when they give non-empty text, then later siblings |
| MimeBody.ExtractEmailBody | heymail/src/gmailApi.ts:68-94 | computes `Body`: absent payload gives ""; a leaf gives its decoded data or ""; a container never gives "" and gives the sentinel when neither search finds text |
| MimeBody.SearchIsFirstInDocumentOrder | heymail/src/gmailApi.ts:77-88 | with well-formed matching data, the search yields the content of the first matching part in pre-order, left to right, and nothing when none matches |
| MimeBody.SearchIsSound | heymail/src/gmailApi.ts:77-88 | whatever the search returns is the content of a matching part of the tree; with no matching part it returns nothing |
| MimeBody.HtmlIsPreferred | heymail/src/gmailApi.ts:89-90 | a `text/html` part anywhere in the tree wins over any `text/plain` part, however shallow or early |
| MimeBody.PlainIsFallback | heymail/src/gmailApi.ts:89-92 | with no `text/html` part, the first `text/plain` part in document order is the body |
| MimeBody.NoTextPartGivesSentinel | heymail/src/gmailApi.ts:89-93 | without html or plain parts carrying data, the body is "Could not parse email body." |
| MimeBody.EmptyDecodingHidesLaterSibling | heymail/src/gmailApi.ts:78-84 | a first html part whose data decodes to nothing stops the search, so a later html sibling with content is not used and the body is the sentinel |
| GmailMessages.FindHeader | heymail/src/gmailApi.ts:19-21 | returns the first header with the name, and nothing exactly when no header has it |
| GmailMessages.HeaderOr | heymail/src/gmailApi.ts:19-20 | the first header of that name supplies the value when it is a non-empty string; otherwise, or when no header is named so, the default |
| GmailMessages.TimestampOf | heymail/src/gmailApi.ts:21-22 | a timestamp taken from the headers carries non-empty text; without a `Date` header it is the fetch time |
| GmailMessages.TimestampIsFirstDate | heymail/src/gmailApi.ts:21-22 | the timestamp is the first `Date` header's value when non-empty, otherwise the fetch time |
| GmailMessages.ToEmail | heymail/src/gmailApi.ts:16-34 | id and thread from the listing; subject defaults to "No Subject", sender to "Unknown Sender"; `read` holds exactly when no label is "UNREAD"; body and raw message carried over |
| GmailMessages.FetchEmails | heymail/src/gmailApi.ts:14-36 | one record per listed message, same length and order, each built from the fetched message and its extracted body; no listing gives no records |
| Bearer.Split | heyserv/index.js:35 | at least one segment, and no segment contains the separator |
| Bearer.JoinSplit | heyserv/index.js:35 | joining the segments with the separator gives back the header |
| Bearer.SplitJoin | heyserv/index.js:35 | splitting a join of separator-free segments gives back those segments |
| Bearer.SplitHead | heyserv/index.js:35 | the first segment is the text before the first separator; the rest splits what follows it |
| Bearer.TokenOf | heyserv/index.js:35-36 | a token is the second segment of the split on spaces, non-empty and free of spaces |
| Bearer.TokenIsSecondField | heyserv/index.js:35-36 | the token is the non-empty text between the first space and the next space or the end; there is none otherwise |
| Bearer.SchemeIsIgnored | heyserv/index.js:35 | the word before the first space does not affect the token |
| Bearer.NoSecondSegment | heyserv/index.js:35-36 | `"Bearer"` has no token |
| Bearer.EmptySecondSegment | heyserv/index.js:35-36 | `"Bearer  x"` has no token |
| Bearer.SecondSegmentOnly | heyserv/index.js:35 | `"Bearer abc def"` has the token `"abc"` |
| Bearer.Authenticate | heyserv/index.js:32-42 | no token exactly when the header is absent or empty; malformed exactly when present but without a token; otherwise the verdict for that token decides valid (claims) or invalid (message) |
| Bearer.EarlyRejectionIgnoresVerifier | heyserv/index.js:33-36 | a missing or malformed header is decided without the signature check |
| Bearer.OutcomeDependsOnVerdictOnly | heyserv/index.js:38-41 | once a token is extracted, only the verdict on that token matters |
| KeycloakAdmin.FormParams.Append | heyserv/index.js:49-51 | `append` adds one pair at the end and keeps all earlier pairs |
| KeycloakAdmin.AdminTokenForm | heyserv/index.js:48-51 | a fresh parameter list holding exactly the client-credentials form |
| KeycloakAdmin.ClientCredentialsFields | heyserv/index.js:48-51 | exactly the fields client_id, client_secret, grant_type in that order, with the client's credentials and `client_credentials`; any other name is absent |
| KeycloakAdmin.FindGoogleIdentity | heyserv/index.js:66-67 | the first record whose provider is `google`, and nothing exactly when none is |
| KeycloakAdmin.OtherProvidersAreSkipped | heyserv/index.js:66 | records of other providers before the list do not change the selection |
| Heyserv.Rejection | heyserv/index.js:34-39 | every rejection is a 401 error reply: "No token provided", "Malformed token", or "Invalid token" whose details are the checker's error message; only the last carries details |
| Heyserv.Response.Send | heyserv/index.js:34 | the response holds the reply sent |
| Heyserv.ValidateKeycloakToken | heyserv/index.js:32-43 | `next` is taken exactly when the token verifies, with the claims stored on the request and nothing sent; otherwise the matching 401 is sent and the request is unchanged |
| Heyserv.ResolveGoogleIdentity | heyserv/index.js:83-90 | the admin-token request with the grant form comes first; the lookup follows exactly when it succeeds, for the user's subject and the token obtained; the result is the first google record of the listing, or the message of whichever exchange failed |
| Heyserv.EmailHandler | heyserv/index.js:81-95 | 200 with the resolved identity (possibly absent) exactly when both exchanges succeed, otherwise 500 "Failed to fetch Google federated identity" with the error's message |
| Heyserv.SendHandler | heyserv/index.js:100-112 | 200 with the placeholder echoing `to` and `subject` exactly when a google identity is resolved, otherwise 500 "Failed to send email" |
| Heyserv.GetEmail | heyserv/index.js:80-96 | the middleware's calls come first; a rejected request gets its 401 and nothing else; an accepted one gets the `/email` handler's reply |
| Heyserv.SendEmail | heyserv/index.js:99-113 | the same for `/email/send` and its handler |
| Heyserv.ServeGetEmail | heyserv/index.js:80-96 | running the middleware method and then the handler on request and response objects sends the reply of the `/email` pipeline; the request then holds the claims when accepted and is unchanged otherwise |
| Heyserv.ServeSendEmail | heyserv/index.js:99-113 | the same for `/email/send`, with the same new state of the request |
| Heyserv.UnauthorizedIsDecidedFirst | heyserv/index.js:32-43 | both routes answer 401 exactly when the middleware rejects, and then make no admin-token or identity call |
| Heyserv.MissingHeaderCallsNothing | heyserv/index.js:33-34 | no header gives 401 "No token provided" with no call at all |
| Heyserv.InvalidTokenStopsAfterVerify | heyserv/index.js:38-39 | a token the checker rejects gets 401 "Invalid token" with the checker's message, after the signature check and no other call |
| Heyserv.MalformedHeaderCallsNothing | heyserv/index.js:35-36 | a header without a token gives 401 "Malformed token" with no signature check |
| Heyserv.AdminTokenPrecedesLookup | heyserv/index.js:80-96 | in both routes the identity lookup comes after the admin-token request with the grant form, for the user's `sub` claim and the token obtained; the signature check is the first call |
| Heyserv.BackendFailureIsServerError | heyserv/index.js:80-113 | an error from either exchange gives 500 with its message: "Failed to fetch Google federated identity" on `/email`, "Failed to send email" on `/email/send` |
| Heyserv.SendNeedsGoogleIdentity | heyserv/index.js:103-111 | with no google record `/email/send` gives 500 "Failed to send email"; with one it gives the 200 placeholder echoing `to` and `subject` |
| Heyserv.EmailReturnsFirstGoogleIdentity | heyserv/index.js:88-92 | when both exchanges succeed `/email` gives 200 with the first google record, or with the identity absent when there is none |

## Left out

- Base64.DecodeBase64Url: malformed data decodes to "". Node's `Buffer` is lenient instead: it skips invalid characters and keeps the bytes it can salvage. That leniency is not modelled.
- Base64.BytesToText: UTF-8 decoding is modelled as one character per byte. This agrees with `toString("utf-8")` only on ASCII. Multi-byte sequences and replacement characters are not modelled.
- MimeBody.SearchIsFirstInDocumentOrder: stated only for trees whose matching parts all carry well-formed data. Without that hypothesis the code can stop at an empty decoding (see above). `MimeBody.SearchIsSound` is the form that needs no hypothesis.
- MimeBody.HtmlIsPreferred: carries the same well-formedness hypothesis for `text/html` parts.
- MimeBody.PlainIsFallback: carries the same hypothesis for `text/plain` parts.
- `new Date(...)` parsing and the clock are left out. The timestamp is either the `Date` header's text or "the time of the fetch".
- `Promise.all` runs the per-message fetches concurrently. The model runs them one after another, in listing order. When every fetch succeeds, the records and their order are the same.
- GmailMessages.FetchEmails: `fetch` is total, so a failing `messages.get` is not modelled. In the source, one rejected fetch makes `Promise.all` reject the whole call with no records.
- These Gmail API calls are foreign calls and are left out: `messages.list` with `maxResults`, `messages.get` (which becomes a parameter), `getGmailClient`, `markEmailAsRead`, `sendEmail` and `deleteEmail`.
- `jwt.verify`, the JWKS key lookup (`getKey`) and the signature cryptography become one verdict parameter. Claims other than `sub` are not modelled.
- HTTP via `axios` is not modelled: URLs, headers, status handling, and a missing `access_token` or `sub`. Each exchange is a parameter that returns a value or an error message.
- The form's URL encoding is not modelled.
- Process environment values are not modelled. An unset variable becomes the text "undefined" in the source.
- `jwt.decode` and `console.log` of the admin token have no effect on the outcome.
- These Express pieces are left out: routing, CORS, JSON body parsing, `listen` and the `/` route. The `to` and `subject` of the send body are parameters.
- The `/email/summarize` and `/email/draft-reply` endpoints return fixed placeholders and are left out.
- A `response.data` from the identity listing that is not an array is left out.
