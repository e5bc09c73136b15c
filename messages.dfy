/**
 * The per-message record built by `fetchEmails` in heymail/src/gmailApi.ts:
 * header lookups with defaults, the read flag from the labels, the body from
 * the MIME tree, and the order of the listing.
 */
module GmailMessages {
  import opened Wrappers
  import MimeBody

  datatype Header = Header(name: string, value: Option<string>)

  /** A message's top-level part with its headers. */
  datatype Payload = Payload(headers: Option<seq<Header>>, root: MimeBody.Part)

  /** An entry of the message listing. */
  datatype MessageRef = MessageRef(id: string, threadId: string)

  /** A message as `messages.get` returns it in the `full` format. */
  datatype FullMessage = FullMessage(labelIds: Option<seq<string>>, payload: Option<Payload>)

  /** `date ? new Date(date) : new Date()`: the Date header's text, or the time of the fetch. */
  datatype Timestamp = DateHeader(text: string) | FetchTime

  datatype Email = Email(
    id: string, threadId: string, subject: string, sender: string, body: string,
    timestamp: Timestamp, read: bool, raw: FullMessage)

  const NoSubject := "No Subject"
  const UnknownSender := "Unknown Sender"

  /** The header at index i is the first one with that name. */
  predicate FirstNamed(headers: seq<Header>, i: nat, name: string)
    requires i < |headers|
  {
    headers[i].name == name && forall j :: 0 <= j < i ==> headers[j].name != name
  }

  /** `headers.find((h) => h.name === name)`. */
  function FindHeader(headers: seq<Header>, name: string): (r: Option<Header>)
    ensures r.None? <==> forall i :: 0 <= i < |headers| ==> headers[i].name != name
    ensures r.Some? ==> exists i :: 0 <= i < |headers| && FirstNamed(headers, i, name) && headers[i] == r.value
  {
    if headers == [] then None
    else if headers[0].name == name then Some(headers[0])
    else
      var r := FindHeader(headers[1..], name);
      assert forall i :: 1 <= i < |headers| ==> headers[i] == headers[1..][i - 1];
      r
  }

  /**
   * `headers.find((h) => h.name === name)?.value || fallback`: the value of the
   * first header with that name when it is a non-empty string, else the fallback.
   * A later header of the same name is never consulted.
   */
  function HeaderOr(headers: seq<Header>, name: string, fallback: string): (r: string)
    ensures forall i :: 0 <= i < |headers| && FirstNamed(headers, i, name) ==>
              r == (if headers[i].value.Some? && headers[i].value.value != "" then headers[i].value.value else fallback)
    ensures (forall i :: 0 <= i < |headers| ==> headers[i].name != name) ==> r == fallback
  {
    match FindHeader(headers, name)
    case None => fallback
    case Some(h) => if h.value.Some? && h.value.value != "" then h.value.value else fallback
  }

  /** `payload?.headers || []`. */
  function HeadersOf(msg: FullMessage): seq<Header>
  {
    if msg.payload.Some? && msg.payload.value.headers.Some? then msg.payload.value.headers.value else []
  }

  /** `msgRes.data.labelIds || []`. */
  function LabelsOf(msg: FullMessage): seq<string>
  {
    if msg.labelIds.Some? then msg.labelIds.value else []
  }

  /** The part handed to `extractEmailBody`. */
  function RootOf(msg: FullMessage): Option<MimeBody.Part>
  {
    if msg.payload.Some? then Some(msg.payload.value.root) else None
  }

  /** `date ? new Date(date) : new Date()`, with `date` the first `Date` header's value. */
  function TimestampOf(headers: seq<Header>): (t: Timestamp)
    ensures t.DateHeader? ==> t.text != ""
    ensures (forall i :: 0 <= i < |headers| ==> headers[i].name != "Date") ==> t == FetchTime
  {
    var date := HeaderOr(headers, "Date", "");
    if date != "" then DateHeader(date) else FetchTime
  }

  /**
   * The timestamp is taken from the first `Date` header when its value is a
   * non-empty string, and is the time of the fetch otherwise.
   */
  lemma TimestampIsFirstDate(headers: seq<Header>)
    ensures TimestampOf(headers).DateHeader? <==>
              exists i :: 0 <= i < |headers| && FirstNamed(headers, i, "Date") &&
                          headers[i].value.Some? && headers[i].value.value != ""
    ensures forall i :: 0 <= i < |headers| && FirstNamed(headers, i, "Date") && TimestampOf(headers).DateHeader? ==>
              headers[i].value == Some(TimestampOf(headers).text)
  {
    var d := FindHeader(headers, "Date");
    if d.Some? {
      var i :| 0 <= i < |headers| && FirstNamed(headers, i, "Date") && headers[i] == d.value;
      assert forall j :: 0 <= j < |headers| && FirstNamed(headers, j, "Date") ==> j == i;
    }
  }

  /** The record of one listed message, given the body extracted from its payload. */
  function ToEmail(ref: MessageRef, msg: FullMessage, body: string): (e: Email)
    ensures e.id == ref.id && e.threadId == ref.threadId && e.body == body && e.raw == msg
    ensures e.subject == HeaderOr(HeadersOf(msg), "Subject", NoSubject)
    ensures e.sender == HeaderOr(HeadersOf(msg), "From", UnknownSender)
    ensures e.timestamp == TimestampOf(HeadersOf(msg))
    ensures e.read <==> forall k :: 0 <= k < |LabelsOf(msg)| ==> LabelsOf(msg)[k] != "UNREAD"
  {
    var headers := HeadersOf(msg);
    Email(
      ref.id, ref.threadId,
      HeaderOr(headers, "Subject", NoSubject),
      HeaderOr(headers, "From", UnknownSender),
      body,
      TimestampOf(headers),
      !("UNREAD" in LabelsOf(msg)),
      msg)
  }

  /** The record `fetchEmails` builds for a listed message. */
  function EmailOf(ref: MessageRef, fetch: MessageRef -> FullMessage): Email
  {
    ToEmail(ref, fetch(ref), MimeBody.Body(RootOf(fetch(ref))))
  }

  /** `listRes.data.messages || []`. */
  function Listed(listing: Option<seq<MessageRef>>): seq<MessageRef>
  {
    if listing.Some? then listing.value else []
  }

  /**
   * `fetchEmails`, with the concurrent per-message fetches taken one after the
   * other: one record per listed message, in the order of the listing.
   * `fetch` stands for `messages.get` with the `full` format.
   */
  method FetchEmails(listing: Option<seq<MessageRef>>, fetch: MessageRef -> FullMessage) returns (emails: seq<Email>)
    ensures |emails| == |Listed(listing)|
    ensures forall i :: 0 <= i < |emails| ==>
              emails[i] == EmailOf(Listed(listing)[i], fetch)
  {
    var refs := Listed(listing);
    emails := [];
    for i := 0 to |refs|
      invariant |emails| == i
      invariant forall k :: 0 <= k < i ==> emails[k] == EmailOf(refs[k], fetch)
    {
      var msg := fetch(refs[i]);
      var body := MimeBody.ExtractEmailBody(RootOf(msg));
      emails := emails + [ToEmail(refs[i], msg, body)];
    }
  }
}
