/**
 * Recovery of one display body from a Gmail message's MIME part tree:
 * `extractEmailBody` and its inner `findPart` in heymail/src/gmailApi.ts.
 */
module MimeBody {
  import opened Wrappers
  import Base64

  /**
   * A node of the part tree. A part whose `parts` array is present, even when
   * it is empty, is a Multipart; a part without one is a Leaf. `data` is the
   * part's `body.data`, base64url text, absent when there is no body or data.
   */
  datatype Part =
    | Leaf(mimeType: string, data: Option<string>)
    | Multipart(mimeType: string, data: Option<string>, parts: seq<Part>)

  const Html := "text/html"
  const Plain := "text/plain"

  /** The body returned when neither search finds usable text. */
  const Unparseable := "Could not parse email body."

  /** `part.body && part.body.data`: the part carries non-empty inline data. */
  predicate HasData(p: Part)
  {
    p.data.Some? && p.data.value != ""
  }

  /** The condition of `findPart`'s first `if`. */
  predicate Matches(p: Part, mimeType: string)
  {
    p.mimeType == mimeType && HasData(p)
  }

  /** The text of a part's inline data. */
  function Content(p: Part): string
    requires HasData(p)
  {
    Base64.DecodeText(p.data.value)
  }

  /** JavaScript truthiness of a `string | null`: present and non-empty. */
  predicate Found(r: Option<string>)
  {
    r.Some? && r.value != ""
  }

  /**
   * What `findPart(parts, mimeType)` returns: None for `null`. A matching part
   * returns its decoding even when that is empty; a nested result is taken
   * only when it is a non-empty string.
   */
  function Search(parts: seq<Part>, mimeType: string): Option<string>
    decreases parts
  {
    if parts == [] then None
    else
      var p := parts[0];
      if Matches(p, mimeType) then Some(Content(p))
      else
        var nested := if p.Multipart? then (assert p in parts; Search(p.parts, mimeType)) else None;
        if Found(nested) then nested else Search(parts[1..], mimeType)
  }

  /** What `extractEmailBody(payload)` returns. */
  function Body(payload: Option<Part>): string
  {
    match payload
    case None => ""
    case Some(p) =>
      if p.Leaf? then
        (if HasData(p) then Content(p) else "")
      else
        var html := Search(p.parts, Html);
        if Found(html) then html.value
        else
          var plain := Search(p.parts, Plain);
          if Found(plain) then plain.value else Unparseable
  }

  /** `findPart`: a loop over the parts with early returns, recursing into nested parts. */
  method FindPart(parts: seq<Part>, mimeType: string) returns (r: Option<string>)
    ensures r == Search(parts, mimeType)
    decreases parts
  {
    for i := 0 to |parts|
      invariant Search(parts[i..], mimeType) == Search(parts, mimeType)
    {
      var part := parts[i];
      assert parts[i..][0] == part && parts[i..][1..] == parts[i + 1..];
      if part.mimeType == mimeType && part.data.Some? && part.data.value != "" {
        var text := Base64.DecodeBase64Url(part.data.value);
        return Some(text);
      }
      if part.Multipart? {
        assert part in parts;
        var nested := FindPart(part.parts, mimeType);
        if nested.Some? && nested.value != "" {
          return nested;
        }
      }
    }
    return None;
  }

  /** `extractEmailBody`. */
  method ExtractEmailBody(payload: Option<Part>) returns (body: string)
    ensures body == Body(payload)
    ensures payload.None? ==> body == ""
    ensures payload.Some? && payload.value.Leaf? ==>
              body == (if HasData(payload.value) then Base64.DecodeText(payload.value.data.value) else "")
    ensures payload.Some? && payload.value.Multipart? ==> body != ""
    ensures payload.Some? && payload.value.Multipart? &&
            !Found(Search(payload.value.parts, Html)) && !Found(Search(payload.value.parts, Plain)) ==>
              body == Unparseable
  {
    if payload.None? {
      return "";
    }
    var p := payload.value;
    if p.Leaf? {
      if p.data.Some? && p.data.value != "" {
        body := Base64.DecodeBase64Url(p.data.value);
        return;
      }
      return "";
    }
    var html := FindPart(p.parts, Html);
    if html.Some? && html.value != "" {
      return html.value;
    }
    var text := FindPart(p.parts, Plain);
    if text.Some? && text.value != "" {
      return text.value;
    }
    return Unparseable;
  }

  // ---------------------------------------------------------------------------
  // Document order.

  /** Every part of the forest in document order: a part, then its subtree, then its later siblings. */
  function Flatten(parts: seq<Part>): (r: seq<Part>)
    ensures forall q :: q in parts ==> q in r
    decreases parts
  {
    if parts == [] then []
    else
      var p := parts[0];
      [p] + (if p.Multipart? then (assert p in parts; Flatten(p.parts)) else []) + Flatten(parts[1..])
  }

  /** The first part of a sequence that matches the type: the independent reference for the search. */
  function FirstMatch(flat: seq<Part>, mimeType: string): (r: Option<Part>)
    ensures r.None? <==> forall k :: 0 <= k < |flat| ==> !Matches(flat[k], mimeType)
    ensures r.Some? ==> exists k :: 0 <= k < |flat| && flat[k] == r.value && Matches(r.value, mimeType) &&
                                    forall j :: 0 <= j < k ==> !Matches(flat[j], mimeType)
  {
    if flat == [] then None
    else if Matches(flat[0], mimeType) then Some(flat[0])
    else
      var r := FirstMatch(flat[1..], mimeType);
      assert forall k :: 1 <= k < |flat| ==> flat[k] == flat[1..][k - 1];
      r
  }

  lemma {:induction false} FirstMatchAppend(a: seq<Part>, b: seq<Part>, mimeType: string)
    ensures FirstMatch(a + b, mimeType) ==
            if FirstMatch(a, mimeType).Some? then FirstMatch(a, mimeType) else FirstMatch(b, mimeType)
  {
    if a != [] {
      assert (a + b)[0] == a[0] && (a + b)[1..] == a[1..] + b;
      FirstMatchAppend(a[1..], b, mimeType);
    } else {
      assert a + b == b;
    }
  }

  /** The content found for a type is the text of the matching part's data. */
  function Decoded(r: Option<Part>): Option<string>
    requires r.Some? ==> HasData(r.value)
  {
    match r
    case None => None
    case Some(q) => Some(Content(q))
  }

  /** Every part of the tree that matches the type carries well-formed base64url data. */
  predicate WellFormedFor(parts: seq<Part>, mimeType: string)
  {
    forall q :: q in Flatten(parts) && Matches(q, mimeType) ==> Base64.DecodeUrl(q.data.value).Some?
  }

  /**
   * When every matching part's data is well-formed, the search is a pre-order,
   * left-to-right walk: it yields the content of the first matching part in
   * document order, and nothing when no part matches.
   */
  lemma {:induction false} SearchIsFirstInDocumentOrder(parts: seq<Part>, mimeType: string)
    requires WellFormedFor(parts, mimeType)
    ensures Search(parts, mimeType) == Decoded(FirstMatch(Flatten(parts), mimeType))
    ensures Search(parts, mimeType).Some? ==> Found(Search(parts, mimeType))
    decreases parts
  {
    if parts != [] {
      var p := parts[0];
      var inner := if p.Multipart? then Flatten(p.parts) else [];
      var later := Flatten(parts[1..]);
      assert Flatten(parts) == [p] + (inner + later);
      if Matches(p, mimeType) {
        assert p in Flatten(parts);
        Base64.WellFormedDecodesNonEmpty(p.data.value);
      } else {
        FirstMatchAppend([p], inner + later, mimeType);
        FirstMatchAppend(inner, later, mimeType);
        if p.Multipart? {
          assert p in parts;
          assert forall q :: q in p.parts ==> q in Flatten(p.parts);
          SearchIsFirstInDocumentOrder(p.parts, mimeType);
        }
        SearchIsFirstInDocumentOrder(parts[1..], mimeType);
      }
    }
  }

  /** Without any assumption on the data, whatever the search returns is the content of some matching part. */
  lemma {:induction false} SearchIsSound(parts: seq<Part>, mimeType: string)
    ensures Search(parts, mimeType).Some? ==>
              exists q :: q in Flatten(parts) && Matches(q, mimeType) && Search(parts, mimeType) == Some(Content(q))
    ensures FirstMatch(Flatten(parts), mimeType).None? ==> Search(parts, mimeType).None?
    decreases parts
  {
    if parts != [] {
      var p := parts[0];
      var inner := if p.Multipart? then Flatten(p.parts) else [];
      var later := Flatten(parts[1..]);
      assert Flatten(parts) == [p] + (inner + later);
      assert p in Flatten(parts);
      FirstMatchAppend([p], inner + later, mimeType);
      FirstMatchAppend(inner, later, mimeType);
      if p.Multipart? {
        assert p in parts;
        SearchIsSound(p.parts, mimeType);
      }
      SearchIsSound(parts[1..], mimeType);
    }
  }

  /**
   * A `text/html` part with well-formed data anywhere in the tree wins: the body
   * is the first such part in document order, however deep it sits and
   * whatever `text/plain` parts come before it.
   */
  lemma HtmlIsPreferred(mimeType: string, data: Option<string>, parts: seq<Part>, html: Part)
    requires WellFormedFor(parts, Html)
    requires FirstMatch(Flatten(parts), Html) == Some(html)
    ensures Body(Some(Multipart(mimeType, data, parts))) == Content(html)
  {
    SearchIsFirstInDocumentOrder(parts, Html);
  }

  /** With no usable `text/html` part, the first well-formed `text/plain` part in document order is the body. */
  lemma PlainIsFallback(mimeType: string, data: Option<string>, parts: seq<Part>, plain: Part)
    requires FirstMatch(Flatten(parts), Html).None?
    requires WellFormedFor(parts, Plain)
    requires FirstMatch(Flatten(parts), Plain) == Some(plain)
    ensures Body(Some(Multipart(mimeType, data, parts))) == Content(plain)
  {
    SearchIsSound(parts, Html);
    SearchIsFirstInDocumentOrder(parts, Plain);
  }

  /** A multipart payload without any text part carrying data gets the fixed sentinel, never the empty text. */
  lemma NoTextPartGivesSentinel(mimeType: string, data: Option<string>, parts: seq<Part>)
    requires FirstMatch(Flatten(parts), Html).None? && FirstMatch(Flatten(parts), Plain).None?
    ensures Body(Some(Multipart(mimeType, data, parts))) == Unparseable
  {
    SearchIsSound(parts, Html);
    SearchIsSound(parts, Plain);
  }

  /**
   * Why the preference lemmas assume well-formed data: a matching part whose
   * data decodes to nothing ("A" pads to "A===", which carries no byte) ends
   * the search of its sibling list, so a later `text/html` sibling with real
   * content ("QUI" is "AB") is never reached.
   */
  lemma EmptyDecodingHidesLaterSibling()
    ensures var parts := [Leaf(Html, Some("A")), Leaf(Html, Some("QUI"))];
            FirstMatch(Flatten(parts), Html) == Some(parts[0]) &&
            Content(parts[1]) == "AB" &&
            Body(Some(Multipart("multipart/alternative", None, parts))) == Unparseable
  {
    var parts := [Leaf(Html, Some("A")), Leaf(Html, Some("QUI"))];
    assert Base64.Padded(Base64.UrlToStandard("A")) == "A===";
    assert Content(parts[0]) == "";
    Base64.DecodeExample();
    assert parts[1..] == [parts[1]] && parts[1..][1..] == [];
    assert Flatten(parts[1..]) == [parts[1]];
    assert Flatten(parts) == parts;
    assert Search(parts, Html) == Some("");
    assert Search(parts[1..], Plain) == None;
    assert Search(parts, Plain) == None;
  }
}
