/**
 * The header parsing and outcome mapping of `validateKeycloakToken`
 * (heyserv/index.js): the `Authorization` header is split on single spaces,
 * its second segment is the token, and a signature check decides the rest.
 * The signature check (`jwt.verify` with the realm's keys) is a parameter.
 */
module Bearer {
  import opened Wrappers

  /** JavaScript's `String.prototype.split` with a one-character separator. */
  function Split(s: string, sep: char): (r: seq<string>)
    ensures |r| >= 1
    ensures forall i :: 0 <= i < |r| ==> sep !in r[i]
  {
    if s == [] then [""]
    else
      var rest := Split(s[1..], sep);
      if s[0] == sep then [""] + rest
      else [[s[0]] + rest[0]] + rest[1..]
  }

  /** `parts.join(sep)`: the inverse of Split. */
  function Join(parts: seq<string>, sep: char): string
    requires |parts| >= 1
    decreases |parts|
  {
    if |parts| == 1 then parts[0] else parts[0] + [sep] + Join(parts[1..], sep)
  }

  /** Joining the segments gives back the string that was split. */
  lemma {:induction false} JoinSplit(s: string, sep: char)
    ensures Join(Split(s, sep), sep) == s
  {
    if s != [] {
      JoinSplit(s[1..], sep);
      var rest := Split(s[1..], sep);
      var r := Split(s, sep);
      if s[0] == sep {
        assert r[1..] == rest;
      } else if |rest| > 1 {
        assert r[1..] == rest[1..];
        assert Join(rest, sep) == rest[0] + [sep] + Join(rest[1..], sep);
        assert s == [s[0]] + s[1..];
      }
    }
  }

  /** A separator-free prefix is glued onto the first segment of what follows it. */
  lemma {:induction false} SplitPrefix(x: string, tail: string, sep: char)
    requires sep !in x
    ensures Split(x + tail, sep) == [x + Split(tail, sep)[0]] + Split(tail, sep)[1..]
  {
    if x != [] {
      SplitPrefix(x[1..], tail, sep);
      assert x[0] in x;
      assert (x + tail)[0] == x[0] != sep;
      assert (x + tail)[1..] == x[1..] + tail;
      assert [x[0]] + (x[1..] + Split(tail, sep)[0]) == x + Split(tail, sep)[0];
    } else {
      assert x + tail == tail;
      assert x + Split(tail, sep)[0] == Split(tail, sep)[0];
      assert Split(tail, sep) == [Split(tail, sep)[0]] + Split(tail, sep)[1..];
    }
  }

  /** Splitting the join of separator-free segments gives back those segments. */
  lemma {:induction false} SplitJoin(parts: seq<string>, sep: char)
    requires |parts| >= 1
    requires forall i :: 0 <= i < |parts| ==> sep !in parts[i]
    ensures Split(Join(parts, sep), sep) == parts
    decreases |parts|
  {
    if |parts| == 1 {
      SplitPrefix(parts[0], [], sep);
      assert parts[0] + [] == parts[0];
    } else {
      var tail := Join(parts[1..], sep);
      SplitJoin(parts[1..], sep);
      SplitPrefix(parts[0], [sep] + tail, sep);
      assert parts[0] + [sep] + tail == parts[0] + ([sep] + tail);
      assert ([sep] + tail)[1..] == tail;
      assert ([sep] + tail)[0] == sep;
      assert Split([sep] + tail, sep) == [""] + Split(tail, sep);
      assert parts[0] + "" == parts[0];
      assert parts == [parts[0]] + parts[1..];
    }
  }

  /** The index of the first `c` in `s`, or `|s|` when there is none (`indexOf`). */
  function FirstIndex(s: string, c: char): (k: nat)
    ensures k <= |s|
    ensures forall j :: 0 <= j < k ==> s[j] != c
    ensures k < |s| ==> s[k] == c
  {
    if s == [] then 0
    else if s[0] == c then 0
    else 1 + FirstIndex(s[1..], c)
  }

  /** The first segment is everything before the first separator; the others split what follows it. */
  lemma {:induction false} SplitHead(s: string, sep: char)
    ensures Split(s, sep)[0] == s[..FirstIndex(s, sep)]
    ensures FirstIndex(s, sep) < |s| ==> Split(s, sep)[1..] == Split(s[FirstIndex(s, sep) + 1..], sep)
    ensures FirstIndex(s, sep) == |s| ==> Split(s, sep) == [s]
  {
    if s != [] && s[0] != sep {
      SplitHead(s[1..], sep);
      if FirstIndex(s[1..], sep) < |s[1..]| {
        assert s[1..][FirstIndex(s[1..], sep) + 1..] == s[FirstIndex(s, sep) + 1..];
      }
      assert [s[0]] + s[1..][..FirstIndex(s[1..], sep)] == s[..FirstIndex(s, sep)];
      assert [s[0]] + s[1..] == s;
    }
  }

  /** `authHeader.split(" ")[1]`, kept only when it is a non-empty string. */
  function TokenOf(header: string): (r: Option<string>)
    ensures r.Some? ==> r.value != "" && ' ' !in r.value
    ensures r.Some? ==> |Split(header, ' ')| >= 2 && Split(header, ' ')[1] == r.value
  {
    var segments := Split(header, ' ');
    if |segments| >= 2 && segments[1] != "" then Some(segments[1]) else None
  }

  /**
   * The token is the text between the header's first space and the next space
   * (or the end); there is none when the header has no space or when the first
   * space is followed directly by another space or by the end.
   */
  lemma TokenIsSecondField(header: string)
    ensures var k := FirstIndex(header, ' ');
            TokenOf(header) == (if k == |header| then None
                                else var after := header[k + 1..];
                                     if FirstIndex(after, ' ') > 0 then Some(after[..FirstIndex(after, ' ')]) else None)
    ensures var k := FirstIndex(header, ' ');
            k < |header| ==> TokenOf(header).None? || ' ' !in TokenOf(header).value
  {
    var k := FirstIndex(header, ' ');
    SplitHead(header, ' ');
    if k < |header| {
      var after := header[k + 1..];
      SplitHead(after, ' ');
      assert Split(header, ' ')[1] == Split(after, ' ')[0];
    }
  }

  /** The scheme word before the first space is never looked at: `Basic x` yields the token `x` as `Bearer x` does. */
  lemma SchemeIsIgnored(scheme: string, other: string, rest: string)
    requires ' ' !in scheme && ' ' !in other
    ensures TokenOf(scheme + " " + rest) == TokenOf(other + " " + rest)
  {
    SplitPrefix(scheme, " " + rest, ' ');
    SplitPrefix(other, " " + rest, ' ');
    assert scheme + " " + rest == scheme + (" " + rest);
    assert other + " " + rest == other + (" " + rest);
  }

  /** `Bearer` alone has no second segment. */
  lemma NoSecondSegment()
    ensures TokenOf("Bearer").None?
  {
    TokenIsSecondField("Bearer");
    assert FirstIndex("Bearer", ' ') == 6;
  }

  /** In `Bearer  x` the second segment is the empty string between the two spaces. */
  lemma EmptySecondSegment()
    ensures TokenOf("Bearer  x").None?
  {
    var parts := ["Bearer", "", "x"];
    assert Join(parts, ' ') == "Bearer  x";
    SplitJoin(parts, ' ');
  }

  /** Text after a third segment is dropped: `Bearer abc def` yields `abc`. */
  lemma SecondSegmentOnly()
    ensures TokenOf("Bearer abc def") == Some("abc")
  {
    var parts := ["Bearer", "abc", "def"];
    assert Join(parts, ' ') == "Bearer abc def";
    SplitJoin(parts, ' ');
  }

  /** The decoded access-token payload; only the subject is used downstream. */
  datatype Claims = Claims(sub: string)

  /** What the signature check reports for a token: the decoded payload, or an error message. */
  datatype Verdict = Valid(claims: Claims) | Rejected(message: string)

  /** The four outcomes of the middleware. */
  datatype AuthOutcome = NoToken | MalformedToken | InvalidToken(details: string) | Authenticated(claims: Claims)

  /** `!authHeader`: an absent header and an empty one are both falsy. */
  predicate HeaderMissing(authorization: Option<string>)
  {
    authorization.None? || authorization.value == ""
  }

  /** The token handed to the signature check, when the middleware gets that far. */
  function TokenToVerify(authorization: Option<string>): Option<string>
  {
    if HeaderMissing(authorization) then None else TokenOf(authorization.value)
  }

  /** The decision of `validateKeycloakToken`, with `verify` standing for `jwt.verify`. */
  function Authenticate(authorization: Option<string>, verify: string -> Verdict): (r: AuthOutcome)
    ensures r.NoToken? <==> HeaderMissing(authorization)
    ensures r.MalformedToken? <==> !HeaderMissing(authorization) && TokenToVerify(authorization).None?
    ensures TokenToVerify(authorization).Some? <==> r.InvalidToken? || r.Authenticated?
    ensures r.Authenticated? ==> verify(TokenToVerify(authorization).value) == Valid(r.claims)
    ensures r.InvalidToken? ==> verify(TokenToVerify(authorization).value) == Rejected(r.details)
  {
    if HeaderMissing(authorization) then NoToken
    else match TokenOf(authorization.value)
      case None => MalformedToken
      case Some(token) =>
        match verify(token)
        case Valid(claims) => Authenticated(claims)
        case Rejected(message) => InvalidToken(message)
  }

  /** A missing or malformed header is decided without the signature check: any checker gives the same outcome. */
  lemma EarlyRejectionIgnoresVerifier(authorization: Option<string>, verify: string -> Verdict, other: string -> Verdict)
    requires TokenToVerify(authorization).None?
    ensures Authenticate(authorization, verify) == Authenticate(authorization, other)
    ensures Authenticate(authorization, verify).NoToken? || Authenticate(authorization, verify).MalformedToken?
  {
  }

  /** Once a token is extracted, the outcome depends only on the verdict for that one token. */
  lemma OutcomeDependsOnVerdictOnly(authorization: Option<string>, verify: string -> Verdict, other: string -> Verdict)
    requires TokenToVerify(authorization).Some?
    requires verify(TokenToVerify(authorization).value) == other(TokenToVerify(authorization).value)
    ensures Authenticate(authorization, verify) == Authenticate(authorization, other)
  {
  }
}
