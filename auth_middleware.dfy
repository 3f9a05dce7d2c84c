/** The bearer-token check in front of the protected routes. The request's
    `Authorization` header and the configured token (`API_BEARER_TOKEN`
    from the environment) are parameters; None stands for a header or an
    environment variable that is not set. */
module AuthMiddleware {
  import opened Wrappers
  import opened JsStrings

  /** How the middleware ends: a reply, or a call of `next()`. */
  datatype Decision = MissingHeader | MalformedHeader | WrongToken | Pass

  /** The status of the reply sent, None when `next()` is called instead. */
  function ReplyStatus(d: Decision): Option<nat> {
    match d
    case MissingHeader => Some(401)
    case MalformedHeader => Some(401)
    case WrongToken => Some(403)
    case Pass => None
  }

  const BearerScheme: string := "Bearer"

  /** `const [scheme, token] = authHeader.split(" ")`: the first piece, and
      the second piece or "" (a missing token is as falsy as an empty one). */
  function SchemeAndToken(h: string): (st: (string, string)) {
    var parts := Split(h, ' ');
    (parts[0], if |parts| > 1 then parts[1] else "")
  }

  /** `authMiddleware`: a missing or empty header, then a scheme other than
      exactly "Bearer" or no token, then a token other than the configured
      one, are each rejected before `next()` is reached. */
  function Authorize(header: Option<string>, configured: Option<string>): (d: Decision)
    ensures d == MissingHeader <==> header.None? || header.value == ""
    ensures d == MalformedHeader <==>
              header.Some? && header.value != ""
              && (SchemeAndToken(header.value).0 != BearerScheme || SchemeAndToken(header.value).1 == "")
    ensures d == WrongToken ==> configured != Some(SchemeAndToken(header.value).1)
    ensures d == Pass ==> configured == Some(SchemeAndToken(header.value).1) && configured.value != ""
  {
    match header
    case None => MissingHeader
    case Some(h) =>
      if h == "" then MissingHeader
      else
        var (scheme, token) := SchemeAndToken(h);
        if scheme != BearerScheme || token == "" then MalformedHeader
        else if configured != Some(token) then WrongToken
        else Pass
  }

  /** `h` is "Bearer", one space, then `token`, then nothing or text starting
      with a space. */
  ghost predicate IsBearerHeader(h: string, token: string) {
    exists rest :: h == BearerScheme + " " + token + rest && (rest == "" || rest[0] == ' ')
  }

  /** `next()` is called exactly when the header is "Bearer", one space and
      the configured token, optionally followed by a space and anything; the
      configured token must be set, non-empty and free of spaces. */
  lemma PassIff(header: Option<string>, configured: Option<string>)
    ensures Authorize(header, configured) == Pass <==>
              && header.Some? && configured.Some?
              && configured.value != "" && ' ' !in configured.value
              && IsBearerHeader(header.value, configured.value)
  {
    if header.Some? && configured.Some? && configured.value != "" && ' ' !in configured.value
       && IsBearerHeader(header.value, configured.value) {
      var tok := configured.value;
      var rest :| header.value == BearerScheme + " " + tok + rest && (rest == "" || rest[0] == ' ');
      BearerHeaderParts(tok, rest);
    }
    if Authorize(header, configured) == Pass {
      var h, tok := header.value, configured.value;
      var rest := BearerHeaderOfParts(h);
      assert h == BearerScheme + " " + tok + rest;
    }
  }

  /** A header built as "Bearer", a space, a token without spaces and an
      optional space-led remainder splits into that scheme and token. */
  lemma BearerHeaderParts(tok: string, rest: string)
    requires tok != "" && ' ' !in tok && (rest == "" || rest[0] == ' ')
    ensures SchemeAndToken(BearerScheme + " " + tok + rest) == (BearerScheme, tok)
  {
    assert ' ' !in BearerScheme;
    SplitOfFirstTwo(BearerScheme, ' ', tok, rest);
  }

  /** A header that splits into "Bearer" and a non-empty token is "Bearer",
      a space, that token and a remainder that is empty or starts with a
      space. */
  lemma BearerHeaderOfParts(h: string) returns (rest: string)
    requires SchemeAndToken(h).0 == BearerScheme && SchemeAndToken(h).1 != ""
    ensures h == BearerScheme + " " + SchemeAndToken(h).1 + rest && (rest == "" || rest[0] == ' ')
  {
    rest := SplitFirstTwo(h, ' ');
  }

  /** Only the first two pieces count: appending a space and anything to a
      header changes nothing about the decision. */
  lemma ExtraPiecesIgnored(tok: string, extra: string, configured: Option<string>)
    requires tok != "" && ' ' !in tok
    ensures Authorize(Some(BearerScheme + " " + tok + " " + extra), configured)
            == Authorize(Some(BearerScheme + " " + tok), configured)
  {
    BearerHeaderParts(tok, " " + extra);
    assert BearerScheme + " " + tok + " " + extra == BearerScheme + " " + tok + (" " + extra);
    BearerHeaderParts(tok, "");
    assert BearerScheme + " " + tok + "" == BearerScheme + " " + tok;
  }

  /** Two spaces after the scheme leave an empty second piece, so the header
      is malformed whatever follows. */
  lemma DoubleSpaceIsMalformed(tok: string, configured: Option<string>)
    ensures Authorize(Some(BearerScheme + " " + (" " + tok)), configured) == MalformedHeader
  {
    assert ' ' !in BearerScheme;
    assert BearerScheme + " " + "" == BearerScheme + " ";
    SplitOfFirstTwo(BearerScheme, ' ', "", " " + tok);
  }

  /** The scheme is compared exactly: "bearer" in lower case is malformed. */
  lemma SchemeIsCaseSensitive(tok: string, configured: Option<string>)
    ensures Authorize(Some("bearer " + tok), configured) == MalformedHeader
  {
    assert "bearer " + tok == "bearer" + [' '] + tok;
    SplitAroundSeparator("bearer", ' ', tok);
  }

  /** With no configured token every well-formed header is refused with 403
      (a non-empty token never equals an unset variable). */
  lemma UnsetTokenRefusesAll(header: Option<string>)
    ensures Authorize(header, None) != Pass
  {
  }
}
