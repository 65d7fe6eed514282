/**
 * The claims a bearer token carries, and the request guard that extracts
 * them: take the first "Authorization" header, strip the "Bearer" prefix,
 * trim the rest and decode it. Decoding (`control::decode_token`) is an
 * oracle here; `SecurityControl` supplies it.
 */
module SecurityClaims {
  import opened Wrappers
  import opened Text
  import opened Http

  const Pow64: int := 0x1_0000_0000_0000_0000

  /** Rust's `usize` on a 64-bit target. */
  type usize = x: int | 0 <= x < Pow64

  datatype Claims = Claims(sub: string, userName: string, iat: usize, exp: usize)

  datatype Outcome = Success(claims: Claims) | Failure(status: Status)

  const BearerPrefix: string := "Bearer"

  /** The token of an Authorization header value: after "Bearer", trimmed. */
  function BearerToken(header: string): (r: Option<string>)
    ensures r.Some? <==> |header| >= |BearerPrefix| && header[..|BearerPrefix|] == BearerPrefix
    ensures r.Some? ==> NoEdgeWhitespace(r.value)
  {
    match StripPrefix(header, BearerPrefix)
    case None => None
    case Some(rest) => Some(Trim(rest))
  }

  /**
   * `Claims::from_request`. `authorization` lists the values of the request's
   * Authorization headers in order; only the first one is consulted. The
   * guard succeeds exactly when that header holds a bearer token that
   * decodes, and then carries the decoded claims; every refusal is 401.
   */
  function FromRequest(authorization: seq<string>, decodeToken: string -> Option<Claims>): (o: Outcome)
    ensures o.Failure? ==> o.status == Unauthorized
    ensures o.Success? <==> authorization != [] && BearerToken(authorization[0]).Some?
                            && decodeToken(BearerToken(authorization[0]).value).Some?
    ensures o.Success? ==> o.claims == decodeToken(BearerToken(authorization[0]).value).value
  {
    if authorization == [] then Failure(Unauthorized)
    else match BearerToken(authorization[0])
      case None => Failure(Unauthorized)
      case Some(token) =>
        match decodeToken(token)
        case Some(claims) => Success(claims)
        case None => Failure(Unauthorized)
  }

  /** Without a bearer token the decoder is never consulted: any decoder gives the same refusal. */
  lemma NoBearerNoDecode(authorization: seq<string>, d1: string -> Option<Claims>, d2: string -> Option<Claims>)
    requires authorization == [] || !(|authorization[0]| >= |BearerPrefix| && authorization[0][..|BearerPrefix|] == BearerPrefix)
    ensures FromRequest(authorization, d1) == FromRequest(authorization, d2) == Failure(Unauthorized)
  {
  }

  /** Headers after the first Authorization value have no effect. */
  lemma OnlyFirstHeaderCounts(first: string, rest1: seq<string>, rest2: seq<string>, decodeToken: string -> Option<Claims>)
    ensures FromRequest([first] + rest1, decodeToken) == FromRequest([first] + rest2, decodeToken)
  {
  }

  /**
   * The token is what follows "Bearer" with the surrounding whitespace
   * removed; no separating space is needed.
   */
  lemma BearerTokenOfPadded(a: string, token: string, b: string)
    requires AllWhitespace(a) && AllWhitespace(b) && NoEdgeWhitespace(token)
    ensures BearerToken(BearerPrefix + a + token + b) == Some(token)
  {
    var rest := a + token + b;
    assert BearerPrefix + a + token + b == BearerPrefix + rest;
    StripPrefixOfConcat(BearerPrefix, rest);
    assert BearerToken(BearerPrefix + rest) == Some(Trim(rest));
    TrimPadded(a, token, b);
  }

  lemma PrefixedPadding(header: string, t: string)
    requires |header| >= |BearerPrefix| && header[..|BearerPrefix|] == BearerPrefix
    requires exists a, b :: AllWhitespace(a) && AllWhitespace(b) && header[|BearerPrefix|..] == a + t + b
    ensures exists a, b :: AllWhitespace(a) && AllWhitespace(b) && header == BearerPrefix + a + t + b
  {
    var rest := header[|BearerPrefix|..];
    assert header == BearerPrefix + rest;
    var a, b :| AllWhitespace(a) && AllWhitespace(b) && rest == a + t + b;
    assert header == BearerPrefix + a + t + b;
  }

  /** Conversely, every token found is what remains of the header after "Bearer" and some whitespace on either side. */
  lemma BearerTokenIsTrimmedRest(header: string)
    requires BearerToken(header).Some?
    ensures exists a, b :: AllWhitespace(a) && AllWhitespace(b)
                        && header == BearerPrefix + a + BearerToken(header).value + b
  {
    var t := BearerToken(header).value;
    TrimDecomposes(header[|BearerPrefix|..]);
    PrefixedPadding(header, t);
  }

  /** The usual header form, "Bearer " and the token, gives the token. */
  lemma BearerTokenOfSpaced(token: string)
    requires NoEdgeWhitespace(token)
    ensures BearerToken("Bearer " + token) == Some(token)
  {
    assert IsWhitespace(' ');
    assert AllWhitespace(" ") && AllWhitespace([]);
    BearerTokenOfPadded(" ", token, []);
    assert BearerPrefix + " " == "Bearer ";
    assert BearerPrefix + " " + token + [] == "Bearer " + token;
  }
}
