/**
 * The bearer-token gate that runs in front of the protected routes
 * (`authMiddleware`). It answers 401 when the Authorization header is missing,
 * does not start with `"Bearer "` or carries no token, 403 when the token does
 * not verify, and otherwise passes the request on with the decoded claims.
 * Signature and expiry checking is a parameter `verify`: a partial function
 * from token text to claims (`None` for a bad signature or an expired token).
 */
module AuthGate {
  import opened Base
  import opened Text

  /** The payload of a token as the server signs it: `{userId, username}`. */
  datatype Claims = Claims(userId: Option<nat>, username: string)

  /** What the gate does with a request: answer it, or call `next`. */
  datatype GateOutcome =
    | Reject(status: Status, message: string)
    | Next(userId: Option<nat>, user: Claims)

  const BearerPrefix: string := "Bearer "
  const MsgBadHeader: string := "缺少認證或格式錯誤的 Authorization header"
  const MsgNoToken: string := "缺少認證 Token"
  const MsgBadToken: string := "無效或過期的 Token"

  /** `header.split(" ")[1]`, missing when the header holds no space. */
  function BearerToken(header: string): Option<string> {
    var parts := Split(header, ' ');
    if |parts| >= 2 then Some(parts[1]) else None
  }

  /** The header is present and starts with `"Bearer "`, case and space included. */
  predicate WellFormedHeader(header: Option<string>) {
    Truthy(header) && StartsWith(header.value, BearerPrefix)
  }

  /**
   * For a header starting with `"Bearer "`, the token is the text after the
   * prefix up to the next space (or the end): it holds no space, and what
   * follows it is either nothing or a space.
   */
  lemma TokenIsTextUpToNextSpace(header: string)
    requires StartsWith(header, BearerPrefix)
    ensures BearerToken(header).Some?
    ensures var tok := BearerToken(header).value;
      && 7 + |tok| <= |header|
      && header[7..7 + |tok|] == tok
      && ' ' !in tok
      && (7 + |tok| == |header| || header[7 + |tok|] == ' ')
  {
    var t := header[7..];
    assert header == "Bearer" + [' '] + t;
    SplitAfterSeparatorFree("Bearer", ' ', t);
    SplitHeadIsPrefix(t, ' ');
  }

  /** The gate's decision for one request. */
  function Authenticate(header: Option<string>, verify: string -> Option<Claims>): (o: GateOutcome)
    ensures !WellFormedHeader(header) ==> o == Reject(Unauthorized401, MsgBadHeader)
    ensures WellFormedHeader(header) ==>
      var tok := BearerToken(header.value);
      && (!Truthy(tok) ==> o == Reject(Unauthorized401, MsgNoToken))
      && (Truthy(tok) && verify(tok.value).None? ==> o == Reject(Forbidden403, MsgBadToken))
      && (Truthy(tok) && verify(tok.value).Some? ==>
            o == Next(verify(tok.value).value.userId, verify(tok.value).value))
    ensures o.Reject? ==> o.status == Unauthorized401 || o.status == Forbidden403
    ensures o.Next? <==> exists t :: verify(t).Some? && BearerToken(header.GetOr("")) == Some(t) && t != "" && WellFormedHeader(header)
  {
    if !WellFormedHeader(header) then Reject(Unauthorized401, MsgBadHeader)
    else
      var tok := BearerToken(header.value);
      if !Truthy(tok) then Reject(Unauthorized401, MsgNoToken)
      else match verify(tok.value)
        case None => Reject(Forbidden403, MsgBadToken)
        case Some(decoded) => Next(decoded.userId, decoded)
  }

  /** `"Bearer "` with nothing after it carries an empty token: 401. */
  lemma EmptyTokenRejected(verify: string -> Option<Claims>)
    ensures Authenticate(Some("Bearer "), verify) == Reject(Unauthorized401, MsgNoToken)
  {
    TokenIsTextUpToNextSpace("Bearer ");
  }

  /** A doubled space puts an empty piece at index 1: 401 even though a token follows. */
  lemma DoubleSpaceRejected(tok: string, verify: string -> Option<Claims>)
    ensures Authenticate(Some("Bearer  " + tok), verify) == Reject(Unauthorized401, MsgNoToken)
  {
    var h := "Bearer  " + tok;
    assert h == "Bearer" + [' '] + ([' '] + tok);
    assert [' '] + tok == "" + [' '] + tok;
    SplitAfterSeparatorFree("Bearer", ' ', [' '] + tok);
    SplitAfterSeparatorFree("", ' ', tok);
    assert BearerToken(h) == Some("");
    assert StartsWith(h, BearerPrefix);
  }

  /** Text after a further space is ignored: only the first word is verified. */
  lemma TrailingTextIgnored(tok: string, rest: string, verify: string -> Option<Claims>)
    requires tok != "" && ' ' !in tok
    ensures BearerToken("Bearer " + tok + " " + rest) == Some(tok)
    ensures Authenticate(Some("Bearer " + tok + " " + rest), verify) ==
            Authenticate(Some("Bearer " + tok), verify)
  {
    var h1 := "Bearer " + tok + " " + rest;
    var h2 := "Bearer " + tok;
    assert h1 == "Bearer" + [' '] + (tok + [' '] + rest);
    assert h2 == "Bearer" + [' '] + tok;
    SplitAfterSeparatorFree("Bearer", ' ', tok + [' '] + rest);
    SplitAfterSeparatorFree(tok, ' ', rest);
    SplitAfterSeparatorFree("Bearer", ' ', tok);
    TokenIsTextUpToNextSpace(h2);
    assert StartsWith(h1, BearerPrefix) && StartsWith(h2, BearerPrefix);
  }

  /** The prefix test is case-sensitive: a lower-case scheme is refused. */
  lemma LowerCaseSchemeRejected(tok: string, verify: string -> Option<Claims>)
    ensures Authenticate(Some("bearer " + tok), verify) == Reject(Unauthorized401, MsgBadHeader)
  {
    assert ("bearer " + tok)[0] == 'b';
  }
}
