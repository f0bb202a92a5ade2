/** The request gate every controller inherits: two before_actions that look
    up the `Authorization` header in the token table and delete an expired
    token. A render inside a before_action halts the chain, so each step
    either passes on or ends the request with its response. */
module ApplicationController {
  import opened Common
  import opened Models
  import opened Store

  /** How the gate ends: the resolved token (`@auth_token`) and its owner
      (nil for a row nobody owns), or the response that halted the request. */
  datatype GateResult = Pass(token: string, userId: Option<nat>) | Halt(response: Response)

  const InvalidToken: Response := ErrorResponse(StatusUnauthorized, "Invalid token")
  const TokenExpiredResponse: Response := ErrorResponse(StatusUnauthorized, "Token expired")

  /** The verdict of the gate on a token table, a header and the clock. */
  function GateVerdict(tokens: map<string, AuthToken>, header: Option<string>, now: int): GateResult
  {
    if header.None? || header.value !in tokens then Halt(InvalidToken)
    else if TokenExpired(tokens[header.value], now) then Halt(TokenExpiredResponse)
    else Pass(header.value, tokens[header.value].userId)
  }

  /** The token table after the gate: an expired presented token is gone. */
  function AfterGate(tokens: map<string, AuthToken>, header: Option<string>, now: int): map<string, AuthToken>
  {
    if header.Some? && header.value in tokens && TokenExpired(tokens[header.value], now)
    then tokens - {header.value}
    else tokens
  }

  /** `authenticate_token`: find the token whose string equals the header;
      render "Invalid token" when there is none. */
  method AuthenticateToken(db: Database, header: Option<string>) returns (authToken: Option<string>, halt: Option<Response>)
    ensures authToken.Some? <==> header.Some? && header.value in db.tokens
    ensures authToken.Some? ==> authToken == header && halt.None?
    ensures authToken.None? ==> halt == Some(InvalidToken)
  {
    if header.Some? && header.value in db.tokens {
      authToken, halt := header, None;
    } else {
      authToken, halt := None, Some(InvalidToken);
    }
  }

  /** `delete_expired_token`: an expired `@auth_token` is deleted and the
      request ends with "Token expired". */
  method DeleteExpiredToken(db: Database, authToken: string, now: int) returns (halt: Option<Response>)
    requires db.Valid() && authToken in db.tokens
    modifies db
    ensures db.Valid()
    ensures TokenExpired(old(db.tokens[authToken]), now) ==>
              halt == Some(TokenExpiredResponse) && db.tokens == old(db.tokens) - {authToken}
    ensures !TokenExpired(old(db.tokens[authToken]), now) ==> halt.None? && db.tokens == old(db.tokens)
    ensures db.users == old(db.users) && db.restaurants == old(db.restaurants)
    ensures db.nextUserId == old(db.nextUserId) && db.nextRestaurantId == old(db.nextRestaurantId)
    ensures db.resetEmails == old(db.resetEmails)
  {
    halt := None;
    if TokenExpired(db.tokens[authToken], now) {
      db.tokens := db.tokens - {authToken};
      halt := Some(TokenExpiredResponse);
    }
  }

  /** The before_action chain: the second step runs only when the first did
      not render. */
  method RunGate(db: Database, header: Option<string>, now: int) returns (g: GateResult)
    requires db.Valid()
    modifies db
    ensures db.Valid()
    ensures g == GateVerdict(old(db.tokens), header, now)
    ensures db.tokens == AfterGate(old(db.tokens), header, now)
    ensures db.users == old(db.users) && db.restaurants == old(db.restaurants)
    ensures db.nextUserId == old(db.nextUserId) && db.nextRestaurantId == old(db.nextRestaurantId)
    ensures db.resetEmails == old(db.resetEmails)
  {
    var authToken, halt := AuthenticateToken(db, header);
    if halt.Some? {
      return Halt(halt.value);
    }
    var userId := db.tokens[authToken.value].userId;
    halt := DeleteExpiredToken(db, authToken.value, now);
    if halt.Some? {
      return Halt(halt.value);
    }
    g := Pass(authToken.value, userId);
  }

  /** A missing header, or one that matches no stored token, is rejected
      with "Invalid token" and the table is left alone. */
  lemma UnknownTokenRejected(tokens: map<string, AuthToken>, header: Option<string>, now: int)
    requires header.None? || header.value !in tokens
    ensures GateVerdict(tokens, header, now) == Halt(InvalidToken)
    ensures AfterGate(tokens, header, now) == tokens
  {
  }

  /** An expired token is rejected with "Token expired" and removed. */
  lemma ExpiredTokenRemoved(tokens: map<string, AuthToken>, token: string, now: int)
    requires token in tokens && TokenExpired(tokens[token], now)
    ensures GateVerdict(tokens, Some(token), now) == Halt(TokenExpiredResponse)
    ensures token !in AfterGate(tokens, Some(token), now)
  {
  }

  /** A stored, unexpired token passes, resolves to the row whose string is
      the header, and changes nothing. */
  lemma LiveTokenPasses(tokens: map<string, AuthToken>, token: string, now: int)
    requires token in tokens && !TokenExpired(tokens[token], now)
    ensures GateVerdict(tokens, Some(token), now) == Pass(token, tokens[token].userId)
    ensures AfterGate(tokens, Some(token), now) == tokens
  {
  }

  /** The gate deletes at most the presented token: every other token,
      including the same user's, survives unchanged. */
  lemma GateDeletesOnlyPresented(tokens: map<string, AuthToken>, header: Option<string>, now: int)
    ensures AfterGate(tokens, header, now).Keys <= tokens.Keys
    ensures forall k | k in tokens && header != Some(k) ::
              k in AfterGate(tokens, header, now) && AfterGate(tokens, header, now)[k] == tokens[k]
  {
  }

  /** Re-sending a token just rejected as expired gets "Invalid token", and
      the second attempt changes nothing further. */
  lemma ExpiredRetryIsInvalid(tokens: map<string, AuthToken>, token: string, now: int, later: int)
    requires token in tokens && TokenExpired(tokens[token], now)
    ensures GateVerdict(AfterGate(tokens, Some(token), now), Some(token), later) == Halt(InvalidToken)
    ensures AfterGate(AfterGate(tokens, Some(token), now), Some(token), later) == AfterGate(tokens, Some(token), now)
  {
    var after := AfterGate(tokens, Some(token), now);
    assert token !in after;
    UnknownTokenRejected(after, Some(token), later);
  }

  /** Every rejection is a 401, whether the token is missing, unknown or
      expired. */
  lemma RejectionsAreUnauthorized(tokens: map<string, AuthToken>, header: Option<string>, now: int)
    ensures GateVerdict(tokens, header, now).Halt? ==>
              GateVerdict(tokens, header, now).response.status == StatusUnauthorized
  {
  }
}
