/** `SessionsController`: login, logout and forgot_password. Login and
    forgot_password skip the request gate (so they take no header); they run
    `exists` (find the user by email), and login then checks the password
    and issues a token. Logout runs only the gate and destroys the token it
    resolved. */
module SessionsController {
  import opened Common
  import opened Models
  import opened Store
  import opened UserPresenter
  import opened ApplicationController
  import UserModel

  const UserNotFound: Response := ErrorResponse(StatusNotFound, "User not found")
  const InvalidCredentials: Response := ErrorResponse(StatusUnauthorized, "Invalid credentials")

  /** `exists`: `@user` is some stored user with the given email (nil
      matches nil); with none the request ends with "User not found". */
  method Exists(db: Database, email: Option<string>) returns (user: Option<nat>, halt: Option<Response>)
    ensures user.Some? <==> EmailTaken(email, db.users)
    ensures user.Some? ==> user.value in db.users && db.users[user.value].email == email && halt.None?
    ensures user.None? ==> halt == Some(UserNotFound)
  {
    if id :| id in db.users && db.users[id].email == email {
      user, halt := Some(id), None;
    } else {
      user, halt := None, Some(UserNotFound);
    }
  }

  /** `authenticate_user`: "Invalid credentials" unless the password
      matches. */
  method AuthenticateUser(db: Database, user: nat, password: string) returns (halt: Option<Response>)
    requires user in db.users
    ensures halt.None? <==> Authenticate(db.users[user], password)
    ensures halt.Some? ==> halt == Some(InvalidCredentials)
  {
    halt := if Authenticate(db.users[user], password) then None else Some(InvalidCredentials);
  }

  /** `generate_auth_token`: insert a token row for the user, created now;
      its random string is supplied by the caller and not yet in use. */
  method GenerateAuthToken(db: Database, user: nat, token: string, now: int)
    requires db.Valid() && user in db.users && token !in db.tokens
    modifies db
    ensures db.Valid()
    ensures db.tokens == old(db.tokens)[token := AuthToken(Some(user), now)]
    ensures db.users == old(db.users) && db.restaurants == old(db.restaurants)
    ensures db.nextUserId == old(db.nextUserId) && db.nextRestaurantId == old(db.nextRestaurantId)
    ensures db.resetEmails == old(db.resetEmails)
  {
    db.tokens := db.tokens[token := AuthToken(Some(user), now)];
  }

  /** The JSON of a successful login. */
  function LoginBody(id: nat, u: User, token: string): Body
  {
    UserBody(Show(id, u, Some(token), ShowOptions(true, false)))
  }

  /** The JSON of a successful forgot_password. */
  function ForgotPasswordBody(id: nat, u: User): Body
  {
    UserBody(Show(id, u, None, ShowOptions(false, true)))
  }

  /** `login`: `exists`, `authenticate_user`, `generate_auth_token`, then the
      user with the new token. Only a successful login changes the store,
      and then by exactly one new token; no token is ever deleted. */
  method Login(db: Database, email: Option<string>, password: string, freshToken: string, now: int)
    returns (resp: Response, user: Option<nat>)
    requires db.Valid() && freshToken !in db.tokens
    modifies db
    ensures db.Valid()
    ensures user.Some? <==> EmailTaken(email, old(db.users))
    ensures user.Some? ==> user.value in db.users && db.users[user.value].email == email
    ensures user.None? ==> resp == UserNotFound && db.tokens == old(db.tokens)
    ensures user.Some? && !Authenticate(db.users[user.value], password) ==>
              resp == InvalidCredentials && db.tokens == old(db.tokens)
    ensures user.Some? && Authenticate(db.users[user.value], password) ==>
              && resp == Response(StatusOk, LoginBody(user.value, db.users[user.value], freshToken))
              && db.tokens == old(db.tokens)[freshToken := AuthToken(Some(user.value), now)]
    ensures old(db.tokens).Keys <= db.tokens.Keys
    ensures db.users == old(db.users) && db.restaurants == old(db.restaurants)
    ensures db.nextUserId == old(db.nextUserId) && db.nextRestaurantId == old(db.nextRestaurantId)
    ensures db.resetEmails == old(db.resetEmails)
  {
    var halt;
    user, halt := Exists(db, email);
    if halt.Some? {
      return halt.value, user;
    }
    halt := AuthenticateUser(db, user.value, password);
    if halt.Some? {
      return halt.value, user;
    }
    GenerateAuthToken(db, user.value, freshToken, now);
    resp := Response(StatusOk, LoginBody(user.value, db.users[user.value], freshToken));
  }

  /** `logout`: after the gate, destroy the resolved token and render `{}`. */
  method Logout(db: Database, header: Option<string>, now: int) returns (resp: Response)
    requires db.Valid()
    modifies db
    ensures db.Valid()
    ensures GateVerdict(old(db.tokens), header, now).Halt? ==>
              && resp == GateVerdict(old(db.tokens), header, now).response
              && db.tokens == AfterGate(old(db.tokens), header, now)
    ensures GateVerdict(old(db.tokens), header, now).Pass? ==>
              resp == Response(StatusOk, EmptyBody) && db.tokens == old(db.tokens) - {header.value}
    ensures db.users == old(db.users) && db.restaurants == old(db.restaurants)
    ensures db.nextUserId == old(db.nextUserId) && db.nextRestaurantId == old(db.nextRestaurantId)
    ensures db.resetEmails == old(db.resetEmails)
  {
    var g := RunGate(db, header, now);
    if g.Halt? {
      return g.response;
    }
    db.tokens := db.tokens - {g.token};
    resp := Response(StatusOk, EmptyBody);
  }

  /** `forgot_password`: `exists`, then a new reset token expiring one day
      from now, and the user with its reset fields. Auth tokens are never
      touched; the reset email is logged when the token is new. */
  method ForgotPassword(db: Database, email: Option<string>, resetToken: string, now: int)
    returns (resp: Response, user: Option<nat>)
    requires db.Valid()
    modifies db
    ensures db.Valid()
    ensures user.Some? <==> EmailTaken(email, old(db.users))
    ensures user.None? ==> resp == UserNotFound && db.users == old(db.users)
                           && db.resetEmails == old(db.resetEmails)
    ensures user.Some? ==>
              && user.value in old(db.users) && old(db.users)[user.value].email == email
              && db.users == old(db.users)[user.value := WithResetToken(old(db.users)[user.value], resetToken, now)]
              && resp == Response(StatusOk, ForgotPasswordBody(user.value, db.users[user.value]))
              && db.resetEmails == old(db.resetEmails)
                 + (if old(db.users)[user.value].resetPasswordToken != Some(resetToken) then [user.value] else [])
    ensures db.tokens == old(db.tokens)
    ensures db.restaurants == old(db.restaurants)
    ensures db.nextUserId == old(db.nextUserId) && db.nextRestaurantId == old(db.nextRestaurantId)
  {
    var halt;
    user, halt := Exists(db, email);
    if halt.Some? {
      return halt.value, user;
    }
    UserModel.GenerateResetPasswordToken(db, user.value, resetToken, now);
    resp := Response(StatusOk, ForgotPasswordBody(user.value, db.users[user.value]));
  }

  /** A token issued by login resolves to the user who logged in and passes
      the gate at once; that it keeps passing for the whole next day rests on
      the day-long expiry taken for AuthToken. */
  lemma IssuedTokenPasses(tokens: map<string, AuthToken>, token: string, user: nat, now: int, later: int)
    requires now <= later <= now + Day
    ensures GateVerdict(tokens[token := AuthToken(Some(user), now)], Some(token), later) == Pass(token, Some(user))
  {
  }

  /** Two logins of one user with distinct strings give two tokens that both
      pass independently. */
  lemma TwoLoginsBothValid(tokens: map<string, AuthToken>, a: string, b: string, user: nat, now: int)
    requires a != b
    ensures GateVerdict(tokens[a := AuthToken(Some(user), now)][b := AuthToken(Some(user), now)], Some(a), now)
            == Pass(a, Some(user))
    ensures GateVerdict(tokens[a := AuthToken(Some(user), now)][b := AuthToken(Some(user), now)], Some(b), now)
            == Pass(b, Some(user))
  {
  }

  /** After logout the token is gone: presenting it again is "Invalid token". */
  lemma LoggedOutTokenInvalid(tokens: map<string, AuthToken>, token: string, later: int)
    ensures GateVerdict(tokens - {token}, Some(token), later) == Halt(InvalidToken)
  {
  }

  /** As written, a password change does not log the user out: the hook
      only nullifies the owner of the user's tokens, so a live token of the
      user still passes the gate, now resolving to no user. */
  lemma NullifiedTokenStillPasses(tokens: map<string, AuthToken>, user: nat, token: string, now: int)
    requires token in tokens && tokens[token].userId == Some(user) && !TokenExpired(tokens[token], now)
    ensures GateVerdict(NullifyOwner(tokens, user), Some(token), now) == Pass(token, None)
  {
  }

  /** With the deletion the hook is meant to perform, every token the user
      held is rejected after a password change, and every other user's
      tokens behave as before. */
  lemma PasswordChangeInvalidatesTokens(tokens: map<string, AuthToken>, user: nat, token: string, now: int)
    requires token in tokens
    ensures tokens[token].userId == Some(user) ==>
              GateVerdict(TokensWithout(tokens, user), Some(token), now) == Halt(InvalidToken)
    ensures tokens[token].userId != Some(user) ==>
              GateVerdict(TokensWithout(tokens, user), Some(token), now) == GateVerdict(tokens, Some(token), now)
  {
  }
}
