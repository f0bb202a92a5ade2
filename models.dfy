/** The stored records (users, auth tokens, restaurants) and the parts of the
    User model that only compute: password checking, the password-length
    validation, the reset-token expiry predicate and the token expiry rule. */
module Models {
  import opened Common

  /** What has_secure_password stores: bcrypt is modelled as an ideal hash of
      the password and a random salt, so a digest reveals which password it
      was made from and two assignments of one password differ by salt. */
  datatype Digest = Digest(password: string, salt: nat)

  /** A row of the users table (its id is the key it is stored under). */
  datatype User = User(
    email: Option<string>,
    role: Option<string>,
    name: Option<string>,
    phoneNumber: Option<string>,
    address: Option<string>,
    city: Option<string>,
    state: Option<string>,
    passwordDigest: Option<Digest>,
    resetPasswordToken: Option<string>,
    resetPasswordTokenExpireAt: Option<int>)

  /** A row of the auth_tokens table (its token string is the key it is
      stored under). `user_id` is a plain nullable column: a row may belong
      to nobody. */
  datatype AuthToken = AuthToken(userId: Option<nat>, createdAt: int)

  /** A row of the restaurants table; rating and average_cost_per_two are
      decimals, modelled as reals. */
  datatype Restaurant = Restaurant(
    name: Option<string>,
    address: Option<string>,
    area: Option<string>,
    city: Option<string>,
    state: Option<string>,
    rating: Option<real>,
    averageDeliveryTime: Option<int>,
    averageCostPerTwo: Option<real>,
    managerId: Option<int>)

  /** The empty record that `User.new` starts from. */
  const NewUser: User := User(None, None, None, None, None, None, None, None, None, None)

  /** The empty record that `Restaurant.new` starts from. */
  const NewRestaurant: Restaurant := Restaurant(None, None, None, None, None, None, None, None, None)

  /** has_secure_password's setter: a non-empty password replaces the
      digest with a freshly salted one; an empty one changes nothing. `None`
      means no password was supplied, so the setter is not called. */
  function AssignPassword(u: User, password: Option<string>, salt: nat): (r: User)
  {
    if password.Some? && password.value != "" then u.(passwordDigest := Some(Digest(password.value, salt)))
    else u
  }

  /** `user.authenticate(password)`: the password matches the stored digest. */
  predicate Authenticate(u: User, password: string)
  {
    u.passwordDigest.Some? && u.passwordDigest.value.password == password
  }

  lemma AuthenticateAfterAssign(u: User, password: string, salt: nat, other: string)
    requires password != ""
    ensures Authenticate(AssignPassword(u, Some(password), salt), other) <==> other == password
  {
  }

  /** `User.where(email: email).any?` and `User.find_by(email: email)`
      finding a row: some stored user has this email (nil matches nil). */
  predicate EmailTaken(email: Option<string>, users: map<nat, User>)
  {
    exists id | id in users :: users[id].email == email
  }

  /** The User model's only validation: a password that is present must be
      at least six characters long. */
  predicate PasswordValid(password: Option<string>)
  {
    Present(password) ==> |password.value| >= 6
  }

  const PasswordTooShort: string := "Validation failed: Password is too short (minimum is 6 characters)"

  lemma PasswordTooShortIsInvalid(password: string)
    requires !AllSpace(password) && |password| < 6
    ensures !PasswordValid(Some(password))
  {
  }

  lemma AbsentPasswordIsValid(password: Option<string>)
    requires !Present(password)
    ensures PasswordValid(password)
  {
  }

  /** `reset_password_token_expired?`: the expiry lies strictly before now.
      The source compares a nil expiry with `<` and raises, so callers must
      ask only about a user with an expiry. */
  predicate ResetPasswordTokenExpired(u: User, now: int)
    requires u.resetPasswordTokenExpireAt.Some?
  {
    u.resetPasswordTokenExpireAt.value < now
  }

  /** The update `generate_reset_password_token` makes: a new token that
      expires one day from now. */
  function WithResetToken(u: User, token: string, now: int): (r: User)
  {
    u.(resetPasswordToken := Some(token), resetPasswordTokenExpireAt := Some(now + Day))
  }

  /** A freshly generated reset token is pending, and is not expired at any
      moment up to and including one day after generation. */
  lemma ResetTokenValidForADay(u: User, token: string, now: int, later: int)
    requires now <= later <= now + Day
    ensures WithResetToken(u, token, now).resetPasswordToken.Some?
    ensures !ResetPasswordTokenExpired(WithResetToken(u, token, now), later)
  {
  }

  /** Strictly more than a day after generation the reset token is expired;
      in particular two or more days later. */
  lemma ResetTokenExpiresAfterADay(u: User, token: string, now: int, later: int)
    requires later > now + Day
    ensures ResetPasswordTokenExpired(WithResetToken(u, token, now), later)
  {
  }

  /** `clear_reset_password_token`: both reset fields become nil. */
  function ClearResetPasswordToken(u: User): (r: User)
    ensures r.resetPasswordToken.None? && r.resetPasswordTokenExpireAt.None?
    ensures r.(resetPasswordToken := u.resetPasswordToken,
               resetPasswordTokenExpireAt := u.resetPasswordTokenExpireAt) == u
  {
    u.(resetPasswordToken := None, resetPasswordTokenExpireAt := None)
  }

  /** AuthToken's expiry, whose definition is not part of this model: it is
      taken to hold once more than a day has passed since creation. Only
      "not expired when created" and "expired two days later" are fixed by
      the behaviour it must have. */
  predicate TokenExpired(t: AuthToken, now: int)
  {
    now - t.createdAt > Day
  }

  lemma TokenNotExpiredAtCreation(userId: nat, now: int)
    ensures !TokenExpired(AuthToken(Some(userId), now), now)
  {
  }

  lemma TokenExpiredTwoDaysLater(t: AuthToken, later: int)
    requires later >= t.createdAt + 2 * Day
    ensures TokenExpired(t, later)
  {
  }

  /** `auth_tokens.delete_all` for one user, as the association does it: a
      has_many without a `dependent:` option nullifies the foreign key, so
      every row of the user stays in the table, owned by nobody. */
  function NullifyOwner(tokens: map<string, AuthToken>, userId: nat): (r: map<string, AuthToken>)
    ensures r.Keys == tokens.Keys
    ensures forall k | k in r :: r[k].userId != Some(userId) && r[k].createdAt == tokens[k].createdAt
    ensures forall k | k in r && tokens[k].userId != Some(userId) :: r[k] == tokens[k]
    ensures forall k | k in r && tokens[k].userId == Some(userId) :: r[k].userId.None?
  {
    map k | k in tokens :: if tokens[k].userId == Some(userId) then tokens[k].(userId := None) else tokens[k]
  }

  /** The deletion the hook is evidently meant to perform: the token table
      without the user's rows. */
  function TokensWithout(tokens: map<string, AuthToken>, userId: nat): (r: map<string, AuthToken>)
    ensures forall k :: k in r <==> k in tokens && tokens[k].userId != Some(userId)
    ensures forall k | k in r :: r[k] == tokens[k]
  {
    map k | k in tokens && tokens[k].userId != Some(userId) :: tokens[k]
  }

  /** The after_update hook's condition: the saved update changed the reset
      token, and to a non-nil value. */
  predicate ResetEmailDue(before: User, after: User)
  {
    after.resetPasswordToken != before.resetPasswordToken && after.resetPasswordToken.Some?
  }

  /** The record an update of `stored` to `next` saves, after the
      before_update hooks: when the digest changed the reset token is
      cleared. */
  function UpdatedUser(stored: User, next: User): (r: User)
    ensures next.passwordDigest != stored.passwordDigest ==>
              r.resetPasswordToken.None? && r.resetPasswordTokenExpireAt.None?
    ensures next.passwordDigest == stored.passwordDigest ==> r == next
    ensures r.(resetPasswordToken := next.resetPasswordToken,
               resetPasswordTokenExpireAt := next.resetPasswordTokenExpireAt) == next
  {
    if next.passwordDigest != stored.passwordDigest then ClearResetPasswordToken(next) else next
  }

  /** An update that changes the password digest never sends a reset email,
      since the hook has already cleared the token. */
  lemma PasswordChangeSendsNoResetEmail(stored: User, next: User)
    requires next.passwordDigest != stored.passwordDigest
    ensures !ResetEmailDue(stored, UpdatedUser(stored, next))
  {
  }

  /** Generating a reset token never changes the digest, so the update keeps
      the new token and sends the email exactly when the token is new. */
  lemma ResetTokenUpdateKeepsToken(stored: User, token: string, now: int)
    ensures UpdatedUser(stored, WithResetToken(stored, token, now)) == WithResetToken(stored, token, now)
    ensures ResetEmailDue(stored, WithResetToken(stored, token, now)) <==> stored.resetPasswordToken != Some(token)
  {
  }
}
