/** The User model's operations that change the store: deleting a user's
    auth tokens, saving an update of a stored user through its
    before_update and after_update hooks, and generating a reset token. */
module UserModel {
  import opened Common
  import opened Models
  import opened Store

  /** `clear_auth_tokens`: empty the user's `auth_tokens` association. The
      rows are nullified, not deleted, so their token strings stay stored. */
  method ClearAuthTokens(db: Database, id: nat)
    requires db.Valid()
    modifies db
    ensures db.Valid()
    ensures db.tokens == NullifyOwner(old(db.tokens), id)
    ensures db.users == old(db.users) && db.restaurants == old(db.restaurants)
    ensures db.nextUserId == old(db.nextUserId) && db.nextRestaurantId == old(db.nextRestaurantId)
    ensures db.resetEmails == old(db.resetEmails)
  {
    db.tokens := NullifyOwner(db.tokens, id);
  }

  /** `save!` of the stored user `id` with new attributes `next` (whose
      digest the password setter may already have replaced) and the plain
      `password` that was assigned, if any. Validation runs first; then, when
      the digest changed, the user's tokens are disowned and the reset token
      cleared; after the update a reset email is logged when the reset token
      changed to a non-nil value. */
  method Update(db: Database, id: nat, next: User, password: Option<string>) returns (r: Outcome)
    requires db.Valid() && id in db.users
    modifies db
    ensures db.Valid()
    ensures r == if PasswordValid(password) then Saved else Raised(PasswordTooShort)
    ensures !PasswordValid(password) ==>
              db.users == old(db.users) && db.tokens == old(db.tokens) && db.resetEmails == old(db.resetEmails)
    ensures PasswordValid(password) ==>
              && db.users == old(db.users)[id := UpdatedUser(old(db.users[id]), next)]
              && db.tokens == (if next.passwordDigest != old(db.users[id]).passwordDigest
                               then NullifyOwner(old(db.tokens), id) else old(db.tokens))
              && db.resetEmails == old(db.resetEmails)
                                   + (if ResetEmailDue(old(db.users[id]), db.users[id]) then [id] else [])
    ensures db.restaurants == old(db.restaurants)
    ensures db.nextUserId == old(db.nextUserId) && db.nextRestaurantId == old(db.nextRestaurantId)
  {
    if !PasswordValid(password) {
      return Raised(PasswordTooShort);
    }
    var stored := db.users[id];
    var record := next;
    if next.passwordDigest != stored.passwordDigest {
      ClearAuthTokens(db, id);
      record := ClearResetPasswordToken(record);
    }
    db.users := db.users[id := record];
    if ResetEmailDue(stored, record) {
      db.resetEmails := db.resetEmails + [id];
    }
    r := Saved;
  }

  /** `generate_reset_password_token`: store a new reset token (the random
      string is supplied by the caller) expiring one day from `now`. The
      digest does not change, so the user's auth tokens survive; the email
      goes out when the token differs from the one stored before. */
  method GenerateResetPasswordToken(db: Database, id: nat, token: string, now: int)
    requires db.Valid() && id in db.users
    modifies db
    ensures db.Valid()
    ensures db.users == old(db.users)[id := WithResetToken(old(db.users[id]), token, now)]
    ensures db.tokens == old(db.tokens)
    ensures db.resetEmails == old(db.resetEmails)
                              + (if old(db.users[id]).resetPasswordToken != Some(token) then [id] else [])
    ensures db.restaurants == old(db.restaurants)
    ensures db.nextUserId == old(db.nextUserId) && db.nextRestaurantId == old(db.nextRestaurantId)
  {
    var stored := db.users[id];
    ResetTokenUpdateKeepsToken(stored, token, now);
    var r := Update(db, id, WithResetToken(stored, token, now), None);
  }

  /** After an update that changed the password digest the user owns no
      auth token and has no pending reset token; every token string is still
      stored, and every other user's tokens are untouched. */
  lemma PasswordChangeDisownsTokens(tokens: map<string, AuthToken>, stored: User, next: User, id: nat)
    requires next.passwordDigest != stored.passwordDigest
    ensures forall k | k in NullifyOwner(tokens, id) :: NullifyOwner(tokens, id)[k].userId != Some(id)
    ensures NullifyOwner(tokens, id).Keys == tokens.Keys
    ensures forall k | k in tokens && tokens[k].userId != Some(id) :: NullifyOwner(tokens, id)[k] == tokens[k]
    ensures UpdatedUser(stored, next).resetPasswordToken.None?
    ensures UpdatedUser(stored, next).resetPasswordTokenExpireAt.None?
  {
  }
}
