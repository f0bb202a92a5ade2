# Food-delivery API: the authentication gate, sessions, forms and restaurants

This project is a Dafny model of the request-handling core of a Rails JSON API for a
food-delivery service. It holds one abstract store, the `Database` class, with three tables:

- users, keyed by id
- auth tokens, keyed by their unique token string
- restaurants, keyed by id

It also holds a ghost log of the users a reset-password email was sent to. Time is an
integer clock in seconds.

Every request is a module-level method that takes the store and returns a
`Response(status, body)`; `Login` and `ForgotPassword` also return the user they found.
A `before_action` that renders halts the request, so it is modelled as an early return.

The modelled parts:

- **Request gate** (`ApplicationController`). The `Authorization` header is looked up in the
  token table. An unknown or missing token gets 401 "Invalid token". An expired token is
  deleted and gets 401 "Token expired". Anything else passes with the resolved token.
- **Sessions** (`SessionsController`). `login` and `forgot_password` skip the gate; they find
  the user by email (404 "User not found"). `login` then checks the password (401 "Invalid
  credentials") and issues a new token. `forgot_password` stores a reset token that expires
  one day later. `logout` destroys the token the gate resolved.
- **User lifecycle** (`Models`, `UserModel`). This covers the password-length validation and
  reset-token generation and expiry. It also covers the update hooks: a changed password
  digest empties the user's `auth_tokens` association and clears the reset token. A reset
  token changed to a non-nil value logs a reset email. The association has no `dependent:`
  option, so emptying it sets the rows' `user_id` to nil and leaves the rows in the table
  (see "## Findings").
- **Role tables** (`UserAttributes`).
- **Forms** (`UserForm`, `RestaurantForm`). A form merges the supplied fields onto a new or
  stored record. Its validations produce messages in declaration order, and `persist`
  raises the first message or saves.
- **User JSON** (`UserPresenter`). The keys that `_show` emits depend on two option flags.
- **Restaurants** (`RestaurantsController`). `index` lists every restaurant. `show` and
  `update` give 404 "restaurant is not available" for an unknown id. `create` and `update`
  give 422 with the raised message, or 200 with the saved record.

Each state-changing method states its whole new state: the tables, the id counters and the
email log. The pure functions beside the methods carry the lemmas:

- `GateVerdict` and `AfterGate`: the gate's verdict and the token table it leaves.
- `Errors`: a form's messages.
- `PersistOutcome`: what `persist` ends in.
- `NullifyOwner`: the token table after a user's association is emptied.
- `TokensWithout`: the token table with the user's rows deleted, the evident intent.
- `UpdatedUser`: the record an update saves after its hooks.
- `Show`: the rendered user.

Two behaviours of the code are worth knowing:

- The email-uniqueness check also matches the record being updated. So a form that keeps a
  stored user's email is always rejected (`UserForm.KeptEmailIsTaken`).
- A password change does not end the user's sessions: the user's tokens lose their owner
  but still pass the gate (`SessionsController.NullifiedTokenStillPasses`).

## Model

| member | source | states |
|---|---|---|
| Common.AllSpace | app/forms/user_form.rb:10 | a string is blank exactly when every character is whitespace (the test behind `presence`) |
| Models.AssignPassword | app/models/user.rb:4 | (function) has_secure_password's setter: a non-empty password replaces the digest with one made from it and a fresh salt; an empty one changes nothing; `None` means no password was supplied, so the setter is not called |
| Models.PasswordValid | app/models/user.rb:7 | (predicate) a present password has at least six characters |
| Models.WithResetToken | app/models/user.rb:13 | (function) the attributes `update!` assigns: the new reset token and an expiry one day from now |
| Models.AuthenticateAfterAssign | app/models/user.rb:4 | after assigning a non-empty password, `authenticate` accepts exactly that password |
| Models.PasswordTooShortIsInvalid | app/models/user.rb:7 | a present password shorter than 6 characters fails the validation |
| Models.AbsentPasswordIsValid | app/models/user.rb:7 | the length rule applies only when a password is present |
| Models.ResetTokenValidForADay | app/models/user.rb:12-18 | a generated reset token is non-nil and is not expired at any time up to one day after generation |
| Models.ResetTokenExpiresAfterADay | app/models/user.rb:13-18 | strictly later than one day after generation, the reset token is expired (the comparison is strict) |
| Models.ClearResetPasswordToken | app/models/user.rb:24-27 | both reset fields become nil and every other field is unchanged |
| Models.TokenNotExpiredAtCreation | spec/models/auth_token_spec.rb:32-35 | a token is not expired at the moment it is created |
| Models.TokenExpiredTwoDaysLater | spec/models/auth_token_spec.rb:26-31 | a token is expired two or more days after creation |
| Models.Authenticate | app/models/user.rb:4 | (predicate) the password matches the stored digest |
| Models.ResetPasswordTokenExpired | app/models/user.rb:16-18 | (predicate) the stored expiry lies strictly before now |
| Models.ResetEmailDue | app/models/user.rb:10 | (predicate) the saved update changed the reset token, and to a non-nil value |
| Models.NullifyOwner | app/models/user.rb:6-22 | emptying the association keeps every token string, none stays owned by the user, the user's rows become ownerless with their creation time kept, and other rows are unchanged |
| Models.TokensWithout | app/models/user.rb:20-22 | the intended deletion keeps exactly the tokens of other users, each unchanged |
| Models.UpdatedUser | app/models/user.rb:8-9 | a changed digest clears both reset fields and keeps every other attribute as given; an unchanged digest saves the new attributes as given |
| Models.PasswordChangeSendsNoResetEmail | app/models/user.rb:9-10 | an update that changes the digest never triggers the reset email |
| Models.ResetTokenUpdateKeepsToken | app/models/user.rb:8-14 | reset-token generation keeps the digest, so the hooks leave the token in place, and the email is sent exactly when the token is new |
| UserAttributes.RolesAreDistinct | app/forms/concerns/user_attributes.rb:5 | the role list has no duplicates |
| UserAttributes.DetailedRolesAreRoles | app/forms/concerns/user_attributes.rb:5-6 | every detailed role is a role |
| UserAttributes.DetailedIff | app/forms/concerns/user_attributes.rb:6 | a role is detailed exactly when it is customer or delivery_agent |
| UserAttributes.RolesArePresent | app/forms/concerns/user_attributes.rb:5 | every listed role is non-blank, so a role that passes inclusion also passes presence |
| UserPresenter.Show | app/presenters/user_presenter.rb:11-26 | the key set is the eight profile keys, plus auth_token iff its flag is set, plus the two reset keys iff their flag is set; every value is the user's field or the token string |
| UserPresenter.PlainShowIgnoresToken | app/presenters/user_presenter.rb:11-22 | with both flags off, the output does not depend on the auth token |
| Store.Database.constructor | db/migrate/20190820113448_create_users.rb:5-18 | an empty store satisfies the store invariant |
| ApplicationController.AuthenticateToken | app/controllers/application_controller.rb:7-10 | the token is resolved iff the header names a stored token, and then it is that token; otherwise the request halts with 401 "Invalid token" |
| ApplicationController.DeleteExpiredToken | app/controllers/application_controller.rb:12-17 | an expired token is removed and the request halts with 401 "Token expired"; a live one changes nothing |
| ApplicationController.RunGate | app/controllers/application_controller.rb:4-17 | the chain of both before_actions returns the gate's verdict and leaves the table the gate specifies; nothing else changes |
| ApplicationController.UnknownTokenRejected | app/controllers/application_controller.rb:8-9 | a missing or unknown header gives "Invalid token" and leaves the table unchanged |
| ApplicationController.ExpiredTokenRemoved | app/controllers/application_controller.rb:12-16 | an expired token gives "Token expired" and is removed |
| ApplicationController.LiveTokenPasses | app/controllers/application_controller.rb:8-13 | a stored unexpired token passes, resolves to the row with that string, and leaves the table unchanged |
| ApplicationController.GateDeletesOnlyPresented | app/controllers/application_controller.rb:15 | the gate deletes at most the presented token; every other token survives unchanged |
| ApplicationController.ExpiredRetryIsInvalid | app/controllers/application_controller.rb:9-15 | re-sending a token just rejected as expired gives "Invalid token" and changes nothing more |
| ApplicationController.RejectionsAreUnauthorized | app/controllers/application_controller.rb:9-16 | every rejection by the gate is a 401 |
| UserModel.ClearAuthTokens | app/models/user.rb:20-22 | the user's tokens are disowned and kept, as `NullifyOwner` states; nothing else changes |
| UserModel.Update | app/models/user.rb:7-10 | a too-short password raises and changes nothing; otherwise the record with its hooks applied is saved, the user's tokens are disowned iff the digest changed, and a reset email is logged iff the reset token changed to non-nil |
| UserModel.GenerateResetPasswordToken | app/models/user.rb:12-14 | the user gets the new token expiring one day from now; auth tokens are untouched; the email is logged iff the token is new |
| UserModel.PasswordChangeDisownsTokens | app/models/user.rb:8-27 | after a digest change the user owns no token and has no reset token; every token string is still stored, and other users' tokens are unchanged |
| UserForm.Merge | app/forms/user_form.rb:25 | (function) `@object.attributes = option`: the supplied fields overwrite the base record |
| UserForm.MergeKeepsUnsupplied | app/forms/user_form.rb:23-27 | for the permitted fields, unsupplied ones keep the stored values and supplied ones replace them; the digest and reset fields are untouched |
| UserForm.Errors | app/forms/user_form.rb:9-21 | the message list is empty iff the form is valid: email present, role listed, email unused, and for detailed roles all profile fields present and the phone unused |
| UserForm.FirstErrorEmailBlank | app/forms/user_form.rb:10 | for a non-detailed role, a blank email is the first message |
| UserForm.FirstErrorRoleBlank | app/forms/user_form.rb:10 | with an email given, a missing role is the first message |
| UserForm.FirstErrorNameBlank | app/forms/user_form.rb:9 | for a detailed role, a blank name is the first message |
| UserForm.ProfileOptionalForOtherRoles | app/forms/user_form.rb:9-13 | admin, manager and customer_support pass without any profile field |
| UserForm.PhoneUniqueOnlyForDetailed | app/forms/user_form.rb:12 | the phone-taken message appears iff the role is detailed and the phone is in use |
| UserForm.KeptEmailIsTaken | app/forms/user_form.rb:15-17 | a form for a stored user that keeps its email is rejected as taken, because the check includes the record itself |
| Models.EmailTaken | app/forms/user_form.rb:15-17 | (predicate) some stored user, the one being updated included, has this email (nil matches nil); also the lookup of the sessions `exists` |
| UserForm.PhoneTaken | app/forms/user_form.rb:19-21 | (predicate) some stored user, the one being updated included, has this phone number |
| UserForm.FormUpdateSendsNoResetEmail | app/forms/user_form.rb:23-32 | saving a form built from a stored user and the permitted fields never triggers the reset email |
| UserForm.UserForm.constructor | app/forms/user_form.rb:23-27 | the form holds the new or stored record, overwritten by the supplied fields and the password setter |
| UserForm.UserForm.Persist | app/forms/user_form.rb:29-33 | an invalid form raises its first message and changes nothing; a short password raises the model's message; otherwise a new user is inserted or the stored one updated through its hooks, with the user's tokens disowned iff the digest changed and the email logged iff the reset token changed to non-nil |
| RestaurantForm.Merge | app/forms/restaurant_form.rb:14 | (function) `@restaurant.attributes = option`: the supplied fields overwrite the base record |
| RestaurantForm.MergeKeepsUnsupplied | app/forms/restaurant_form.rb:12-16 | unsupplied fields keep the stored values, supplied ones replace them |
| RestaurantForm.Errors | app/forms/restaurant_form.rb:8-10 | the message list is empty iff all nine fields are present and the rating lies in 0..5 |
| RestaurantForm.FirstErrorIsBlank | app/forms/restaurant_form.rb:8-10 | when a field is blank, the first message is the first presence message |
| RestaurantForm.FirstErrorNameBlank | app/forms/restaurant_form.rb:8 | a blank name is the first message |
| RestaurantForm.FirstErrorManagerBlank | app/forms/restaurant_form.rb:8 | a missing manager_id alone gives "Manager can't be blank" |
| RestaurantForm.RatingOutOfRange | app/forms/restaurant_form.rb:9 | with all fields present, an out-of-range rating is the only message |
| RestaurantForm.SavedIffValid | app/forms/restaurant_form.rb:18-22 | persist saves iff the form is valid and the manager exists |
| RestaurantForm.RestaurantForm.constructor | app/forms/restaurant_form.rb:12-16 | the form holds the new or stored restaurant overwritten by the supplied fields, and keeps its id |
| RestaurantForm.RestaurantForm.Persist | app/forms/restaurant_form.rb:18-22 | an error is raised and nothing changes, or the record is inserted under a new id or overwrites the stored one |
| SessionsController.Exists | app/controllers/sessions_controller.rb:32-35 | a user is found iff some stored user has the email, and it has that email; otherwise "User not found" |
| SessionsController.AuthenticateUser | app/controllers/sessions_controller.rb:28-30 | the request passes iff the password matches; otherwise "Invalid credentials" |
| SessionsController.GenerateAuthToken | app/controllers/sessions_controller.rb:24-26 | exactly one token is added, for the user, created now |
| SessionsController.Login | app/controllers/sessions_controller.rb:4-10 | an unknown email gives 404 and a wrong password 401, both without a new token; success adds exactly one token for the user and returns it; no token is ever deleted |
| SessionsController.Logout | app/controllers/sessions_controller.rb:12-15 | after the gate passes, exactly the resolved token is removed and the body is `{}` with 200 |
| SessionsController.ForgotPassword | app/controllers/sessions_controller.rb:17-20 | an unknown email gives 404 and changes nothing; a known one gets a reset token expiring one day from now; tokens are untouched |
| SessionsController.IssuedTokenPasses | app/controllers/sessions_controller.rb:24-26 | a token issued at login passes the gate and resolves to that user; the day-long window rests on the expiry assumed under "## Left out" |
| SessionsController.TwoLoginsBothValid | app/controllers/sessions_controller.rb:24-26 | two logins give two tokens that both pass |
| SessionsController.LoggedOutTokenInvalid | app/controllers/sessions_controller.rb:13 | a logged-out token is then "Invalid token" |
| SessionsController.NullifiedTokenStillPasses | app/models/user.rb:6-21 | as written, a live token of a user whose password changed still passes the gate, resolving to no user |
| SessionsController.PasswordChangeInvalidatesTokens | app/models/user.rb:8-21 | with the intended deletion, the user's tokens are rejected after a password change and other users' tokens behave as before |
| RestaurantsController.AllRestaurants | app/controllers/restaurants_controller.rb:7 | lists every stored restaurant exactly once with its stored record (in id order, an order the model chooses) |
| RestaurantsController.Index | app/controllers/restaurants_controller.rb:6-9 | after the gate, 200 with every stored restaurant; nothing changes |
| RestaurantsController.Exists | app/controllers/restaurants_controller.rb:33-36 | passes iff the id is stored; otherwise 404 "restaurant is not available" |
| RestaurantsController.Show | app/controllers/restaurants_controller.rb:11-13 | after the gate, the stored restaurant, or 404 for an unknown id |
| RestaurantsController.PersistResponse | app/controllers/restaurants_controller.rb:17-20 | (function) a raised message becomes 422 with that message; a save becomes 200 with the form's record and id |
| RestaurantsController.Create | app/controllers/restaurants_controller.rb:15-21 | after the gate, a raised message gives 422 and no restaurant is added; a save gives 200 and adds exactly one restaurant with the given fields |
| RestaurantsController.Update | app/controllers/restaurants_controller.rb:23-29 | after the gate, an unknown id gives 404; a raised message gives 422 with nothing changed; a save overwrites only the addressed restaurant |

## Left out

- The `AuthToken` model, `AuthTokenForm` and `UsersController` are not part of this model.
- `Models.TokenExpired` is an assumption: a token is taken to expire once more than a day has passed since creation. The table has a stored `expire_at` column, which is not modelled. The only facts fixed for expiry are "not expired at creation" and "expired two or more days later". Any claim that a token stays valid for a whole day rests on this assumption.
- The `reset_password` and `role_index` endpoints belong to `UsersController` and are not modelled.
- `SecureRandom` token strings are parameters supplied by the caller. Login requires its token string to be unused; the reset token may be any string.
- bcrypt is an ideal digest of the password and a caller-supplied salt. Collisions and timing are not modelled.
- The mailer is reduced to a ghost log of user ids. Delivery, templates and credentials are not modelled.
- Routes, migrations, HTTP plumbing and JSON encoding are not modelled. Response bodies are datatypes, and a restaurant body carries the record instead of `RestaurantPresenter`'s hash.
- Parameter parsing (`params.require` raising on a missing key) is not modelled. `User.find`/`Restaurant.find` raising on an unknown id inside a form is not modelled either: the form constructors require a stored id, and `update` reaches its form only after `exists`.
- The `destroy` action named in `RestaurantsController`'s `before_action` does not exist in the controller and is not modelled.
- has_secure_password's own validations are not modelled: the digest must be present on every save, the password has a maximum length, and a confirmation must match when given.
- Models.AssignPassword: the setter's nil case, which clears the digest, is not modelled; `None` stands for "no password supplied".
- UserForm.Merge: the form takes only the fields a client sends (email, role, name, phone number, address, city, state and password). An option hash that also carries `password_digest` or the reset-token fields, which `attributes =` would assign, is not modelled, so a form update that sets a reset token (and would send the reset email) cannot be expressed.
- Ruby's `blank?` also treats Unicode whitespace as blank; the model treats only the ASCII whitespace characters as blank.
- Rating and average cost per two are reals, not decimals or floats. Values reach validation already cast, so numericality can fail only on nil.
- `belongs_to :manager` is taken to be required, so saving a restaurant whose manager does not exist raises "Validation failed: Manager must exist".
- `find_by` with several matches returns an arbitrary match, not the lowest id.
- The timestamps of users and restaurants (`created_at`, `updated_at`) are not modelled. A token's `created_at` is modelled, because expiry is decided from it.
- Models.ResetPasswordTokenExpired: requires a stored expiry. With a nil expiry the source's comparison raises NoMethodError, and that error path is not modelled.
- Concurrency, transactions and database constraints are not modelled.

## Findings

| source | as written | input that shows it | evidently intended | confidence | as-written member | corrected member |
|---|---|---|---|---|---|---|
| app/models/user.rb:6,8,21 | `auth_tokens.delete_all` on a `has_many` without `dependent:` sets the rows' `user_id` to nil and keeps them | a user holds an unexpired token T and, through `UserForm#persist`, changes the password together with a new, unused email (keeping the email is rejected as taken); T is then presented to any gated action | the user's tokens are removed, so T gets 401 "Invalid token" (the user spec calls this "delete all auth tokens for user") | medium, not executed | SessionsController.NullifiedTokenStillPasses | SessionsController.PasswordChangeInvalidatesTokens |

The store methods (`UserModel.ClearAuthTokens`, `UserModel.Update`, `UserForm.UserForm.Persist`) keep the as-written nullifying behaviour. `Models.TokensWithout` is the intended deletion, and `SessionsController.PasswordChangeInvalidatesTokens` proves that it revokes the user's sessions.
