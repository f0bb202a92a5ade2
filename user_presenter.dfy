/** `UserPresenter#_show`: the JSON object a user is rendered as. */
module UserPresenter {
  import opened Common
  import opened Models

  /** The two flags `_show` takes in its options hash (absent means false). */
  datatype ShowOptions = ShowOptions(authTokenIncluded: bool, resetPasswordTokenIncluded: bool)

  /** The keys every rendering carries. */
  const ProfileKeys: set<string> := {"id", "email", "role", "name", "phone_number", "address", "city", "state"}

  /** The user stored under `id`, rendered with the given auth token string
      (the presenter's second argument) and options. The source calls
      `auth_token.token`, so asking for the token needs one. */
  function Show(id: nat, u: User, authToken: Option<string>, options: ShowOptions): (r: map<string, Json>)
    requires options.authTokenIncluded ==> authToken.Some?
    ensures r.Keys == ProfileKeys
                      + (if options.authTokenIncluded then {"auth_token"} else {})
                      + (if options.resetPasswordTokenIncluded
                         then {"reset_password_token", "reset_password_token_expire_at"} else {})
    ensures r["id"] == JInt(id) && r["email"] == StrOrNull(u.email) && r["role"] == StrOrNull(u.role)
    ensures r["name"] == StrOrNull(u.name) && r["phone_number"] == StrOrNull(u.phoneNumber)
    ensures r["address"] == StrOrNull(u.address) && r["city"] == StrOrNull(u.city)
    ensures r["state"] == StrOrNull(u.state)
    ensures "auth_token" in r ==> r["auth_token"] == JStr(authToken.value)
    ensures "reset_password_token" in r ==> r["reset_password_token"] == StrOrNull(u.resetPasswordToken)
    ensures "reset_password_token_expire_at" in r ==>
              r["reset_password_token_expire_at"] == IntOrNull(u.resetPasswordTokenExpireAt)
  {
    var response := map[
      "id" := JInt(id),
      "email" := StrOrNull(u.email),
      "role" := StrOrNull(u.role),
      "name" := StrOrNull(u.name),
      "phone_number" := StrOrNull(u.phoneNumber),
      "address" := StrOrNull(u.address),
      "city" := StrOrNull(u.city),
      "state" := StrOrNull(u.state)];
    var withToken := if options.authTokenIncluded then response["auth_token" := JStr(authToken.value)] else response;
    if options.resetPasswordTokenIncluded then
      withToken["reset_password_token" := StrOrNull(u.resetPasswordToken)]
               ["reset_password_token_expire_at" := IntOrNull(u.resetPasswordTokenExpireAt)]
    else withToken
  }

  /** With both flags off the rendering is exactly the eight profile keys,
      whatever the auth token. */
  lemma PlainShowIgnoresToken(id: nat, u: User, a: Option<string>, b: Option<string>)
    ensures Show(id, u, a, ShowOptions(false, false)) == Show(id, u, b, ShowOptions(false, false))
  {
  }
}
