/** `UserForm`: the user record a request builds (a new user, or a stored
    one overwritten by the supplied fields), the validations it must pass in
    declaration order, and `persist`, which raises the first error message
    or saves the record. */
module UserForm {
  import opened Common
  import opened Models
  import opened Store
  import opened UserAttributes
  import UserModel

  /** The fields a request may supply; the password is the plain password
      handed to has_secure_password's setter. */
  datatype UserParams = UserParams(
    email: Assign<Option<string>>,
    role: Assign<Option<string>>,
    name: Assign<Option<string>>,
    phoneNumber: Assign<Option<string>>,
    address: Assign<Option<string>>,
    city: Assign<Option<string>>,
    state: Assign<Option<string>>,
    password: Option<string>)

  /** `@object.attributes = option`: supplied fields overwrite. */
  function Merge(base: User, p: UserParams): User
  {
    base.(email := Apply(p.email, base.email), role := Apply(p.role, base.role),
          name := Apply(p.name, base.name), phoneNumber := Apply(p.phoneNumber, base.phoneNumber),
          address := Apply(p.address, base.address), city := Apply(p.city, base.city),
          state := Apply(p.state, base.state))
  }

  /** For the permitted fields, one that is not supplied keeps the stored
      value and a supplied one takes the new value; the digest and reset
      fields are never touched by the merge. */
  lemma MergeKeepsUnsupplied(base: User, p: UserParams)
    ensures Merge(base, p).email == (if p.email.Set? then p.email.value else base.email)
    ensures Merge(base, p).role == (if p.role.Set? then p.role.value else base.role)
    ensures Merge(base, p).name == (if p.name.Set? then p.name.value else base.name)
    ensures Merge(base, p).phoneNumber == (if p.phoneNumber.Set? then p.phoneNumber.value else base.phoneNumber)
    ensures Merge(base, p).address == (if p.address.Set? then p.address.value else base.address)
    ensures Merge(base, p).city == (if p.city.Set? then p.city.value else base.city)
    ensures Merge(base, p).state == (if p.state.Set? then p.state.value else base.state)
    ensures Merge(base, p).passwordDigest == base.passwordDigest
    ensures Merge(base, p).resetPasswordToken == base.resetPasswordToken
    ensures Merge(base, p).resetPasswordTokenExpireAt == base.resetPasswordTokenExpireAt
  {
  }

  /** `User.where(phone_number: phone_number).any?`, the record being
      updated included. */
  predicate PhoneTaken(phone: Option<string>, users: map<nat, User>)
  {
    exists id | id in users :: users[id].phoneNumber == phone
  }

  const EmailTakenMessage: string := "Email has already been taken"
  const PhoneTakenMessage: string := "Phone number has already been taken"
  const RoleNotIncluded: string := "Role is not included in the list"

  /** The form is acceptable: an independent statement of all rules. */
  predicate FormValid(f: User, users: map<nat, User>)
  {
    && Present(f.email)
    && InRoles(f.role)
    && !EmailTaken(f.email, users)
    && (Detailed(f.role) ==>
          && Present(f.name) && Present(f.phoneNumber) && Present(f.city)
          && Present(f.state) && Present(f.address)
          && !PhoneTaken(f.phoneNumber, users))
  }

  /** The messages `valid?` collects, in the order the validators run:
      profile presence for detailed roles, email and role presence, email
      uniqueness, phone uniqueness for detailed roles, role inclusion.
      `errors.full_messages` groups them by attribute, in the order in
      which each attribute first failed; it agrees with this list in being empty and in its
      first message, which is all `persist` uses. */
  function Errors(f: User, users: map<nat, User>): (r: seq<string>)
    ensures r == [] <==> FormValid(f, users)
  {
    RolesArePresent(f.role);
    var detailed := Detailed(f.role);
    (if detailed
       then Blank("Name", f.name) + Blank("Phone number", f.phoneNumber) + Blank("City", f.city)
            + Blank("State", f.state) + Blank("Address", f.address)
       else [])
    + Blank("Email", f.email) + Blank("Role", f.role)
    + (if EmailTaken(f.email, users) then [EmailTakenMessage] else [])
    + (if detailed && PhoneTaken(f.phoneNumber, users) then [PhoneTakenMessage] else [])
    + (if InRoles(f.role) then [] else [RoleNotIncluded])
  }

  /** A missing email on a non-detailed role is the first error reported. */
  lemma FirstErrorEmailBlank(f: User, users: map<nat, User>)
    requires !Detailed(f.role) && !Present(f.email)
    ensures Errors(f, users) != [] && Errors(f, users)[0] == "Email can't be blank"
  {
  }

  /** With an email given, a missing role is the first error reported. */
  lemma FirstErrorRoleBlank(f: User, users: map<nat, User>)
    requires Present(f.email) && f.role.None?
    ensures Errors(f, users) != [] && Errors(f, users)[0] == "Role can't be blank"
  {
  }

  /** For a customer or delivery agent a missing name comes first. */
  lemma FirstErrorNameBlank(f: User, users: map<nat, User>)
    requires Detailed(f.role) && !Present(f.name)
    ensures Errors(f, users) != [] && Errors(f, users)[0] == "Name can't be blank"
  {
  }

  /** Admins, managers and customer support need none of the profile fields:
      with email and role in order and the email unused, the form passes
      whatever the profile holds. */
  lemma ProfileOptionalForOtherRoles(f: User, users: map<nat, User>)
    requires f.role == Some("admin") || f.role == Some("manager") || f.role == Some("customer_support")
    requires Present(f.email) && !EmailTaken(f.email, users)
    ensures Errors(f, users) == []
  {
  }

  /** The phone number is checked for uniqueness only for detailed roles. */
  lemma PhoneUniqueOnlyForDetailed(f: User, users: map<nat, User>)
    ensures PhoneTakenMessage in Errors(f, users) <==> Detailed(f.role) && PhoneTaken(f.phoneNumber, users)
  {
    var e := Errors(f, users);
    if Detailed(f.role) && PhoneTaken(f.phoneNumber, users) {
      assert PhoneTakenMessage in e;
    }
  }

  /** The email check does not exclude the record being updated: a form for
      a stored user that keeps its email is always rejected. */
  lemma KeptEmailIsTaken(users: map<nat, User>, id: nat, p: UserParams)
    requires id in users && p.email.Keep?
    ensures EmailTakenMessage in Errors(Merge(users[id], p), users)
  {
    assert users[id].email == Merge(users[id], p).email;
  }

  /** Saving a form built from a stored user and the permitted fields never
      sends a reset email: the merge and the password setter keep the stored
      reset token, and the hooks at most clear it. */
  lemma FormUpdateSendsNoResetEmail(stored: User, p: UserParams, salt: nat)
    ensures !ResetEmailDue(stored, UpdatedUser(stored, AssignPassword(Merge(stored, p), p.password, salt)))
  {
    MergeKeepsUnsupplied(stored, p);
  }

  /** A form object: the merged record it validates and saves. */
  class UserForm {
    const id: Option<nat>
    const attributes: User
    const password: Option<string>

    /** `UserForm.new(option, id)`: start from the stored user (the caller
        names one that exists) or from an empty one, overwrite the supplied
        fields and run the password setter with the random `salt`. */
    constructor (db: Database, params: UserParams, id: Option<nat>, salt: nat)
      requires id.Some? ==> id.value in db.users
      ensures this.id == id && password == params.password
      ensures attributes == AssignPassword(
                Merge(if id.Some? then db.users[id.value] else NewUser, params), params.password, salt)
    {
      this.id := id;
      var base := if id.Some? then db.users[id.value] else NewUser;
      attributes := AssignPassword(Merge(base, params), params.password, salt);
      password := params.password;
    }

    /** `persist`: raise the first form error, else `save!` — which raises
        the model's password error, inserts a new user, or updates the
        stored one through its hooks. */
    method Persist(db: Database) returns (r: Outcome)
      requires db.Valid()
      requires id.Some? ==> id.value in db.users
      modifies db
      ensures db.Valid()
      ensures Errors(attributes, old(db.users)) != [] ==>
                && r == Raised(Errors(attributes, old(db.users))[0])
                && db.users == old(db.users) && db.tokens == old(db.tokens)
                && db.nextUserId == old(db.nextUserId) && db.resetEmails == old(db.resetEmails)
      ensures Errors(attributes, old(db.users)) == [] && !PasswordValid(password) ==>
                && r == Raised(PasswordTooShort)
                && db.users == old(db.users) && db.tokens == old(db.tokens)
                && db.nextUserId == old(db.nextUserId) && db.resetEmails == old(db.resetEmails)
      ensures Errors(attributes, old(db.users)) == [] && PasswordValid(password) && id.None? ==>
                && r == Saved
                && db.users == old(db.users)[old(db.nextUserId) := attributes]
                && db.nextUserId == old(db.nextUserId) + 1
                && db.tokens == old(db.tokens) && db.resetEmails == old(db.resetEmails)
      ensures Errors(attributes, old(db.users)) == [] && PasswordValid(password) && id.Some? ==>
                && r == Saved
                && db.users == old(db.users)[id.value := UpdatedUser(old(db.users[id.value]), attributes)]
                && db.tokens == (if attributes.passwordDigest != old(db.users[id.value]).passwordDigest
                                 then NullifyOwner(old(db.tokens), id.value) else old(db.tokens))
                && db.resetEmails == old(db.resetEmails)
                   + (if ResetEmailDue(old(db.users[id.value]), db.users[id.value]) then [id.value] else [])
                && db.nextUserId == old(db.nextUserId)
      ensures db.restaurants == old(db.restaurants) && db.nextRestaurantId == old(db.nextRestaurantId)
    {
      var errors := Errors(attributes, db.users);
      if errors != [] {
        return Raised(errors[0]);
      }
      if id.None? {
        if !PasswordValid(password) {
          return Raised(PasswordTooShort);
        }
        db.users := db.users[db.nextUserId := attributes];
        db.nextUserId := db.nextUserId + 1;
        r := Saved;
      } else {
        r := UserModel.Update(db, id.value, attributes, password);
      }
    }
  }
}
