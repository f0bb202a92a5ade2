/** The two frozen role lists every user form is checked against. */
module UserAttributes {
  import opened Common

  const ROLES: seq<string> := ["admin", "manager", "customer", "delivery_agent", "customer_support"]

  /** The roles whose users must give name, phone number, city, state and
      address. */
  const DETAILED_INFO_ROLES: seq<string> := ["customer", "delivery_agent"]

  /** `DETAILED_INFO_ROLES.include?(role)`; a nil role is not included. */
  predicate Detailed(role: Option<string>)
  {
    role.Some? && role.value in DETAILED_INFO_ROLES
  }

  /** `ROLES.include?(role)`; a nil role is not included. */
  predicate InRoles(role: Option<string>)
  {
    role.Some? && role.value in ROLES
  }

  lemma RolesAreDistinct()
    ensures forall i, j | 0 <= i < j < |ROLES| :: ROLES[i] != ROLES[j]
  {
    assert ROLES[0][0] == 'a' && ROLES[1][0] == 'm' && ROLES[3][0] == 'd';
    assert |ROLES[2]| == 8 && |ROLES[4]| == 16;
  }

  lemma DetailedRolesAreRoles()
    ensures forall r | r in DETAILED_INFO_ROLES :: r in ROLES
  {
  }

  lemma DetailedIff(role: string)
    ensures Detailed(Some(role)) <==> role == "customer" || role == "delivery_agent"
  {
  }

  /** Every listed role is present (not blank), so a role that passes the
      inclusion check also passes the presence check. */
  lemma RolesArePresent(role: Option<string>)
    ensures InRoles(role) ==> Present(role)
  {
    if InRoles(role) {
      assert role.value[0] in "acdm";
    }
  }
}
