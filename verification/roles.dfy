/** Workspace roles, from the strongest to the weakest. */
module Roles {

  type RoleType = string

  const RoleOwner: RoleType := "owner"
  const RoleMaintainer: RoleType := "maintainer"
  const RoleWriter: RoleType := "writer"
  const RoleReader: RoleType := "reader"
  const RoleSelf: RoleType := "self"

  const RoleTypes: seq<RoleType> := [RoleOwner, RoleMaintainer, RoleWriter, RoleReader, RoleSelf]

  predicate ValidRole(r: RoleType) { r in RoleTypes }

  /** r is at least as strong as `role`: `role` stands at or after the place of r. */
  predicate Includes(r: RoleType, role: RoleType)
  {
    ValidRole(r) && IncludedFrom(RoleTypes, r, role)
  }

  predicate IncludedFrom(types: seq<RoleType>, r: RoleType, role: RoleType)
  {
    types != [] && ((r == types[0] && role in types) || IncludedFrom(types[1..], r, role))
  }

  /** How strong a role is, independently of the list; -1 for a string that is no role. */
  function Strength(r: RoleType): int
  {
    if r == "owner" then 4 else if r == "maintainer" then 3 else if r == "writer" then 2
    else if r == "reader" then 1 else if r == "self" then 0 else -1
  }

  lemma TailsOfRoleTypes()
    ensures RoleTypes[1..] == [RoleMaintainer, RoleWriter, RoleReader, RoleSelf]
    ensures RoleTypes[1..][1..] == [RoleWriter, RoleReader, RoleSelf]
    ensures RoleTypes[1..][1..][1..] == [RoleReader, RoleSelf]
    ensures RoleTypes[1..][1..][1..][1..] == [RoleSelf]
    ensures RoleTypes[1..][1..][1..][1..][1..] == []
  {
  }

  lemma RolesDiffer()
    ensures RoleOwner[0] == 'o' && RoleMaintainer[0] == 'm' && RoleWriter[0] == 'w' && RoleReader[0] == 'r' && RoleSelf[0] == 's'
  {
  }

  /** Includes is the order by strength on valid roles, and false elsewhere. */
  lemma IncludesIsOrder(r: RoleType, role: RoleType)
    ensures Includes(r, role) <==> 0 <= Strength(role) <= Strength(r)
  {
    TailsOfRoleTypes();
    RolesDiffer();
    var t := RoleTypes;
    assert IncludedFrom(t, r, role) <==> (r == RoleOwner && role in t) || IncludedFrom(t[1..], r, role);
    assert IncludedFrom(t[1..], r, role) <==> (r == RoleMaintainer && role in t[1..]) || IncludedFrom(t[1..][1..], r, role);
    assert IncludedFrom(t[1..][1..], r, role) <==> (r == RoleWriter && role in t[1..][1..]) || IncludedFrom(t[1..][1..][1..], r, role);
    assert IncludedFrom(t[1..][1..][1..], r, role) <==>
      (r == RoleReader && role in t[1..][1..][1..]) || IncludedFrom(t[1..][1..][1..][1..], r, role);
    assert IncludedFrom(t[1..][1..][1..][1..], r, role) <==> (r == RoleSelf && role in [RoleSelf]) || IncludedFrom([], r, role);
  }
}
