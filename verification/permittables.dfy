/** The roles of a user: global ones, and one per workspace. */
module Permittables {
  import opened Ids
  import opened Wrappers

  datatype WorkspaceRole = WorkspaceRole(id: Id, roleId: Id)

  /** What is stored of a permittable. */
  datatype Record = Record(id: Id, userId: Id, roleIds: seq<Id>, workspaceRoles: seq<WorkspaceRole>)

  /** All roles that a list gives in workspace w, in order. */
  function RolesIn(wrs: seq<WorkspaceRole>, w: Id): seq<Id>
  {
    if wrs == [] then [] else (if wrs[0].id == w then [wrs[0].roleId] else []) + RolesIn(wrs[1..], w)
  }

  /** The role that a list gives in workspace w: that of its first entry for w. */
  function RoleIn(wrs: seq<WorkspaceRole>, w: Id): Option<Id>
  {
    if RolesIn(wrs, w) == [] then None else Some(RolesIn(wrs, w)[0])
  }

  ghost predicate OnePerWorkspace(wrs: seq<WorkspaceRole>)
  {
    forall i, j :: 0 <= i < j < |wrs| ==> wrs[i].id != wrs[j].id
  }

  /** Where the first entry for w is. */
  ghost predicate FirstAt(wrs: seq<WorkspaceRole>, w: Id, i: nat)
  {
    i < |wrs| && wrs[i].id == w && forall k :: 0 <= k < i ==> wrs[k].id != w
  }

  class Permittable {
    const id: Id
    const userId: Id
    var roleIds: seq<Id>
    var workspaceRoles: seq<WorkspaceRole>
    var updatedAt: nat

    function State(): Record
      reads this
    {
      Record(id, userId, roleIds, workspaceRoles)
    }

    constructor (r: Record, now: nat)
      ensures State() == r && updatedAt == now
    {
      id, userId, roleIds, workspaceRoles, updatedAt := r.id, r.userId, r.roleIds, r.workspaceRoles, now;
    }

    method EditRoleIDs(roleIds: seq<Id>, now: nat)
      modifies this`roleIds, this`updatedAt
      ensures State() == old(State()).(roleIds := roleIds) && updatedAt == now
    {
      this.roleIds, updatedAt := roleIds, now;
    }

    method UpdateWorkspaceRole(w: Id, r: Id, now: nat)
      modifies this`workspaceRoles, this`updatedAt
      ensures forall v :: RoleIn(workspaceRoles, v) == if v == w then Some(r) else RoleIn(old(workspaceRoles), v)
      ensures forall v :: RolesIn(workspaceRoles, v) == Updated(RolesIn(old(workspaceRoles), v), v == w, r)
      ensures old(OnePerWorkspace(workspaceRoles)) ==> OnePerWorkspace(workspaceRoles)
      ensures updatedAt == now
      ensures forall i: nat :: FirstAt(old(workspaceRoles), w, i) ==> workspaceRoles == old(workspaceRoles)[i := WorkspaceRole(w, r)]
      ensures (forall wr <- old(workspaceRoles) :: wr.id != w) ==> workspaceRoles == old(workspaceRoles) + [WorkspaceRole(w, r)]
    {
      for i := 0 to |workspaceRoles|
        invariant workspaceRoles == old(workspaceRoles) && forall k :: 0 <= k < i ==> workspaceRoles[k].id != w
      {
        if workspaceRoles[i].id == w {
          assert forall j: nat :: FirstAt(workspaceRoles, w, j) ==> j == i;
          SetFirst(workspaceRoles, w, i, r);
          workspaceRoles := workspaceRoles[i := workspaceRoles[i].(roleId := r)];
          updatedAt := now;
          return;
        }
      }
      AddLast(workspaceRoles, w, r);
      workspaceRoles := workspaceRoles + [WorkspaceRole(w, r)];
      updatedAt := now;
    }

    /** Only the first entry for w goes, so the role is gone exactly when w was not listed twice. */
    method RemoveWorkspaceRole(w: Id, now: nat)
      modifies this`workspaceRoles, this`updatedAt
      ensures forall v :: RolesIn(workspaceRoles, v) == Removed(RolesIn(old(workspaceRoles), v), v == w)
      ensures RoleIn(workspaceRoles, w) == None <==> |RolesIn(old(workspaceRoles), w)| <= 1
      ensures old(OnePerWorkspace(workspaceRoles)) ==> OnePerWorkspace(workspaceRoles) && RoleIn(workspaceRoles, w) == None
      ensures RoleIn(old(workspaceRoles), w) == None ==> workspaceRoles == old(workspaceRoles)
      ensures updatedAt == if RoleIn(old(workspaceRoles), w).Some? then now else old(updatedAt)
      ensures forall i: nat :: FirstAt(old(workspaceRoles), w, i) ==>
        workspaceRoles == old(workspaceRoles)[..i] + old(workspaceRoles)[i + 1..]
      ensures (forall wr <- old(workspaceRoles) :: wr.id != w) ==> workspaceRoles == old(workspaceRoles) && updatedAt == old(updatedAt)
    {
      for i := 0 to |workspaceRoles|
        invariant workspaceRoles == old(workspaceRoles) && updatedAt == old(updatedAt)
        invariant forall k :: 0 <= k < i ==> workspaceRoles[k].id != w
      {
        if workspaceRoles[i].id == w {
          assert forall j: nat :: FirstAt(workspaceRoles, w, j) ==> j == i;
          forall v ensures RolesIn(workspaceRoles[..i] + workspaceRoles[i + 1..], v) == Removed(RolesIn(workspaceRoles, v), v == w) {
            RemoveFirst(workspaceRoles, w, i, v);
          }
          RemoveFirst(workspaceRoles, w, i, w);
          if OnePerWorkspace(workspaceRoles) {
            OneAtMost(workspaceRoles, w);
          }
          workspaceRoles := workspaceRoles[..i] + workspaceRoles[i + 1..];
          updatedAt := now;
          return;
        }
      }
      NotListed(workspaceRoles, w);
    }
  }

  /** The roles of a workspace after an update, which is for this workspace or for another. */
  function Updated(roles: seq<Id>, here: bool, r: Id): seq<Id>
  {
    if !here then roles else if roles == [] then [r] else roles[0 := r]
  }

  /** The roles of a workspace after a removal, which is for this workspace or for another. */
  function Removed(roles: seq<Id>, here: bool): seq<Id> { if here && roles != [] then roles[1..] else roles }

  lemma {:induction false} NotListed(wrs: seq<WorkspaceRole>, w: Id)
    requires forall k :: 0 <= k < |wrs| ==> wrs[k].id != w
    ensures RolesIn(wrs, w) == []
  {
    if wrs != [] {
      NotListed(wrs[1..], w);
    }
  }

  lemma {:induction false} OneAtMost(wrs: seq<WorkspaceRole>, w: Id)
    requires OnePerWorkspace(wrs)
    ensures |RolesIn(wrs, w)| <= 1
  {
    if wrs != [] {
      if wrs[0].id == w {
        NotListed(wrs[1..], w);
      } else {
        OneAtMost(wrs[1..], w);
      }
    }
  }

  lemma {:induction false} SetFirst(wrs: seq<WorkspaceRole>, w: Id, i: nat, r: Id)
    requires FirstAt(wrs, w, i)
    ensures forall v :: RolesIn(wrs[i := WorkspaceRole(w, r)], v) == Updated(RolesIn(wrs, v), v == w, r)
    ensures RolesIn(wrs, w) != []
  {
    if i == 0 {
      assert wrs[0 := WorkspaceRole(w, r)][1..] == wrs[1..];
    } else {
      SetFirst(wrs[1..], w, i - 1, r);
      assert wrs[i := WorkspaceRole(w, r)][1..] == wrs[1..][i - 1 := WorkspaceRole(w, r)];
    }
  }

  lemma {:induction false} AddLast(wrs: seq<WorkspaceRole>, w: Id, r: Id)
    requires forall k :: 0 <= k < |wrs| ==> wrs[k].id != w
    ensures forall v :: RolesIn(wrs + [WorkspaceRole(w, r)], v) == Updated(RolesIn(wrs, v), v == w, r)
    ensures RolesIn(wrs, w) == []
  {
    if wrs != [] {
      AddLast(wrs[1..], w, r);
      assert (wrs + [WorkspaceRole(w, r)])[1..] == wrs[1..] + [WorkspaceRole(w, r)];
    }
  }

  lemma {:induction false} RemoveFirst(wrs: seq<WorkspaceRole>, w: Id, i: nat, v: Id)
    requires FirstAt(wrs, w, i)
    ensures RolesIn(wrs[..i] + wrs[i + 1..], v) == Removed(RolesIn(wrs, v), v == w)
    ensures RolesIn(wrs, w) != []
  {
    if i == 0 {
      assert wrs[..0] + wrs[1..] == wrs[1..];
    } else {
      RemoveFirst(wrs[1..], w, i - 1, v);
      assert (wrs[..i] + wrs[i + 1..])[1..] == wrs[1..][..i - 1] + wrs[1..][i..];
      assert wrs[1..][i..] == wrs[i + 1..];
    }
  }
}
