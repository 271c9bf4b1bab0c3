/** The members of a workspace: users and integrations with their roles.  The user map of a
    personal workspace is fixed. */
module Members {
  import opened Ids
  import opened Roles
  import opened Wrappers

  datatype Member = Member(role: RoleType, disabled: bool, invitedBy: Id, host: string)

  datatype Error =
    | UserAlreadyJoined
    | CannotModifyPersonalWorkspace
    | TargetUserNotInTheWorkspace
    | NoSpecifiedUsers
    | CannotChangeRoleToOwner
    | CannotChangeOwnerRole
    | OwnerCannotLeave

  datatype State = State(users: map<Id, Member>, integrations: map<Id, Member>, fixed: bool)

  datatype Op =
    | Join(u: Id, role: RoleType, host: string, inviter: Id)
    | Leave(u: Id)
    | UpdateUserRole(u: Id, role: RoleType)
    | AddIntegration(i: Id, role: RoleType, inviter: Id)
    | UpdateIntegrationRole(i: Id, role: RoleType)
    | DeleteIntegration(i: Id)
    | DeleteIntegrations(ids: seq<Id>)

  function RoleOrReader(r: RoleType): RoleType { if r == "" then RoleReader else r }

  function Elements(ids: seq<Id>): set<Id> { set i | i in ids }

  /** What an operation does, or why it is refused; a refused one changes nothing. */
  function Apply(m: State, op: Op): Result<State, Error>
  {
    match op
    case Join(u, r, h, inviter) =>
      if m.fixed then Err(CannotModifyPersonalWorkspace)
      else if u in m.users then Err(UserAlreadyJoined)
      else Ok(m.(users := m.users[u := Member(RoleOrReader(r), false, inviter, h)]))
    case Leave(u) =>
      if m.fixed then Err(CannotModifyPersonalWorkspace)
      else if u !in m.users then Err(TargetUserNotInTheWorkspace)
      else Ok(m.(users := m.users - {u}))
    case UpdateUserRole(u, r) =>
      if m.fixed then Err(CannotModifyPersonalWorkspace)
      else if !ValidRole(r) then Ok(m)
      else if u !in m.users then Err(TargetUserNotInTheWorkspace)
      else Ok(m.(users := m.users[u := m.users[u].(role := r)]))
    case AddIntegration(i, r, inviter) =>
      if i in m.integrations then Err(UserAlreadyJoined)
      else Ok(m.(integrations := m.integrations[i := Member(RoleOrReader(r), false, inviter, "")]))
    case UpdateIntegrationRole(i, r) =>
      if !ValidRole(r) then Ok(m)
      else if i !in m.integrations then Err(TargetUserNotInTheWorkspace)
      else Ok(m.(integrations := m.integrations[i := m.integrations[i].(role := r)]))
    case DeleteIntegration(i) =>
      if i !in m.integrations then Err(TargetUserNotInTheWorkspace)
      else Ok(m.(integrations := m.integrations - {i}))
    case DeleteIntegrations(ids) =>
      if ids == [] then Err(NoSpecifiedUsers)
      else if !(Elements(ids) <= m.integrations.Keys) then Err(TargetUserNotInTheWorkspace)
      else Ok(m.(integrations := m.integrations - Elements(ids)))
  }

  function After(m: State, op: Op): State
  {
    var r := Apply(m, op);
    if r.Ok? then r.value else m
  }

  function Failure(m: State, op: Op): Option<Error>
  {
    var r := Apply(m, op);
    if r.Ok? then None else Some(r.error)
  }

  predicate Descending(ids: seq<Id>) { forall i, j :: 0 <= i < j < |ids| ==> ids[i] > ids[j] }

  /** u is the owner and nobody else is. */
  predicate OnlyOwner(users: map<Id, Member>, u: Id)
  {
    u in users && forall v :: v in users ==> (users[v].role == RoleOwner <==> v == u)
  }

  predicate HasOwner(users: map<Id, Member>) { exists u :: u in users && users[u].role == RoleOwner }

  class Members {
    var users: map<Id, Member>
    var integrations: map<Id, Member>
    var fixed: bool

    function Value(): State
      reads this
    {
      State(users, integrations, fixed)
    }

    constructor With(users: map<Id, Member>, integrations: map<Id, Member>, fixed: bool)
      ensures Value() == State(users, integrations, fixed)
    {
      this.users, this.integrations, this.fixed := users, integrations, fixed;
    }

    method Join(u: Id, host: string, roleType: RoleType, inviter: Id) returns (err: Option<Error>)
      modifies this
      ensures Value() == After(old(Value()), Op.Join(u, roleType, host, inviter))
      ensures err == Failure(old(Value()), Op.Join(u, roleType, host, inviter))
      ensures fixed == old(fixed) && integrations == old(integrations)
      ensures err == if fixed then Some(CannotModifyPersonalWorkspace) else if u in old(users) then Some(UserAlreadyJoined) else None
      ensures err.Some? ==> users == old(users)
      ensures err.None? ==> users == old(users)[u := Member(if roleType == "" then "reader" else roleType, false, inviter, host)]
    {
      if fixed {
        return Some(CannotModifyPersonalWorkspace);
      }
      if u in users {
        return Some(UserAlreadyJoined);
      }
      var r := roleType;
      if r == "" {
        r := RoleReader;
      }
      users := users[u := Member(r, false, inviter, host)];
      err := None;
    }

    method Leave(u: Id) returns (err: Option<Error>)
      modifies this
      ensures Value() == After(old(Value()), Op.Leave(u)) && err == Failure(old(Value()), Op.Leave(u))
      ensures fixed == old(fixed) && integrations == old(integrations)
      ensures err == if fixed then Some(CannotModifyPersonalWorkspace)
                     else if u !in old(users) then Some(TargetUserNotInTheWorkspace) else None
      ensures users == if err.None? then old(users) - {u} else old(users)
    {
      if fixed {
        return Some(CannotModifyPersonalWorkspace);
      }
      if u !in users {
        return Some(TargetUserNotInTheWorkspace);
      }
      users := users - {u};
      err := None;
    }

    method UpdateUserRole(u: Id, r: RoleType) returns (err: Option<Error>)
      modifies this
      ensures Value() == After(old(Value()), Op.UpdateUserRole(u, r)) && err == Failure(old(Value()), Op.UpdateUserRole(u, r))
      ensures fixed == old(fixed) && integrations == old(integrations) && users.Keys == old(users.Keys)
      ensures err == if fixed then Some(CannotModifyPersonalWorkspace)
                     else if 0 <= Strength(r) && u !in users then Some(TargetUserNotInTheWorkspace) else None
      ensures forall v :: v in users ==> users[v] == old(users)[v].(role := users[v].role)
      ensures forall v :: v in users ==> users[v].role == if v == u && !fixed && 0 <= Strength(r) then r else old(users)[v].role
    {
      if fixed {
        return Some(CannotModifyPersonalWorkspace);
      }
      if !ValidRole(r) {
        return None;
      }
      if u !in users {
        return Some(TargetUserNotInTheWorkspace);
      }
      var mm := users[u];
      users := users[u := mm.(role := r)];
      err := None;
    }

    method AddIntegration(i: Id, roleType: RoleType, inviter: Id) returns (err: Option<Error>)
      modifies this
      ensures Value() == After(old(Value()), Op.AddIntegration(i, roleType, inviter))
      ensures err == Failure(old(Value()), Op.AddIntegration(i, roleType, inviter))
      ensures fixed == old(fixed) && users == old(users)
      ensures err == if i in old(integrations) then Some(UserAlreadyJoined) else None
      ensures err.Some? ==> integrations == old(integrations)
      ensures err.None? ==>
        integrations == old(integrations)[i := Member(if roleType == "" then "reader" else roleType, false, inviter, "")]
    {
      if i in integrations {
        return Some(UserAlreadyJoined);
      }
      var r := roleType;
      if r == "" {
        r := RoleReader;
      }
      integrations := integrations[i := Member(r, false, inviter, "")];
      err := None;
    }

    method UpdateIntegrationRole(i: Id, r: RoleType) returns (err: Option<Error>)
      modifies this
      ensures Value() == After(old(Value()), Op.UpdateIntegrationRole(i, r))
      ensures err == Failure(old(Value()), Op.UpdateIntegrationRole(i, r))
      ensures fixed == old(fixed) && users == old(users) && integrations.Keys == old(integrations.Keys)
      ensures err == if 0 <= Strength(r) && i !in integrations then Some(TargetUserNotInTheWorkspace) else None
      ensures forall j :: j in integrations ==> integrations[j] == old(integrations)[j].(role := integrations[j].role)
      ensures forall j :: j in integrations ==>
        integrations[j].role == if j == i && 0 <= Strength(r) then r else old(integrations)[j].role
    {
      if !ValidRole(r) {
        return None;
      }
      if i !in integrations {
        return Some(TargetUserNotInTheWorkspace);
      }
      var mm := integrations[i];
      integrations := integrations[i := mm.(role := r)];
      err := None;
    }

    method DeleteIntegration(i: Id) returns (err: Option<Error>)
      modifies this
      ensures Value() == After(old(Value()), Op.DeleteIntegration(i)) && err == Failure(old(Value()), Op.DeleteIntegration(i))
      ensures fixed == old(fixed) && users == old(users)
      ensures err == if i !in old(integrations) then Some(TargetUserNotInTheWorkspace) else None
      ensures integrations == if err.None? then old(integrations) - {i} else old(integrations)
    {
      if i !in integrations {
        return Some(TargetUserNotInTheWorkspace);
      }
      integrations := integrations - {i};
      err := None;
    }

    /** All or nothing, also when an ID is repeated. */
    method DeleteIntegrations(ids: seq<Id>) returns (err: Option<Error>)
      modifies this
      ensures Value() == After(old(Value()), Op.DeleteIntegrations(ids)) && err == Failure(old(Value()), Op.DeleteIntegrations(ids))
      ensures fixed == old(fixed) && users == old(users)
      ensures ids == [] ==> err == Some(NoSpecifiedUsers)
      ensures ids != [] ==>
        err == if forall i <- ids :: i in old(integrations) then None else Some(TargetUserNotInTheWorkspace)
      ensures err.Some? ==> integrations == old(integrations)
      ensures err.None? ==> forall i ::
        (i in integrations <==> i in old(integrations) && i !in ids) && (i in integrations ==> integrations[i] == old(integrations)[i])
    {
      if |ids| == 0 {
        return Some(NoSpecifiedUsers);
      }
      var missing := [];
      for k := 0 to |ids|
        invariant missing == [] <==> Elements(ids[..k]) <= integrations.Keys
      {
        assert Elements(ids[..k + 1]) == Elements(ids[..k]) + {ids[k]};
        if ids[k] !in integrations {
          missing := missing + [ids[k]];
        }
      }
      assert ids[..|ids|] == ids;
      if |missing| > 0 {
        return Some(TargetUserNotInTheWorkspace);
      }
      for k := 0 to |ids|
        invariant users == old(users) && fixed == old(fixed)
        invariant integrations == old(integrations) - Elements(ids[..k])
      {
        assert Elements(ids[..k + 1]) == Elements(ids[..k]) + {ids[k]};
        integrations := integrations - {ids[k]};
      }
      err := None;
    }

    /** The users with a role, whatever the order in which the map is walked. */
    method UsersByRole(r: RoleType) returns (res: seq<Id>)
      ensures Descending(res) && forall u :: u in res <==> u in users && users[u].role == r
    {
      res := [];
      var todo := users.Keys;
      while todo != {}
        invariant todo <= users.Keys && Distinct(res)
        invariant forall u :: u in res <==> u in users && u !in todo && users[u].role == r
        decreases |todo|
      {
        var u :| u in todo;
        todo := todo - {u};
        if users[u].role == r {
          res := res + [u];
        }
      }
      res := SortDescending(res);
    }

    method IsOnlyOwner(u: Id) returns (b: bool)
      ensures b <==> OnlyOwner(users, u)
      ensures b <==> u in users && users[u].role == "owner" && forall v :: v in users && v != u ==> users[v].role != "owner"
    {
      var owners := UsersByRole(RoleOwner);
      OneListed(owners, users, u);
      b := |owners| == 1 && u in users && users[u].role == RoleOwner;
    }
  }

  lemma OneListed(owners: seq<Id>, users: map<Id, Member>, u: Id)
    requires Descending(owners) && forall v :: v in owners <==> v in users && users[v].role == RoleOwner
    ensures |owners| == 1 && u in owners <==> OnlyOwner(users, u)
  {
    if |owners| == 1 {
      assert forall v :: v in owners <==> v == owners[0];
    } else if |owners| > 1 {
      assert owners[0] in owners && owners[1] in owners && owners[0] > owners[1];
    }
  }

  predicate Distinct(ids: seq<Id>) { forall i, j :: 0 <= i < j < |ids| ==> ids[i] != ids[j] }

  /** The standard library's sort, here as a list of insertions. */
  function SortDescending(ids: seq<Id>): (r: seq<Id>)
    requires Distinct(ids)
    ensures Descending(r) && forall u :: u in r <==> u in ids
  {
    if ids == [] then []
    else
      var n := |ids| - 1;
      assert ids == ids[..n] + [ids[n]];
      Insert(SortDescending(ids[..n]), ids[n])
  }

  lemma ConsDescending(first: Id, rest: seq<Id>)
    requires Descending(rest) && forall v :: v in rest ==> v < first
    ensures Descending([first] + rest)
  {
    forall i, j | 0 <= i < j < |[first] + rest| ensures ([first] + rest)[i] > ([first] + rest)[j] {
      assert ([first] + rest)[j] == rest[j - 1] && rest[j - 1] in rest;
    }
  }

  function Insert(s: seq<Id>, u: Id): (r: seq<Id>)
    requires Descending(s) && u !in s
    ensures Descending(r) && forall v :: v in r <==> v in s || v == u
  {
    if s == [] || s[0] < u then [u] + s
    else
      assert s == [s[0]] + s[1..];
      var rest := Insert(s[1..], u);
      ConsDescending(s[0], rest);
      [s[0]] + rest
  }

  /** A strictly descending list is determined by its elements, so the lists that are returned do
      not depend on the order of the map. */
  lemma {:induction false} DescendingIsUnique(s: seq<Id>, t: seq<Id>)
    requires Descending(s) && Descending(t) && forall u :: u in s <==> u in t
    ensures s == t
  {
    assert s == [] || s[0] in s;
    assert t == [] || t[0] in t;
    if s != [] && t != [] {
      assert s[0] in t && t[0] in s;
      assert s == [s[0]] + s[1..] && t == [t[0]] + t[1..];
      forall u ensures u in s[1..] <==> u in t[1..] {
        assert u in s[1..] <==> u in s && u != s[0];
        assert u in t[1..] <==> u in t && u != t[0];
      }
      DescendingIsUnique(s[1..], t[1..]);
    }
  }

  // ----- building a workspace

  /** The members that the builder gives to a workspace: none at all, or copies of what was set. */
  method BuildMembers(users: Option<map<Id, Member>>, integrations: Option<map<Id, Member>>, personal: bool) returns (m: Members)
    ensures fresh(m) && m.fixed == personal
    ensures m.users == (if users.Some? then users.value else map[])
    ensures m.integrations == if integrations.Some? then integrations.value else map[]
  {
    if users.None? && integrations.None? {
      m := new Members.With(map[], map[], false);
    } else {
      m := new Members.With(if users.Some? then users.value else map[], if integrations.Some? then integrations.value else map[], false);
    }
    m.fixed := personal;
  }

  /** The personal workspace of a new user. */
  method InitPersonal(u: Id) returns (m: Members)
    ensures fresh(m) && m.fixed && OnlyOwner(m.users, u) && m.users.Keys == {u}
  {
    m := BuildMembers(Some(map[u := Member(RoleOwner, false, u, "")]), None, true);
  }

  // ----- sequences of operations

  function Run(m: State, ops: seq<Op>): State
    decreases ops
  {
    if ops == [] then m else Run(After(m, ops[0]), ops[1..])
  }

  /** Nothing changes the users of a personal workspace: its creator stays the only owner. */
  lemma {:induction false} PersonalUsersNeverChange(m: State, ops: seq<Op>, u: Id)
    requires m.fixed
    ensures Run(m, ops).users == m.users && Run(m, ops).fixed
    ensures OnlyOwner(m.users, u) ==> OnlyOwner(Run(m, ops).users, u)
    decreases ops
  {
    if ops != [] {
      PersonalUsersNeverChange(After(m, ops[0]), ops[1..], u);
    }
  }

  method Perform(m: Members, ops: seq<Op>)
    modifies m
    ensures m.Value() == Run(old(m.Value()), ops)
    decreases ops
  {
    if ops == [] {
      return;
    }
    var err;
    match ops[0] {
      case Join(u, r, h, inviter) => err := m.Join(u, h, r, inviter);
      case Leave(u) => err := m.Leave(u);
      case UpdateUserRole(u, r) => err := m.UpdateUserRole(u, r);
      case AddIntegration(i, r, inviter) => err := m.AddIntegration(i, r, inviter);
      case UpdateIntegrationRole(i, r) => err := m.UpdateIntegrationRole(i, r);
      case DeleteIntegration(i) => err := m.DeleteIntegration(i);
      case DeleteIntegrations(ids) => err := m.DeleteIntegrations(ids);
    }
    Perform(m, ops[1..]);
  }

  /** From the first sign-up on, whatever operations follow, the creator of a personal workspace is
      its only user and its only owner. */
  method PersonalWorkspaceStays(u: Id, ops: seq<Op>) returns (m: Members, only: bool)
    ensures only && OnlyOwner(m.users, u) && m.users.Keys == {u}
  {
    m := InitPersonal(u);
    PersonalUsersNeverChange(m.Value(), ops, u);
    Perform(m, ops);
    only := m.IsOnlyOwner(u);
  }

  /** Joining and leaving again, or adding an integration and deleting it, restores the members. */
  lemma UndoneOperations(m: State, u: Id, r: RoleType, host: string, inviter: Id)
    ensures Apply(m, Join(u, r, host, inviter)).Ok? ==> Apply(After(m, Join(u, r, host, inviter)), Leave(u)) == Ok(m)
    ensures Apply(m, AddIntegration(u, r, inviter)).Ok? ==> Apply(After(m, AddIntegration(u, r, inviter)), DeleteIntegration(u)) == Ok(m)
  {
    if Apply(m, Join(u, r, host, inviter)).Ok? {
      assert After(m, Join(u, r, host, inviter)).users - {u} == m.users;
    }
    if Apply(m, AddIntegration(u, r, inviter)).Ok? {
      assert After(m, AddIntegration(u, r, inviter)).integrations - {u} == m.integrations;
    }
  }

  function Deletions(ids: seq<Id>): seq<Op> { seq(|ids|, k requires 0 <= k < |ids| => DeleteIntegration(ids[k])) }

  lemma {:induction false} DeletedOneByOne(m: State, ids: seq<Id>)
    ensures Run(m, Deletions(ids)) == m.(integrations := m.integrations - Elements(ids))
    decreases ids
  {
    if ids == [] {
      assert m.integrations - Elements(ids) == m.integrations;
    } else {
      assert Deletions(ids)[1..] == Deletions(ids[1..]);
      var m' := After(m, DeleteIntegration(ids[0]));
      DeletedOneByOne(m', ids[1..]);
      assert Elements(ids) == {ids[0]} + Elements(ids[1..]);
      assert m'.integrations == m.integrations - {ids[0]};
      assert m'.integrations - Elements(ids[1..]) == m.integrations - Elements(ids);
    }
  }

  /** Deleting a list of integrations, when it is not refused, is deleting them one by one,
      however often one is listed. */
  lemma BulkIsOneByOne(m: State, ids: seq<Id>)
    requires Apply(m, DeleteIntegrations(ids)).Ok?
    ensures After(m, DeleteIntegrations(ids)) == Run(m, Deletions(ids))
  {
    DeletedOneByOne(m, ids);
  }

  // ----- ownership, as the use cases change it

  /** TransferOwnership: the new owner is promoted, then the operator is demoted. */
  function Transfer(m: State, newOwner: Id, operator: Id): Result<State, Error>
  {
    if m.fixed then Err(CannotModifyPersonalWorkspace)
    else if newOwner !in m.users then Err(TargetUserNotInTheWorkspace)
    else if m.users[newOwner].role == RoleReader then Err(CannotChangeRoleToOwner)
    else
      var promoted := Apply(m, UpdateUserRole(newOwner, RoleOwner));
      if promoted.Err? then promoted else Apply(promoted.value, UpdateUserRole(operator, RoleMaintainer))
  }

  function Owners(users: map<Id, Member>): set<Id> { set u | u in users && users[u].role == RoleOwner }

  /** A transfer goes through exactly when both are members, the new owner not only as a reader; then the
      new owner is an owner and the operator a maintainer, which counts when they are the same. */
  lemma TransferIff(m: State, newOwner: Id, operator: Id)
    ensures Transfer(m, newOwner, operator).Ok? <==>
      !m.fixed && newOwner in m.users && m.users[newOwner].role != "reader" && operator in m.users
    ensures m.fixed ==> Transfer(m, newOwner, operator) == Err(CannotModifyPersonalWorkspace)
    ensures !m.fixed && newOwner in m.users && m.users[newOwner].role == "reader" ==>
      Transfer(m, newOwner, operator) == Err(CannotChangeRoleToOwner)
    ensures !m.fixed && (newOwner !in m.users || (m.users[newOwner].role != "reader" && operator !in m.users)) ==>
      Transfer(m, newOwner, operator) == Err(TargetUserNotInTheWorkspace)
    ensures Transfer(m, newOwner, operator).Ok? ==>
      var m' := Transfer(m, newOwner, operator).value;
      && m'.users.Keys == m.users.Keys && m'.integrations == m.integrations && m'.fixed == m.fixed
      && forall u :: u in m.users ==> m'.users[u] == m.users[u].(
           role := if u == operator then "maintainer" else if u == newOwner then "owner" else m.users[u].role)
  {
    RolesDiffer();
  }

  /** A transfer adds the new owner and takes the operator out; so an owner is left exactly when
      the two differ or a third user is an owner. */
  lemma TransferKeepsOwnerIff(m: State, newOwner: Id, operator: Id)
    requires Transfer(m, newOwner, operator).Ok?
    ensures var users := Transfer(m, newOwner, operator).value.users;
      && users.Keys == m.users.Keys
      && Owners(users) == Owners(m.users) + {newOwner} - {operator}
      && (HasOwner(users) <==> newOwner != operator || exists u :: u in Owners(m.users) && u != operator)
  {
    RolesDiffer();
    var users := Transfer(m, newOwner, operator).value.users;
    forall u ensures u in Owners(users) <==> u in Owners(m.users) + {newOwner} - {operator} {
    }
    if newOwner != operator {
      assert newOwner in Owners(users) && users[newOwner].role == RoleOwner;
    }
    if u :| u in Owners(m.users) && u != operator {
      assert u in Owners(users) && users[u].role == RoleOwner;
    }
    if HasOwner(users) {
      var u :| u in users && users[u].role == RoleOwner;
      assert u in Owners(users);
    }
  }

  /** UpdateUserMemberViaService: nobody becomes an owner this way, and the only owner stays. */
  function UpdateViaService(m: State, u: Id, r: RoleType): Result<State, Error>
  {
    if r == RoleOwner then Err(CannotChangeRoleToOwner)
    else if m.fixed then Err(CannotModifyPersonalWorkspace)
    else if OnlyOwner(m.users, u) then Err(CannotChangeOwnerRole)
    else Apply(m, UpdateUserRole(u, r))
  }

  /** The change goes through exactly when it makes no owner, is not of the only owner, and is of a
      member unless the role is none, when nothing happens. */
  lemma UpdateViaServiceIff(m: State, u: Id, r: RoleType)
    ensures UpdateViaService(m, u, r).Ok? <==>
      r != "owner" && !m.fixed && !OnlyOwner(m.users, u) && (0 <= Strength(r) ==> u in m.users)
    ensures UpdateViaService(m, u, r).Ok? ==>
      var m' := UpdateViaService(m, u, r).value;
      m' == if 0 <= Strength(r) then m.(users := m.users[u := m.users[u].(role := r)]) else m
    ensures r == "owner" ==> UpdateViaService(m, u, r) == Err(CannotChangeRoleToOwner)
    ensures r != "owner" && m.fixed ==> UpdateViaService(m, u, r) == Err(CannotModifyPersonalWorkspace)
    ensures r != "owner" && !m.fixed && OnlyOwner(m.users, u) ==> UpdateViaService(m, u, r) == Err(CannotChangeOwnerRole)
  {
    RolesDiffer();
  }

  lemma UpdateViaServiceKeepsOwner(m: State, u: Id, r: RoleType)
    requires HasOwner(m.users) && UpdateViaService(m, u, r).Ok?
    ensures HasOwner(UpdateViaService(m, u, r).value.users)
  {
    var o :| o in m.users && m.users[o].role == RoleOwner && (o != u || OnlyOwner(m.users, u) || m.users[u].role == RoleOwner);
    if o == u {
      var v :| v in m.users && m.users[v].role == RoleOwner && v != u;
      assert UpdateViaService(m, u, r).value.users[v].role == RoleOwner;
    } else {
      assert UpdateViaService(m, u, r).value.users[o].role == RoleOwner;
    }
  }

  /** The loop of RemoveMultipleUserMembers: the members it reaches, and the error that stops it.
      Only the operator's own leave is checked against leaving no owner. */
  function RemovedOneByOne(m: State, ids: seq<Id>, operator: Id): (State, Option<Error>)
    decreases ids
  {
    if ids == [] then (m, None)
    else if operator == ids[0] && OnlyOwner(m.users, ids[0]) then (m, Some(OwnerCannotLeave))
    else if Apply(m, Leave(ids[0])).Err? then (m, Some(Apply(m, Leave(ids[0])).error))
    else RemovedOneByOne(After(m, Leave(ids[0])), ids[1..], operator)
  }

  /** The error that refuses the removal before the loop. */
  function RefusedAtOnce(m: State, ids: seq<Id>): Option<Error>
  {
    if ids == [] then Some(NoSpecifiedUsers) else if m.fixed then Some(CannotModifyPersonalWorkspace) else None
  }

  method RemoveMultipleUserMembers(m: Members, ids: seq<Id>, operator: Id) returns (err: Option<Error>)
    modifies m
    ensures var before := old(m.Value());
      var refused := RefusedAtOnce(before, ids);
      (m.Value(), err) == if refused.Some? then (before, refused) else RemovedOneByOne(before, ids, operator)
    ensures m.integrations == old(m.integrations) && m.fixed == old(m.fixed)
    ensures err.None? <==>
      && ids != [] && !m.fixed && Distinct(ids) && (forall u <- ids :: u in old(m.users))
      && forall k :: 0 <= k < |ids| && ids[k] == operator ==> !OnlyOwner(old(m.users) - Elements(ids[..k]), operator)
    ensures err.None? ==> m.users == map u | u in old(m.users) && u !in ids :: old(m.users)[u]
    ensures ids == [] ==> err == Some(NoSpecifiedUsers)
    ensures ids != [] && m.fixed ==> err == Some(CannotModifyPersonalWorkspace)
  {
    if !m.fixed {
      RemovalIff(m.Value(), ids, operator);
      assert Elements(ids) <= m.users.Keys <==> forall u <- ids :: u in m.users;
    }
    RemovedKeepsRest(m.Value(), ids, operator);
    if ids == [] {
      return Some(NoSpecifiedUsers);
    }
    if m.fixed {
      return Some(CannotModifyPersonalWorkspace);
    }
    for i := 0 to |ids|
      invariant RemovedOneByOne(m.Value(), ids[i..], operator) == RemovedOneByOne(old(m.Value()), ids, operator)
    {
      if operator == ids[i] {
        var only := m.IsOnlyOwner(ids[i]);
        if only {
          return Some(OwnerCannotLeave);
        }
      }
      assert ids[i..][1..] == ids[i + 1..];
      err := m.Leave(ids[i]);
      if err.Some? {
        return;
      }
    }
    err := None;
  }

  lemma {:induction false} RemovedKeepsRest(m: State, ids: seq<Id>, operator: Id)
    ensures var m' := RemovedOneByOne(m, ids, operator).0; m'.integrations == m.integrations && m'.fixed == m.fixed
    decreases ids
  {
    if ids != [] && Apply(m, Leave(ids[0])).Ok? {
      RemovedKeepsRest(After(m, Leave(ids[0])), ids[1..], operator);
    }
  }

  /** When the operator's turn comes, somebody else who is not removed yet is an owner, or the
      operator is none. */
  predicate MayLeave(users: map<Id, Member>, ids: seq<Id>, operator: Id)
  {
    forall k :: 0 <= k < |ids| && ids[k] == operator ==> !OnlyOwner(users - Elements(ids[..k]), operator)
  }

  /** The loop gets through exactly when nobody is listed twice, everybody listed is a member, and the
      operator may leave in turn; then exactly those listed are gone. */
  lemma {:induction false} RemovalIff(m: State, ids: seq<Id>, operator: Id)
    requires !m.fixed
    ensures RemovedOneByOne(m, ids, operator).1.None? <==>
      Distinct(ids) && Elements(ids) <= m.users.Keys && MayLeave(m.users, ids, operator)
    ensures RemovedOneByOne(m, ids, operator).1.None? ==>
      RemovedOneByOne(m, ids, operator).0 == m.(users := m.users - Elements(ids))
    decreases ids
  {
    if ids == [] {
      assert m.users - Elements(ids) == m.users;
    } else {
      var u, rest := ids[0], ids[1..];
      assert Elements(ids) == {u} + Elements(rest);
      assert ids[..0] == [] && m.users - Elements(ids[..0]) == m.users;
      if u in m.users {
        var m' := m.(users := m.users - {u});
        RemovalIff(m', rest, operator);
        assert m'.users - Elements(rest) == m.users - Elements(ids);
        forall k | 0 <= k < |rest| ensures m'.users - Elements(rest[..k]) == m.users - Elements(ids[..k + 1]) {
          assert ids[..k + 1] == [u] + rest[..k];
          assert Elements(ids[..k + 1]) == {u} + Elements(rest[..k]);
        }
        DistinctFirst(ids);
        MayLeaveFirst(m, ids, operator);
      } else {
        assert u in Elements(ids);
      }
    }
  }

  /** The k-th of the list cannot be removed when those before are gone. */
  predicate StopsAt(m: State, ids: seq<Id>, operator: Id, k: nat)
    requires k < |ids|
  {
    var left := m.users - Elements(ids[..k]);
    ids[k] !in left || (ids[k] == operator && OnlyOwner(left, operator))
  }

  /** A removal that does not go through stops at the first that cannot be removed, with the error that
      fits, and those before are gone by then. */
  lemma {:induction false} RemovalStopsAtFirst(m: State, ids: seq<Id>, operator: Id) returns (k: nat)
    requires !m.fixed && RemovedOneByOne(m, ids, operator).1.Some?
    ensures k < |ids| && StopsAt(m, ids, operator, k) && forall j :: 0 <= j < k ==> !StopsAt(m, ids, operator, j)
    ensures RemovedOneByOne(m, ids, operator) == (m.(users := m.users - Elements(ids[..k])),
      Some(if ids[k] == operator && OnlyOwner(m.users - Elements(ids[..k]), operator) then OwnerCannotLeave
           else TargetUserNotInTheWorkspace))
    decreases ids
  {
    assert ids[..0] == [] && m.users - Elements(ids[..0]) == m.users;
    if StopsAt(m, ids, operator, 0) {
      k := 0;
    } else {
      var m' := m.(users := m.users - {ids[0]});
      var j := RemovalStopsAtFirst(m', ids[1..], operator);
      k := j + 1;
      forall i | 0 <= i < |ids| - 1
        ensures m'.users - Elements(ids[1..][..i]) == m.users - Elements(ids[..i + 1])
        ensures StopsAt(m', ids[1..], operator, i) <==> StopsAt(m, ids, operator, i + 1)
      {
        assert ids[..i + 1] == [ids[0]] + ids[1..][..i];
        assert Elements(ids[..i + 1]) == {ids[0]} + Elements(ids[1..][..i]);
        assert m'.users - Elements(ids[1..][..i]) == m.users - Elements(ids[..i + 1]);
      }
      forall i | 0 <= i < k ensures !StopsAt(m, ids, operator, i) {
        if i > 0 {
          assert !StopsAt(m', ids[1..], operator, i - 1);
        }
      }
    }
  }

  lemma DistinctFirst(ids: seq<Id>)
    requires ids != []
    ensures Distinct(ids) <==> ids[0] !in Elements(ids[1..]) && Distinct(ids[1..])
  {
    if ids[0] !in ids[1..] && Distinct(ids[1..]) {
      forall i, j | 0 <= i < j < |ids| ensures ids[i] != ids[j] {
        assert ids[j] == ids[1..][j - 1];
        assert i > 0 ==> ids[i] == ids[1..][i - 1];
      }
    }
    if Distinct(ids) {
      assert forall i :: 0 <= i < |ids| - 1 ==> ids[1..][i] == ids[i + 1];
    }
  }

  lemma MayLeaveFirst(m: State, ids: seq<Id>, operator: Id)
    requires ids != []
    ensures MayLeave(m.users, ids, operator) <==>
      && (ids[0] == operator ==> !OnlyOwner(m.users, operator))
      && MayLeave(m.users - {ids[0]}, ids[1..], operator)
  {
    assert ids[..0] == [] && m.users - Elements(ids[..0]) == m.users;
    forall k | 0 <= k < |ids| - 1
      ensures ids[1..][k] == ids[k + 1] && m.users - {ids[0]} - Elements(ids[1..][..k]) == m.users - Elements(ids[..k + 1])
    {
      assert ids[..k + 1] == [ids[0]] + ids[1..][..k];
      assert Elements(ids[..k + 1]) == {ids[0]} + Elements(ids[1..][..k]);
    }
    if MayLeave(m.users - {ids[0]}, ids[1..], operator) && (ids[0] == operator ==> !OnlyOwner(m.users, operator)) {
      forall k | 0 <= k < |ids| && ids[k] == operator ensures !OnlyOwner(m.users - Elements(ids[..k]), operator) {
        if k > 0 {
          assert ids[1..][k - 1] == operator;
        }
      }
    }
  }

  /** After an accepted removal an owner is left exactly when some owner is not listed. */
  lemma RemovalKeepsOwnerIff(m: State, ids: seq<Id>, operator: Id)
    requires !m.fixed && RemovedOneByOne(m, ids, operator).1.None?
    ensures var users := RemovedOneByOne(m, ids, operator).0.users;
      Owners(users) == Owners(m.users) - Elements(ids) && (HasOwner(users) <==> Owners(m.users) - Elements(ids) != {})
  {
    RemovalIff(m, ids, operator);
    var users := m.users - Elements(ids);
    assert Owners(users) == Owners(m.users) - Elements(ids);
    if u :| u in users && users[u].role == RoleOwner {
      assert u in Owners(users);
    }
    if u :| u in Owners(users) {
      assert users[u].role == RoleOwner;
    }
  }

  /** A removal that leaves no owner is accepted exactly when it is in order but for that and the
      operator is not the last of the owners to go, as one who is no owner never is. */
  lemma LastOwnerCanBeRemovedIff(m: State, ids: seq<Id>, operator: Id)
    requires !m.fixed && Distinct(ids) && Elements(ids) <= m.users.Keys && Owners(m.users) != {} && Owners(m.users) <= Elements(ids)
    ensures RemovedOneByOne(m, ids, operator).1.None? <==>
      forall k :: 0 <= k < |ids| && ids[k] == operator && operator in Owners(m.users) ==>
        exists j :: k < j < |ids| && ids[j] in Owners(m.users)
  {
    RemovalIff(m, ids, operator);
    forall k | 0 <= k < |ids| && ids[k] == operator
      ensures OnlyOwner(m.users - Elements(ids[..k]), operator) <==>
        operator in Owners(m.users) && !exists j :: k < j < |ids| && ids[j] in Owners(m.users)
    {
      OnlyOwnerAtTurnIff(m, ids, k);
    }
  }

  lemma OnlyOwnerAtTurnIff(m: State, ids: seq<Id>, k: nat)
    requires k < |ids| && Distinct(ids) && Elements(ids) <= m.users.Keys && Owners(m.users) <= Elements(ids)
    ensures OnlyOwner(m.users - Elements(ids[..k]), ids[k]) <==>
      ids[k] in Owners(m.users) && !exists j :: k < j < |ids| && ids[j] in Owners(m.users)
  {
    var left := m.users - Elements(ids[..k]);
    assert ids[k] in Elements(ids);
    assert ids[k] in left;
    forall v | v in Owners(m.users) ensures v in left <==> exists j :: k <= j < |ids| && ids[j] == v {
      assert v in Elements(ids);
    }
    if j :| k < j < |ids| && ids[j] in Owners(m.users) {
      assert ids[j] in left && left[ids[j]].role == RoleOwner;
    }
    if v :| v in left && v != ids[k] && left[v].role == RoleOwner {
      assert v in Owners(m.users);
    }
  }
}
