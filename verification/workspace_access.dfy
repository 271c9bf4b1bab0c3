/** Which workspaces a user may access: the lists per exact role that the operator is built from,
    against the role order. */
module WorkspaceAccess {
  import opened GoSlices
  import opened Ids
  import opened Members
  import opened Operators
  import opened Roles
  import opened Wrappers

  datatype Workspace = Workspace(id: Id, users: map<Id, Member>)

  /** A Go list, which may be nil. */
  type List = Option<seq<Workspace>>
  type IdList = Option<seq<Id>>

  // ----- what the filters mean

  datatype Test = Exactly(role: RoleType) | Including(role: RoleType)

  predicate Accepts(keep: Test, r: RoleType)
  {
    match keep
    case Exactly(x) => r == x
    case Including(x) => Includes(r, x)
  }

  /** The workspaces of l, in order, in which u is a member with a role that `keep` accepts. */
  function Select(l: seq<Workspace>, u: Id, keep: Test): seq<Workspace>
  {
    if l == [] then []
    else Select(l[..|l| - 1], u, keep) + if Kept(l[|l| - 1], u, keep) then [l[|l| - 1]] else []
  }

  predicate Kept(w: Workspace, u: Id, keep: Test) { u in w.users && Accepts(keep, w.users[u].role) }

  function Filtered(l: List, u: Id, r: RoleType, keep: Test): List
  {
    if l.None? || u == NilId || r == "" then None else Some(Select(l.value, u, keep))
  }

  function MapIds(l: seq<Workspace>): seq<Id>
  {
    seq(|l|, i requires 0 <= i < |l| => l[i].id)
  }

  function IdsOf(l: List): IdList { if l.None? then None else Some(MapIds(l.value)) }

  function Items(l: IdList): seq<Id> { if l.None? then [] else l.value }

  /** u is a member of w with exactly the role r. */
  predicate HasExactly(w: Workspace, u: Id, r: RoleType) { u in w.users && w.users[u].role == r }

  /** u is a member of w with a role that is at least as strong as r, which must be a role. */
  predicate HasAtLeast(w: Workspace, u: Id, r: RoleType)
  {
    u in w.users && 0 <= Strength(r) <= Strength(w.users[u].role)
  }

  function WithExactly(l: seq<Workspace>, u: Id, r: RoleType): set<nat>
  {
    set i: nat | i < |l| && HasExactly(l[i], u, r)
  }

  function WithAtLeast(l: seq<Workspace>, u: Id, r: RoleType): set<nat>
  {
    set i: nat | i < |l| && HasAtLeast(l[i], u, r)
  }

  /** The items at `places`, in ascending order and without omission those that `wanted` marks. */
  ghost predicate Picked(l: seq<Workspace>, wanted: set<nat>, res: seq<Workspace>, places: seq<nat>)
  {
    && |places| == |res|
    && (forall k :: 0 <= k < |res| ==> places[k] < |l| && res[k] == l[places[k]])
    && (forall k, m :: 0 <= k < m < |places| ==> places[k] < places[m])
    && (forall i: nat :: i in places <==> i in wanted)
  }

  function Wanted(l: seq<Workspace>, u: Id, keep: Test): set<nat> { set i: nat | i < |l| && Kept(l[i], u, keep) }

  lemma {:induction false} SelectPicks(l: seq<Workspace>, u: Id, keep: Test) returns (places: seq<nat>)
    ensures Picked(l, Wanted(l, u, keep), Select(l, u, keep), places)
  {
    if l == [] {
      places := [];
    } else {
      var n := |l| - 1;
      var before := SelectPicks(l[..n], u, keep);
      WantedGrows(l, u, keep);
      if Kept(l[n], u, keep) {
        places := before + [n];
        PickOneMore(l, Wanted(l[..n], u, keep), Select(l[..n], u, keep), before);
        assert Wanted(l, u, keep) == Wanted(l[..n], u, keep) + {n};
      } else {
        places := before;
        assert Wanted(l, u, keep) == Wanted(l[..n], u, keep);
      }
    }
  }

  lemma WantedGrows(l: seq<Workspace>, u: Id, keep: Test)
    requires l != []
    ensures var n: nat := |l| - 1;
      Wanted(l, u, keep) == if Kept(l[n], u, keep) then Wanted(l[..n], u, keep) + {n} else Wanted(l[..n], u, keep)
  {
    var n: nat := |l| - 1;
    assert forall i: nat :: i < n ==> l[..n][i] == l[i];
  }

  lemma PickOneMore(l: seq<Workspace>, wanted: set<nat>, res: seq<Workspace>, places: seq<nat>)
    requires l != [] && Picked(l[..|l| - 1], wanted, res, places)
    ensures var n: nat := |l| - 1; Picked(l, wanted + {n}, res + [l[n]], places + [n])
  {
    var n: nat := |l| - 1;
    var more := places + [n];
    forall i: nat ensures i in more <==> i in wanted + {n} {
      assert i in more <==> i in places || i == n;
    }
  }

  // ----- the loops

  method FilterByUserRole(l: List, u: Id, r: RoleType) returns (res: List)
    ensures res == Filtered(l, u, r, Exactly(r))
    ensures res == None <==> l == None || u == NilId || r == ""
    ensures res != None ==>
      exists places :: Picked(l.value, WithExactly(l.value, u, r), res.value, places)
  {
    if l.None? || u == NilId || r == "" {
      return None;
    }
    var kept := [];
    for i := 0 to |l.value|
      invariant kept == Select(l.value[..i], u, Exactly(r))
    {
      var t := l.value[i];
      assert l.value[..i + 1][..i] == l.value[..i];
      if u in t.users && t.users[u].role == r {
        kept := kept + [t];
      }
    }
    assert l.value[..|l.value|] == l.value;
    res := Some(kept);
    ghost var places := SelectPicks(l.value, u, Exactly(r));
    assert Wanted(l.value, u, Exactly(r)) == WithExactly(l.value, u, r);
  }

  method FilterByUserRoleIncluding(l: List, u: Id, r: RoleType) returns (res: List)
    ensures res == Filtered(l, u, r, Including(r))
    ensures res == None <==> l == None || u == NilId || r == ""
    ensures res != None ==>
      exists places :: Picked(l.value, WithAtLeast(l.value, u, r), res.value, places)
  {
    if l.None? || u == NilId || r == "" {
      return None;
    }
    var kept := [];
    for i := 0 to |l.value|
      invariant kept == Select(l.value[..i], u, Including(r))
    {
      var t := l.value[i];
      assert l.value[..i + 1][..i] == l.value[..i];
      if u in t.users && Includes(t.users[u].role, r) {
        kept := kept + [t];
      }
    }
    assert l.value[..|l.value|] == l.value;
    res := Some(kept);
    ghost var places := SelectPicks(l.value, u, Including(r));
    IncludingIsWanted(l.value, u, r);
  }

  lemma IncludingIsWanted(l: seq<Workspace>, u: Id, r: RoleType)
    ensures Wanted(l, u, Including(r)) == WithAtLeast(l, u, r)
  {
    forall i: nat | i < |l| ensures Kept(l[i], u, Including(r)) <==> HasAtLeast(l[i], u, r) {
      if u in l[i].users {
        IncludesIsOrder(l[i].users[u].role, r);
      }
    }
  }

  method IDs(l: List) returns (res: IdList)
    ensures res == IdsOf(l)
    ensures res == None <==> l == None
    ensures res != None ==> |res.value| == |l.value| && forall i :: 0 <= i < |l.value| ==> res.value[i] == l.value[i].id
  {
    if l.None? {
      return None;
    }
    var ids := [];
    for i := 0 to |l.value|
      invariant ids == MapIds(l.value[..i])
    {
      assert MapIds(l.value[..i + 1]) == MapIds(l.value[..i]) + [l.value[i].id];
      ids := ids + [l.value[i].id];
    }
    assert l.value[..|l.value|] == l.value;
    res := Some(ids);
  }

  /** The operator of the user, whose workspaces `find` looks up; nobody gets none. */
  method GenerateUserOperator(find: Id -> Result<List, string>, user: Option<Id>) returns (r: Result<Operator?, string>)
    ensures user.None? ==> r == Ok(null)
    ensures user.Some? ==>
      match find(user.value)
      case Err(e) => r == Err(e)
      case Ok(l) =>
        && r.Ok? && r.value != null && fresh(r.value) && r.value.Valid() && FollowsRoleOrder(r.value, l, user.value)
        && ListsByRole(r.value, l, user.value)
  {
    if user.None? {
      return Ok(null);
    }
    match find(user.value) {
      case Err(e) => return Err(e);
      case Ok(l) =>
        var o := OperatorOver(l, user.value);
        RolesDiffer();
        forall ws
          ensures ws in IncludingIds(l, user.value, RoleReader) <==> MayAs(l, user.value, "reader", ws)
          ensures ws in IncludingIds(l, user.value, RoleWriter) <==> MayAs(l, user.value, "writer", ws)
          ensures ws in IncludingIds(l, user.value, RoleMaintainer) <==> MayAs(l, user.value, "maintainer", ws)
          ensures ws in IncludingIds(l, user.value, RoleOwner) <==> MayAs(l, user.value, "owner", ws)
        {
          IncludingMeansMay(l, user.value, RoleReader, ws);
          IncludingMeansMay(l, user.value, RoleWriter, ws);
          IncludingMeansMay(l, user.value, RoleMaintainer, ws);
          IncludingMeansMay(l, user.value, RoleOwner, ws);
        }
        return Ok(o);
    }
  }

  /** Each list of the operator holds the workspaces in which the role of u includes the list's. */
  ghost predicate FollowsRoleOrder(o: Operator, l: List, u: Id)
    requires o.Separate()
    reads o, o.owning.buf, o.maintainable.buf, o.writable.buf, o.readable.buf
  {
    forall ws ::
      && (ws in o.Reading() <==> ws in IncludingIds(l, u, RoleReader))
      && (ws in o.Writing() <==> ws in IncludingIds(l, u, RoleWriter))
      && (ws in o.Maintaining() <==> ws in IncludingIds(l, u, RoleMaintainer))
      && (ws in o.Owning() <==> ws in IncludingIds(l, u, RoleOwner))
  }

  /** u is, in some workspace of l with the ID ws, a member with a role at least as strong as r. */
  ghost predicate MayAs(l: List, u: Id, r: RoleType, ws: Id)
  {
    l != None && u != NilId && exists w <- l.value :: w.id == ws && HasAtLeast(w, u, r)
  }

  /** What the four lists of the operator answer. */
  ghost predicate ListsByRole(o: Operator, l: List, u: Id)
    requires o.Separate()
    reads o, o.owning.buf, o.maintainable.buf, o.writable.buf, o.readable.buf
  {
    var owning := o.owning.View();
    var maintaining := o.maintainable.View() + owning;
    var writing := o.writable.View() + maintaining;
    forall ws ::
      && (ws in owning <==> MayAs(l, u, "owner", ws))
      && (ws in maintaining <==> MayAs(l, u, "maintainer", ws))
      && (ws in writing <==> MayAs(l, u, "writer", ws))
      && (ws in o.readable.View() + writing <==> MayAs(l, u, "reader", ws))
  }

  lemma IncludingMeansMay(l: List, u: Id, r: RoleType, ws: Id)
    requires r != ""
    ensures ws in IncludingIds(l, u, r) <==> MayAs(l, u, r, ws)
  {
    IdsMean(l, u, r, ws);
    if l != None && u != NilId {
      forall w ensures Kept(w, u, Including(r)) <==> HasAtLeast(w, u, r) {
        if u in w.users {
          IncludesIsOrder(w.users[u].role, r);
        }
      }
    }
  }

  /** The operator with the four lists of exact roles. */
  method OperatorOver(l: List, u: Id) returns (o: Operator)
    ensures fresh(o) && o.Valid() && FollowsRoleOrder(o, l, u)
  {
    var r := FilterByUserRole(l, u, RoleReader);
    var rw := IDs(r);
    var w := FilterByUserRole(l, u, RoleWriter);
    var ww := IDs(w);
    var m := FilterByUserRole(l, u, RoleMaintainer);
    var mw := IDs(m);
    var ow := FilterByUserRole(l, u, RoleOwner);
    var oo := IDs(ow);
    o := new Operator(Items(rw), Items(ww), Items(mw), Items(oo), (0, 0, 0, 0));
    forall ws
      ensures ws in o.Reading() <==> ws in IncludingIds(l, u, RoleReader)
      ensures ws in o.Writing() <==> ws in IncludingIds(l, u, RoleWriter)
      ensures ws in o.Maintaining() <==> ws in IncludingIds(l, u, RoleMaintainer)
      ensures ws in o.Owning() <==> ws in IncludingIds(l, u, RoleOwner)
    {
      OperatorFollowsRoleOrder(l, u, ws);
    }
  }

  // ----- the exact lists refine the role order

  lemma {:induction false} SelectedIds(l: seq<Workspace>, u: Id, keep: Test, ws: Id)
    ensures ws in MapIds(Select(l, u, keep)) <==> exists w :: w in l && w.id == ws && Kept(w, u, keep)
  {
    if l == [] {
    } else {
      var n := |l| - 1;
      SelectedIds(l[..n], u, keep, ws);
      assert l == l[..n] + [l[n]];
      assert MapIds(Select(l, u, keep)) == MapIds(Select(l[..n], u, keep)) + if Kept(l[n], u, keep) then [l[n].id] else [];
    }
  }

  function ExactIds(l: List, u: Id, r: RoleType): seq<Id> { Items(IdsOf(Filtered(l, u, r, Exactly(r)))) }

  function IncludingIds(l: List, u: Id, r: RoleType): seq<Id> { Items(IdsOf(Filtered(l, u, r, Including(r)))) }

  /** u has in some workspace of l with id ws a role that `keep` accepts. */
  ghost predicate HasRoleIn(l: List, u: Id, keep: Test, ws: Id)
  {
    l.Some? && u != NilId && exists w :: w in l.value && w.id == ws && Kept(w, u, keep)
  }

  lemma IdsMean(l: List, u: Id, r: RoleType, ws: Id)
    requires r != ""
    ensures ws in ExactIds(l, u, r) <==> HasRoleIn(l, u, Exactly(r), ws)
    ensures ws in IncludingIds(l, u, r) <==> HasRoleIn(l, u, Including(r), ws)
  {
    if l.Some? && u != NilId {
      SelectedIds(l.value, u, Exactly(r), ws);
      SelectedIds(l.value, u, Including(r), ws);
    }
  }

  /** u is in ws with one of the four workspace roles that are at least as strong as r. */
  ghost predicate HasOneOf(l: List, u: Id, r: RoleType, ws: Id)
  {
    || HasRoleIn(l, u, Exactly(RoleOwner), ws)
    || (Strength(r) <= 3 && HasRoleIn(l, u, Exactly(RoleMaintainer), ws))
    || (Strength(r) <= 2 && HasRoleIn(l, u, Exactly(RoleWriter), ws))
    || (Strength(r) <= 1 && HasRoleIn(l, u, Exactly(RoleReader), ws))
  }

  /** The workspaces in which the user's role includes r are those with an exact role from r up. */
  lemma IncludingIsOneOf(l: List, u: Id, r: RoleType, ws: Id)
    requires 1 <= Strength(r)
    ensures HasRoleIn(l, u, Including(r), ws) <==> HasOneOf(l, u, r, ws)
  {
    RolesDiffer();
    if HasRoleIn(l, u, Including(r), ws) {
      var w :| w in l.value && w.id == ws && Kept(w, u, Including(r));
      var x := w.users[u].role;
      IncludesIsOrder(x, r);
      assert Kept(w, u, Exactly(x)) && HasRoleIn(l, u, Exactly(x), ws);
    }
    ExactIsIncluded(l, u, RoleOwner, r, ws);
    ExactIsIncluded(l, u, RoleMaintainer, r, ws);
    ExactIsIncluded(l, u, RoleWriter, r, ws);
    ExactIsIncluded(l, u, RoleReader, r, ws);
  }

  lemma ExactIsIncluded(l: List, u: Id, x: RoleType, r: RoleType, ws: Id)
    requires 0 <= Strength(r)
    ensures Strength(r) <= Strength(x) && HasRoleIn(l, u, Exactly(x), ws) ==> HasRoleIn(l, u, Including(r), ws)
  {
    if Strength(r) <= Strength(x) && HasRoleIn(l, u, Exactly(x), ws) {
      var w :| w in l.value && w.id == ws && Kept(w, u, Exactly(x));
      IncludesIsOrder(x, r);
      assert Kept(w, u, Including(r));
    }
  }

  /** The four exact lists, joined as the operator joins them, are the lists of the role order. */
  lemma OperatorFollowsRoleOrder(l: List, u: Id, ws: Id)
    ensures var o := ExactIds(l, u, RoleOwner);
      var m := ExactIds(l, u, RoleMaintainer) + o;
      var w := ExactIds(l, u, RoleWriter) + m;
      var r := ExactIds(l, u, RoleReader) + w;
      && (ws in o <==> ws in IncludingIds(l, u, RoleOwner))
      && (ws in m <==> ws in IncludingIds(l, u, RoleMaintainer))
      && (ws in w <==> ws in IncludingIds(l, u, RoleWriter))
      && (ws in r <==> ws in IncludingIds(l, u, RoleReader))
  {
    RolesDiffer();
    IdsMean(l, u, RoleOwner, ws);
    IdsMean(l, u, RoleMaintainer, ws);
    IdsMean(l, u, RoleWriter, ws);
    IdsMean(l, u, RoleReader, ws);
    IncludingIsOneOf(l, u, RoleOwner, ws);
    IncludingIsOneOf(l, u, RoleMaintainer, ws);
    IncludingIsOneOf(l, u, RoleWriter, ws);
    IncludingIsOneOf(l, u, RoleReader, ws);
  }
}
