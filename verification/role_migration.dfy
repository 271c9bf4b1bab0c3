/** The role migration: every user and integration of every workspace gets the maintainer role.
    Each call to a repository may fail, before or after it has written. */
module RoleMigration {
  import opened Ids
  import opened Permittables
  import opened Wrappers

  datatype Role = Role(id: Id, name: string)

  /** A workspace with its member IDs, in the order in which they are listed. */
  datatype Workspace = Workspace(id: Id, userIds: seq<Id>, integrationIds: seq<Id>)

  type Table = map<Id, Record>

  datatype Fate = Works | FailsBefore | FailsAfter

  datatype Lookup = Found(p: Record) | NotFound | LookupFailed

  const Maintainer: string := "maintainer"

  // ----- what happens to the stored permittables

  /** Nothing is lost: old permittables keep their user, workspace roles and roles, and get the
      maintainer role at most once; new ones hold just this role. */
  ghost predicate Evolved(before: Table, after: Table, mid: Id)
  {
    && (forall k :: k in before ==> k in after && Kept(before[k], after[k], mid))
    && (forall k :: k in after && k !in before ==> after[k].roleIds == [mid] && after[k].workspaceRoles == [] && after[k].userId != NilId)
  }

  predicate Kept(p: Record, q: Record, mid: Id)
  {
    && q.id == p.id && q.userId == p.userId && q.workspaceRoles == p.workspaceRoles
    && (q.roleIds == p.roleIds || (mid !in p.roleIds && q.roleIds == p.roleIds + [mid]))
  }

  ghost predicate AtMostOne(perms: Table)
  {
    forall k, l :: k in perms && l in perms && perms[k].userId == perms[l].userId ==> k == l
  }

  ghost predicate Has(perms: Table, u: Id, mid: Id)
  {
    exists k :: k in perms && perms[k].userId == u && mid in perms[k].roleIds
  }

  /** Every permittable of u holds the role, and there is one. */
  ghost predicate Settled(perms: Table, u: Id, mid: Id)
  {
    Has(perms, u, mid) && forall k :: k in perms && perms[k].userId == u ==> mid in perms[k].roleIds
  }

  ghost predicate AllHave(perms: Table, us: seq<Id>, mid: Id) { forall u <- us :: Has(perms, u, mid) }

  ghost predicate AllSettled(perms: Table, us: seq<Id>, mid: Id) { forall u <- us :: Settled(perms, u, mid) }

  lemma EvolvedIsTransitive(a: Table, b: Table, c: Table, mid: Id)
    requires Evolved(a, b, mid) && Evolved(b, c, mid)
    ensures Evolved(a, c, mid)
  {
    forall k | k in a ensures k in c && Kept(a[k], c[k], mid) {
      assert Kept(a[k], b[k], mid) && Kept(b[k], c[k], mid);
    }
    forall k | k in c && k !in a ensures c[k].roleIds == [mid] && c[k].workspaceRoles == [] && c[k].userId != NilId {
      if k in b {
        assert Kept(b[k], c[k], mid);
      }
    }
  }

  lemma EvolvedKeepsHas(a: Table, b: Table, mid: Id, u: Id)
    requires Evolved(a, b, mid) && Has(a, u, mid)
    ensures Has(b, u, mid)
  {
    var k :| k in a && a[k].userId == u && mid in a[k].roleIds;
    assert Kept(a[k], b[k], mid);
  }

  lemma HasIsSettled(perms: Table, u: Id, mid: Id)
    requires AtMostOne(perms) && Has(perms, u, mid)
    ensures Settled(perms, u, mid)
  {
  }

  // ----- what the migration computes when nothing fails

  /** The stored permittables, the next identifier and the number of saves so far. */
  datatype Store = Store(perms: Table, next: Id, saves: nat)

  /** The permittable of u gets the role, or a new one is made, with the next identifier. */
  ghost function Ensured(s: Store, u: Id, mid: Id): Store
  {
    if exists k :: k in s.perms && s.perms[k].userId == u then
      var k :| k in s.perms && s.perms[k].userId == u;
      if mid in s.perms[k].roleIds then s
      else s.(perms := s.perms[k := s.perms[k].(roleIds := s.perms[k].roleIds + [mid])], saves := s.saves + 1)
    else if u == NilId then s
    else Store(s.perms[s.next := Record(s.next, u, [mid], [])], s.next + 1, s.saves + 1)
  }

  ghost function EnsuredAll(s: Store, us: seq<Id>, mid: Id): Store
  {
    if us == [] then s else Ensured(EnsuredAll(s, us[..|us| - 1], mid), us[|us| - 1], mid)
  }

  lemma {:induction false} EnsuredInTwoParts(s: Store, a: seq<Id>, b: seq<Id>, mid: Id)
    ensures EnsuredAll(s, a + b, mid) == EnsuredAll(EnsuredAll(s, a, mid), b, mid)
  {
    if b == [] {
      assert a + b == a;
    } else {
      var n := |b| - 1;
      EnsuredInTwoParts(s, a, b[..n], mid);
      assert (a + b)[..|a + b| - 1] == a + b[..n];
    }
  }

  lemma {:induction false} SettledUsersStay(s: Store, us: seq<Id>, mid: Id)
    requires AllSettled(s.perms, us, mid)
    ensures EnsuredAll(s, us, mid) == s
  {
    if us != [] {
      SettledUsersStay(s, us[..|us| - 1], mid);
      var u := us[|us| - 1];
      assert Settled(s.perms, u, mid);
    }
  }

  /** What processing the members us does to the store, and more when all went well: the role is
      everywhere and the store is the computed one.  Members that are settled cost nothing. */
  ghost predicate Processed(before: Store, after: Store, clean: bool, us: seq<Id>, mid: Id)
  {
    && Evolved(before.perms, after.perms, mid)
    && (AtMostOne(before.perms) ==> AtMostOne(after.perms))
    && (clean ==> AllHave(after.perms, us, mid))
    && (clean && AtMostOne(before.perms) ==> after == EnsuredAll(before, us, mid))
    && (AllSettled(before.perms, us, mid) ==> after == before)
    && OnlyOf(before.perms, after.perms, us)
  }

  /** Only permittables of the given users are new or changed. */
  ghost predicate OnlyOf(before: Table, after: Table, us: seq<Id>)
  {
    forall k :: k in after && (k !in before || after[k] != before[k]) ==> after[k].userId in us
  }

  lemma NothingProcessed(s: Store, clean: bool, mid: Id)
    ensures Processed(s, s, clean, [], mid)
  {
  }

  lemma OneEnsured(s: Store, u: Id, mid: Id)
    ensures EnsuredAll(s, [u], mid) == Ensured(s, u, mid)
    ensures AllSettled(s.perms, [u], mid) ==> Settled(s.perms, u, mid)
  {
    assert [u][..0] == [] && u in [u];
  }

  /** The call did not find out anything, or found that there is nothing to do. */
  lemma NothingChanged(s: Store, u: Id, ok: bool, mid: Id)
    requires ok ==> exists k :: k in s.perms && s.perms[k].userId == u && mid in s.perms[k].roleIds
    ensures Processed(s, s, ok, [u], mid)
  {
    OneEnsured(s, u, mid);
  }

  /** The permittable p of user u, which lacks the role, was saved with it, or not. */
  lemma RoleAdded(before: Store, after: Store, p: Record, ok: bool, mid: Id)
    requires p.id in before.perms && before.perms[p.id] == p && mid !in p.roleIds
    requires var q := p.(roleIds := p.roleIds + [mid]);
      && after.next == before.next && after.saves == before.saves + 1
      && (after.perms == before.perms[p.id := q] || (!ok && after.perms == before.perms))
    ensures Processed(before, after, ok, [p.userId], mid)
  {
    OneEnsured(before, p.userId, mid);
    if ok {
      assert after.perms[p.id].userId == p.userId;
    }
  }

  /** User u had no permittable, and a new one was saved, or not. */
  lemma PermittableMade(before: Store, after: Store, u: Id, ok: bool, mid: Id)
    requires u != NilId && forall k :: k in before.perms ==> before.perms[k].userId != u
    requires before.next !in before.perms && after.next == before.next + 1 && after.saves == before.saves + 1
    requires var q := Record(before.next, u, [mid], []);
      after.perms == before.perms[q.id := q] || (!ok && after.perms == before.perms)
    ensures Processed(before, after, ok, [u], mid)
  {
    OneEnsured(before, u, mid);
    if ok {
      assert after.perms[before.next].userId == u;
    }
  }

  lemma ProcessedInTwoParts(a: Store, b: Store, c: Store, clean: bool, clean': bool, us: seq<Id>, vs: seq<Id>, mid: Id)
    requires Processed(a, b, clean, us, mid) && Processed(b, c, clean', vs, mid)
    ensures Processed(a, c, clean && clean', us + vs, mid)
  {
    EvolvedIsTransitive(a.perms, b.perms, c.perms, mid);
    AllKeep(us, b.perms, c.perms, mid);
    EnsuredInTwoParts(a, us, vs, mid);
    assert forall u :: u in us ==> u in us + vs;
    assert forall v :: v in vs ==> v in us + vs;
    OnlyOfTwoParts(a.perms, b.perms, c.perms, us, vs, mid);
  }

  lemma OnlyOfTwoParts(a: Table, b: Table, c: Table, us: seq<Id>, vs: seq<Id>, mid: Id)
    requires Evolved(b, c, mid) && OnlyOf(a, b, us) && OnlyOf(b, c, vs)
    ensures OnlyOf(a, c, us + vs)
  {
    forall k | k in c && (k !in a || c[k] != a[k]) ensures c[k].userId in us + vs {
      if k in b && c[k] == b[k] {
        assert c[k].userId in us;
      }
    }
  }

  class Repos {
    const users: seq<Id>
    const workspaces: seq<Workspace>
    const asUser: Id -> Option<Id>  // an integration ID read as a user ID
    const fate: nat -> Fate         // what becomes of the n-th call
    var roles: seq<Role>
    var perms: Table
    var next: Id                    // supply of new identifiers
    var calls: nat
    var failures: nat
    var saves: nat

    ghost predicate Valid()
      reads this
    {
      && next != NilId
      && (forall k :: k in perms ==> perms[k].id == k && k < next)
      && (forall i, j :: 0 <= i < j < |workspaces| ==> workspaces[i].id != workspaces[j].id)
    }

    ghost function Stored(): Store
      reads this
    {
      Store(perms, next, saves)
    }

    method Call() returns (f: Fate)
      modifies this`calls, this`failures
      ensures failures == old(failures) + if f == Works then 0 else 1
    {
      f := fate(calls);
      calls := calls + 1;
      if f != Works {
        failures := failures + 1;
      }
    }

    method NewID() returns (id: Id)
      modifies this`next
      ensures id == old(next) && next == id + 1
    {
      id := next;
      next := next + 1;
    }

    method FindByUserID(u: Id) returns (r: Lookup)
      modifies this`calls, this`failures
      ensures r.LookupFailed? <==> failures > old(failures)
      ensures failures >= old(failures)
      ensures r.Found? ==> r.p.id in perms && perms[r.p.id] == r.p && r.p.userId == u
      ensures r.NotFound? ==> forall k :: k in perms ==> perms[k].userId != u
      requires Valid()
    {
      var f := Call();
      if f != Works {
        return LookupFailed;
      }
      if k :| k in perms && perms[k].userId == u {
        return Found(perms[k]);
      }
      r := NotFound;
    }

    method Save(p: Record) returns (ok: bool)
      modifies this`perms, this`calls, this`failures, this`saves
      ensures perms == old(perms) || perms == old(perms)[p.id := p]
      ensures ok ==> perms == old(perms)[p.id := p] && failures == old(failures)
      ensures !ok ==> failures > old(failures)
      ensures saves == old(saves) + 1
    {
      var f := Call();
      saves := saves + 1;
      if f != FailsBefore {
        perms := perms[p.id := p];
      }
      ok := f == Works;
    }

    predicate HasRole(p: Record, roleId: Id) { roleId in p.roleIds }

    method EnsureMaintainerRole(u: Id, mid: Id) returns (ok: bool)
      requires Valid()
      modifies this`perms, this`next, this`calls, this`failures, this`saves
      ensures Valid() && failures >= old(failures) && (ok <==> failures == old(failures))
      ensures Processed(old(Stored()), Stored(), ok, [u], mid)
    {
      var r := FindByUserID(u);
      if r.LookupFailed? {
        NothingChanged(Stored(), u, false, mid);
        return false;
      }
      if r.Found? && HasRole(r.p, mid) {
        NothingChanged(Stored(), u, true, mid);
        return true;
      }
      var now: nat := *;
      if r.NotFound? {
        if u == NilId {
          failures := failures + 1;
          NothingChanged(Stored(), u, false, mid);
          return false;
        }
        var id := NewID();
        var p := new Permittable(Record(id, u, [mid], []), now);
        ok := Save(p.State());
        PermittableMade(old(Stored()), Stored(), u, ok, mid);
      } else {
        var p := new Permittable(r.p, now);
        p.EditRoleIDs(p.roleIds + [mid], now);
        ok := Save(p.State());
        RoleAdded(old(Stored()), Stored(), r.p, ok, mid);
      }
    }

    /** The workspaces of u, in the order of the repository. */
    ghost function WorkspacesOf(u: Id): seq<Workspace> { OfUser(workspaces, u) }

    ghost function MembersOf(w: Workspace): seq<Id> { w.userIds + Converted(w.integrationIds, asUser) }

    /** Every integration ID of w can be read as a user ID. */
    ghost predicate Readable(w: Workspace) { AllReadable(w.integrationIds, asUser) }

    method FindByUser(u: Id) returns (r: Option<seq<Workspace>>)
      modifies this`calls, this`failures
      ensures failures >= old(failures) && (r.None? <==> failures > old(failures))
      ensures r.Some? ==> r.value == WorkspacesOf(u)
    {
      var f := Call();
      if f != Works {
        return None;
      }
      var found := [];
      for i := 0 to |workspaces|
        invariant found == OfUser(workspaces[..i], u)
      {
        assert workspaces[..i + 1][..i] == workspaces[..i];
        if u in workspaces[i].userIds {
          found := found + [workspaces[i]];
        }
      }
      assert workspaces[..|workspaces|] == workspaces;
      r := Some(found);
    }

    /** All members of one workspace; a member that fails does not stop the others. */
    method ProcessWorkspaceMembers(w: Workspace, mid: Id)
      requires Valid()
      modifies this`perms, this`next, this`calls, this`failures, this`saves
      ensures Valid() && failures >= old(failures)
      ensures Processed(old(Stored()), Stored(), failures == old(failures), MembersOf(w), mid)
      ensures failures == old(failures) ==> Readable(w)
    {
      ProcessUserIds(w.userIds, mid);
      ghost var before, clean, f := Stored(), failures == old(failures), failures;
      ProcessIntegrationIds(w.integrationIds, mid);
      ProcessedInTwoParts(old(Stored()), before, Stored(), clean, failures == f, w.userIds, Converted(w.integrationIds, asUser), mid);
    }

    method ProcessUserIds(us: seq<Id>, mid: Id)
      requires Valid()
      modifies this`perms, this`next, this`calls, this`failures, this`saves
      ensures Valid() && failures >= old(failures)
      ensures Processed(old(Stored()), Stored(), failures == old(failures), us, mid)
    {
      NothingProcessed(Stored(), true, mid);
      for i := 0 to |us|
        invariant Valid() && failures >= old(failures)
        invariant Processed(old(Stored()), Stored(), failures == old(failures), us[..i], mid)
      {
        ghost var before, clean := Stored(), failures == old(failures);
        var ok := EnsureMaintainerRole(us[i], mid);
        ProcessedInTwoParts(old(Stored()), before, Stored(), clean, ok, us[..i], [us[i]], mid);
        assert us[..i + 1] == us[..i] + [us[i]];
      }
      assert us[..|us|] == us;
    }

    method ProcessIntegrationIds(ids: seq<Id>, mid: Id)
      requires Valid()
      modifies this`perms, this`next, this`calls, this`failures, this`saves
      ensures Valid() && failures >= old(failures)
      ensures Processed(old(Stored()), Stored(), failures == old(failures), Converted(ids, asUser), mid)
      ensures failures == old(failures) ==> AllReadable(ids, asUser)
    {
      NothingProcessed(Stored(), true, mid);
      for i := 0 to |ids|
        invariant Valid() && failures >= old(failures)
        invariant Processed(old(Stored()), Stored(), failures == old(failures), Converted(ids[..i], asUser), mid)
        invariant failures == old(failures) ==> AllReadable(ids[..i], asUser)
      {
        ghost var before, clean := Stored(), failures == old(failures);
        var ok := ProcessIntegrationId(ids[i], mid);
        ConvertedExtends(ids, i, asUser);
        ProcessedInTwoParts(old(Stored()), before, Stored(), clean, ok, Converted(ids[..i], asUser), Converted([ids[i]], asUser), mid);
      }
      assert ids[..|ids|] == ids;
    }

    /** One integration; one whose ID cannot be read as a user ID fails. */
    method ProcessIntegrationId(id: Id, mid: Id) returns (ok: bool)
      requires Valid()
      modifies this`perms, this`next, this`calls, this`failures, this`saves
      ensures Valid() && failures >= old(failures) && (ok <==> failures == old(failures))
      ensures Processed(old(Stored()), Stored(), ok, Converted([id], asUser), mid) && (ok ==> asUser(id).Some?)
    {
      var u := asUser(id);
      assert [id][..0] == [];
      if u.None? {
        failures := failures + 1;
        NothingProcessed(Stored(), false, mid);
        return false;
      }
      assert Converted([id], asUser) == [u.value];
      ok := EnsureMaintainerRole(u.value, mid);
    }

    /** The maintainer role: the first of that name, else a new one. */
    method FindOrCreateMaintainer() returns (r: Option<Id>)
      requires Valid()
      modifies this`roles, this`next, this`calls, this`failures, this`saves
      ensures Valid() && failures >= old(failures) && (r.Some? <==> failures == old(failures))
      ensures old(roles) <= roles && |roles| <= |old(roles)| + 1
      ensures r.Some? ==> FirstMaintainer(roles) == r && FoundOrMade(old(roles), roles, r.value)
      ensures FirstMaintainer(old(roles)).Some? ==> roles == old(roles) && saves == old(saves) && next == old(next)
      ensures r.Some? && FirstMaintainer(old(roles)) == None ==>
        roles == old(roles) + [Role(r.value, Maintainer)] && next == old(next) + 1 && saves == old(saves) + 1
    {
      var f := Call();
      if f != Works {
        return None;
      }
      for i := 0 to |roles|
        invariant FirstMaintainer(roles) == FirstMaintainer(roles[i..])
        invariant forall k :: 0 <= k < i ==> roles[k].name != "maintainer"
      {
        if roles[i].name == Maintainer {
          assert IsFirstNamed(roles, i) && roles[i] in roles;
          return Some(roles[i].id);
        }
      }
      var id := NewID();
      f := Call();
      saves := saves + 1;
      FirstOfExtended(roles, Role(id, Maintainer));
      if f != FailsBefore {
        roles := roles + [Role(id, Maintainer)];
        assert IsFirstNamed(roles, |roles| - 1);
      }
      r := if f == Works then Some(id) else None;
    }

    method FindAllUsers() returns (r: Option<seq<Id>>)
      modifies this`calls, this`failures
      ensures failures >= old(failures) && (r.Some? <==> failures == old(failures)) && (r.Some? ==> r.value == users)
    {
      var f := Call();
      r := if f == Works then Some(users) else None;
    }

    /** The members visited when every workspace of the list is processed, in order. */
    ghost function Visits(ws: seq<Workspace>): seq<Id>
    {
      if ws == [] then [] else Visits(ws[..|ws| - 1]) + MembersOf(ws[|ws| - 1])
    }

    /** The members visited when every workspace of every user is processed, repeated or not. */
    ghost function AllVisits(us: seq<Id>): seq<Id>
    {
      if us == [] then [] else AllVisits(us[..|us| - 1]) + Visits(WorkspacesOf(us[|us| - 1]))
    }

    /** One workspace, unless it was processed before. */
    method ProcessUnlessDone(w: Workspace, mid: Id, done: map<Id, Workspace>) returns (processed: map<Id, Workspace>)
      requires Valid() && (w.id in done ==> done[w.id] == w)
      modifies this`perms, this`next, this`calls, this`failures, this`saves
      ensures Valid() && failures >= old(failures) && processed == done[w.id := w]
      ensures failures == old(failures) && old(DoneHave(done, perms, mid)) ==> DoneHave(processed, perms, mid)
      ensures Processed(old(Stored()), Stored(), failures == old(failures) && old(DoneHave(done, perms, mid)), MembersOf(w), mid)
      ensures failures == old(failures) && old(DoneHave(done, perms, mid)) ==> Readable(w)
    {
      processed := done[w.id := w];
      if w.id in done {
        assert processed == done;
        if AtMostOne(perms) && DoneHave(done, perms, mid) {
          MembersSettled(perms, MembersOf(w), mid);
          SettledUsersStay(Stored(), MembersOf(w), mid);
        }
        return;
      }
      ProcessWorkspaceMembers(w, mid);
      DoneKeep(done, w, old(perms), perms, mid);
    }

    /** The loop over the workspaces of one user. */
    method ProcessWorkspaces(ws: seq<Workspace>, mid: Id, done: map<Id, Workspace>) returns (processed: map<Id, Workspace>)
      requires Valid() && Known(done) && forall w <- ws :: w in workspaces
      modifies this`perms, this`next, this`calls, this`failures, this`saves
      ensures Valid() && failures >= old(failures) && Known(processed)
      ensures failures == old(failures) && old(DoneHave(done, perms, mid)) ==> DoneHave(processed, perms, mid)
      ensures Processed(old(Stored()), Stored(), failures == old(failures) && old(DoneHave(done, perms, mid)), Visits(ws), mid)
      ensures failures == old(failures) && old(DoneHave(done, perms, mid)) ==> forall w <- ws :: Readable(w)
    {
      ghost var start, f0, had := Stored(), failures, DoneHave(done, perms, mid);
      processed := done;
      NothingProcessed(start, true, mid);
      for i := 0 to |ws|
        invariant Valid() && failures >= f0 && Known(processed)
        invariant failures == f0 && had ==> DoneHave(processed, perms, mid) && AllReadableIn(ws[..i])
        invariant Processed(start, Stored(), failures == f0 && had, Visits(ws[..i]), mid)
      {
        assert ws[..i + 1][..i] == ws[..i] && ws[i] in ws;
        KnownIs(processed, ws[i]);
        ghost var before, clean, have, f := Stored(), failures == f0 && had, DoneHave(processed, perms, mid), failures;
        processed := ProcessUnlessDone(ws[i], mid, processed);
        ProcessedInTwoParts(start, before, Stored(), clean, failures == f && have, Visits(ws[..i]), MembersOf(ws[i]), mid);
      }
      assert ws[..|ws|] == ws;
    }

    ghost predicate AllReadableIn(ws: seq<Workspace>) { forall w <- ws :: Readable(w) }

    /** The processed workspaces are workspaces of the repository, under their own IDs. */
    ghost predicate Known(done: map<Id, Workspace>) { forall id :: id in done ==> done[id] in workspaces && done[id].id == id }

    lemma KnownIs(done: map<Id, Workspace>, w: Workspace)
      requires Valid() && Known(done) && w in workspaces
      ensures w.id in done ==> done[w.id] == w
    {
      if w.id in done {
        var i :| 0 <= i < |workspaces| && workspaces[i] == w;
        var j :| 0 <= j < |workspaces| && workspaces[j] == done[w.id];
      }
    }

    ghost predicate DoneHave(done: map<Id, Workspace>, perms: Table, mid: Id)
    {
      forall id :: id in done ==> AllHave(perms, MembersOf(done[id]), mid) && Readable(done[id])
    }

    lemma DoneKeep(done: map<Id, Workspace>, w: Workspace, a: Table, b: Table, mid: Id)
      requires Evolved(a, b, mid)
      ensures DoneHave(done, a, mid) && AllHave(b, MembersOf(w), mid) && Readable(w) ==> DoneHave(done[w.id := w], b, mid)
    {
      forall id | id in done {
        AllKeep(MembersOf(done[id]), a, b, mid);
      }
    }

    lemma {:induction false} VisitsIff(ws: seq<Workspace>, m: Id)
      ensures m in Visits(ws) <==> exists w :: w in ws && m in MembersOf(w)
    {
      if ws != [] {
        var n := |ws| - 1;
        VisitsIff(ws[..n], m);
        assert ws == ws[..n] + [ws[n]];
      }
    }

    /** Every integration ID of the workspaces of these users can be read as a user ID. */
    ghost predicate AllVisitsReadable(us: seq<Id>) { forall u <- us, w <- workspaces | u in w.userIds :: Readable(w) }

    ghost predicate SharesWorkspace(u: Id, m: Id) { exists w :: w in workspaces && u in w.userIds && m in MembersOf(w) }

    /** The members that the migration visits are the users and integrations of every workspace
        that some user belongs to. */
    lemma {:induction false} AllVisitsIff(us: seq<Id>, m: Id)
      ensures m in AllVisits(us) <==> exists u :: u in us && SharesWorkspace(u, m)
    {
      if us != [] {
        var n := |us| - 1;
        AllVisitsIff(us[..n], m);
        assert us == us[..n] + [us[n]];
        VisitsIff(WorkspacesOf(us[n]), m);
        forall w ensures w in WorkspacesOf(us[n]) <==> w in workspaces && us[n] in w.userIds {
          OfUserIff(workspaces, us[n], w);
        }
        assert m in Visits(WorkspacesOf(us[n])) <==> SharesWorkspace(us[n], m);
        assert forall u :: u in us <==> u in us[..n] || u == us[n];
        if m in AllVisits(us) && m !in AllVisits(us[..n]) {
          assert SharesWorkspace(us[n], m);
        }
      }
    }

    /** The workspaces of one user; a user whose workspaces cannot be found is passed over. */
    method ProcessUser(u: Id, mid: Id, done: map<Id, Workspace>) returns (processed: map<Id, Workspace>)
      requires Valid() && Known(done)
      modifies this`perms, this`next, this`calls, this`failures, this`saves
      ensures Valid() && failures >= old(failures) && Known(processed)
      ensures failures == old(failures) && old(DoneHave(done, perms, mid)) ==> DoneHave(processed, perms, mid)
      ensures Processed(old(Stored()), Stored(), failures == old(failures) && old(DoneHave(done, perms, mid)), Visits(WorkspacesOf(u)), mid)
      ensures failures == old(failures) && old(DoneHave(done, perms, mid)) ==> forall w <- WorkspacesOf(u) :: Readable(w)
    {
      var ws := FindByUser(u);
      if ws.None? {
        NothingProcessed(Stored(), true, mid);
        VisitsPassedOver(Stored(), Stored(), true, [], Visits(WorkspacesOf(u)), mid);
        assert [] + Visits(WorkspacesOf(u)) == Visits(WorkspacesOf(u));
        return done;
      }
      forall w <- ws.value ensures w in workspaces { OfUserIff(workspaces, u, w); }
      processed := ProcessWorkspaces(ws.value, mid, done);
    }

    lemma ReadableUpTo(us: seq<Id>, i: nat)
      requires i < |us| && AllVisitsReadable(us[..i]) && forall w <- WorkspacesOf(us[i]) :: Readable(w)
      ensures AllVisitsReadable(us[..i + 1])
    {
      forall u <- us[..i + 1], w <- workspaces | u in w.userIds ensures Readable(w) {
        if u !in us[..i] {
          OfUserIff(workspaces, us[i], w);
        }
      }
    }

    /** The loop over all users. */
    method ProcessUsers(us: seq<Id>, mid: Id)
      requires Valid()
      modifies this`perms, this`next, this`calls, this`failures, this`saves
      ensures Valid() && failures >= old(failures)
      ensures Processed(old(Stored()), Stored(), failures == old(failures), AllVisits(us), mid)
      ensures failures == old(failures) ==> AllVisitsReadable(us)
    {
      var processed: map<Id, Workspace> := map[];
      NothingProcessed(Stored(), true, mid);
      for i := 0 to |us|
        invariant Valid() && failures >= old(failures) && Known(processed)
        invariant failures == old(failures) ==> DoneHave(processed, perms, mid)
        invariant Processed(old(Stored()), Stored(), failures == old(failures), AllVisits(us[..i]), mid)
        invariant failures == old(failures) ==> AllVisitsReadable(us[..i])
      {
        assert us[..i + 1][..i] == us[..i];
        ghost var before, clean := Stored(), failures == old(failures);
        ghost var have, f := DoneHave(processed, perms, mid), failures;
        processed := ProcessUser(us[i], mid, processed);
        ghost var visits, more := AllVisits(us[..i]), Visits(WorkspacesOf(us[i]));
        ProcessedInTwoParts(old(Stored()), before, Stored(), clean, failures == f && have, visits, more, mid);
        if failures == old(failures) {
          ReadableUpTo(us, i);
        }
      }
      assert us[..|us|] == us;
    }

    /** What the migration leaves, once the role mid was found (created = 0) or made (created = 1):
        without failures every member of every workspace found through any user has the role, and
        the store is the one computed without skipping any visit. */
    ghost predicate Migrated(before: Store, after: Store, created: nat, clean: bool, mid: Id)
    {
      && Processed(Store(before.perms, before.next + created, before.saves + created), after, clean, AllVisits(users), mid)
      && (clean ==> AllVisitsReadable(users))
    }

    method ProcessAllUsers(mid: Id) returns (ok: bool)
      requires Valid()
      modifies this`perms, this`next, this`calls, this`failures, this`saves
      ensures Valid() && failures >= old(failures)
      ensures if ok then Migrated(old(Stored()), Stored(), 0, failures == old(failures), mid)
        else failures > old(failures) && Stored() == old(Stored())
    {
      var us := FindAllUsers();
      if us.None? {
        return false;
      }
      ProcessUsers(us.value, mid);
      ok := true;
    }

    /** The whole migration.  It reports an error only when it could not start; later failures
        are logged and passed over. */
    method RunMigration() returns (mid: Option<Id>)
      requires Valid()
      modifies this`roles, this`perms, this`next, this`calls, this`failures, this`saves
      ensures Valid() && failures >= old(failures)
      ensures mid.None? ==> failures > old(failures) && perms == old(perms)
      ensures mid.None? && FirstMaintainer(old(roles)).Some? ==> roles == old(roles) && Stored() == old(Stored())
      ensures mid.Some? ==>
        var created := if FirstMaintainer(old(roles)).None? then 1 else 0;
        && FirstMaintainer(roles) == mid && (created == 0 ==> roles == old(roles))
        && Migrated(old(Stored()), Stored(), created, failures == old(failures), mid.value)
      ensures old(roles) <= roles && |roles| <= |old(roles)| + 1
      ensures mid.Some? ==> FoundOrMade(old(roles), roles, mid.value)
    {
      mid := FindOrCreateMaintainer();
      if mid.None? {
        return;
      }
      ghost var start, f := Stored(), failures;
      var ok := ProcessAllUsers(mid.value);
      if ok {
        MigratedFrom(old(Stored()), start, Stored(), if FirstMaintainer(old(roles)).None? then 1 else 0, failures == f, mid.value);
      } else {
        mid := None;
      }
    }

    lemma MigratedFrom(before: Store, start: Store, after: Store, created: nat, clean: bool, mid: Id)
      requires start == Store(before.perms, before.next + created, before.saves + created) && Migrated(start, after, 0, clean, mid)
      ensures Migrated(before, after, created, clean, mid)
    {
    }
  }

  /** Whatever fails and wherever: no role is removed, workspace roles stay, the maintainer role is
      added at most once to a permittable, and no user gets a second permittable. */
  method MigrationLosesNothing(repos: Repos) returns (mid: Option<Id>)
    requires repos.Valid() && AtMostOne(repos.perms)
    modifies repos
    ensures AtMostOne(repos.perms)
    ensures if mid.None? then repos.perms == old(repos.perms) else Evolved(old(repos.perms), repos.perms, mid.value)
  {
    mid := repos.RunMigration();
  }

  /** Role i is the first one with the name of the maintainer role. */
  predicate IsFirstNamed(roles: seq<Role>, i: nat)
    requires i < |roles|
  {
    roles[i].name == "maintainer" && forall k :: 0 <= k < i ==> roles[k].name != "maintainer"
  }

  /** The identifier is that of the first role named maintainer, and such a role was added exactly when
      there was none. */
  ghost predicate FoundOrMade(before: seq<Role>, after: seq<Role>, id: Id)
  {
    && (exists i :: 0 <= i < |after| && IsFirstNamed(after, i) && after[i].id == id)
    && after == before + if exists r <- before :: r.name == "maintainer" then [] else [Role(id, "maintainer")]
  }

  lemma {:induction false} FirstMaintainerIff(roles: seq<Role>)
    ensures FirstMaintainer(roles).Some? <==> exists r <- roles :: r.name == "maintainer"
  {
    if roles != [] {
      FirstMaintainerIff(roles[1..]);
      assert roles == [roles[0]] + roles[1..];
    }
  }

  /** Whatever fails and wherever, only users and integrations of a workspace of some user get a
      permittable, or the role in theirs. */
  method MigrationGrantsOnlyToMembers(repos: Repos) returns (mid: Option<Id>)
    requires repos.Valid()
    modifies repos
    ensures forall k :: k in repos.perms && (k !in old(repos.perms) || repos.perms[k] != old(repos.perms)[k]) ==>
      exists u <- repos.users :: WorksWith(repos.workspaces, repos.asUser, u, repos.perms[k].userId)
  {
    mid := repos.RunMigration();
    if mid.Some? {
      forall k | k in repos.perms && (k !in old(repos.perms) || repos.perms[k] != old(repos.perms)[k])
        ensures exists u <- repos.users :: WorksWith(repos.workspaces, repos.asUser, u, repos.perms[k].userId)
      {
        var m := repos.perms[k].userId;
        repos.AllVisitsIff(repos.users, m);
        var u :| u in repos.users && repos.SharesWorkspace(u, m);
        var w :| w in repos.workspaces && u in w.userIds && m in repos.MembersOf(w);
        ConvertedIff(w.integrationIds, repos.asUser, m);
        assert WorksWith(repos.workspaces, repos.asUser, u, m);
      }
    }
  }

  /** u is a user, and m a user or an integration, of one workspace. */
  ghost predicate WorksWith(workspaces: seq<Workspace>, asUser: Id -> Option<Id>, u: Id, m: Id)
  {
    exists w <- workspaces :: u in w.userIds && (m in w.userIds || exists i <- w.integrationIds :: asUser(i) == Some(m))
  }

  /** When nothing fails, every user and every integration of every workspace of a user holds the
      maintainer role. */
  method MigrationReachesEverybody(repos: Repos) returns (clean: bool, maintainer: Id)
    requires repos.Valid()
    modifies repos
    ensures clean ==> exists i :: 0 <= i < |repos.roles| && IsFirstNamed(repos.roles, i) && repos.roles[i].id == maintainer
    ensures clean ==> forall u <- repos.users, w <- repos.workspaces | u in w.userIds ::
      && (forall m <- w.userIds :: Has(repos.perms, m, maintainer))
      && forall i <- w.integrationIds :: repos.asUser(i).Some? && Has(repos.perms, repos.asUser(i).value, maintainer)
  {
    var f := repos.failures;
    var mid := repos.RunMigration();
    clean, maintainer := repos.failures == f, if mid.Some? then mid.value else NilId;
    if clean {
      forall u <- repos.users, w <- repos.workspaces | u in w.userIds
        ensures (forall m <- w.userIds :: Has(repos.perms, m, maintainer))
        ensures forall i <- w.integrationIds :: repos.asUser(i).Some? && Has(repos.perms, repos.asUser(i).value, maintainer)
      {
        AllOfWorkspaceHave(repos, u, w, maintainer);
      }
    }
  }

  lemma AllOfWorkspaceHave(repos: Repos, u: Id, w: Workspace, mid: Id)
    requires u in repos.users && w in repos.workspaces && u in w.userIds
    requires AllHave(repos.perms, repos.AllVisits(repos.users), mid) && repos.AllVisitsReadable(repos.users)
    ensures forall m <- w.userIds :: Has(repos.perms, m, mid)
    ensures forall i <- w.integrationIds :: repos.asUser(i).Some? && Has(repos.perms, repos.asUser(i).value, mid)
  {
    assert repos.Readable(w);
    forall m <- repos.MembersOf(w) ensures Has(repos.perms, m, mid) {
      assert repos.SharesWorkspace(u, m);
      repos.AllVisitsIff(repos.users, m);
    }
    forall i <- w.integrationIds ensures repos.asUser(i).Some? && Has(repos.perms, repos.asUser(i).value, mid) {
      ConvertedIff(w.integrationIds, repos.asUser, repos.asUser(i).value);
    }
  }

  /** A user whose workspaces could not be found is passed over; the run is not clean any more. */
  lemma VisitsPassedOver(a: Store, b: Store, clean: bool, us: seq<Id>, vs: seq<Id>, mid: Id)
    requires Processed(a, b, clean, us, mid)
    ensures Processed(a, b, false, us + vs, mid)
  {
    assert forall u :: u in us ==> u in us + vs;
  }

  lemma {:induction false} OfUserIff(ws: seq<Workspace>, u: Id, w: Workspace)
    ensures w in OfUser(ws, u) <==> w in ws && u in w.userIds
  {
    if ws != [] {
      OfUserIff(ws[..|ws| - 1], u, w);
      assert ws == ws[..|ws| - 1] + [ws[|ws| - 1]];
    }
  }

  /** Running the migration again after a run without failures saves nothing and changes nothing,
      even when calls of the second run fail. */
  method RunTwice(repos: Repos) returns (clean: bool, between: Table, saved: int)
    requires repos.Valid() && AtMostOne(repos.perms)
    modifies repos
    ensures clean ==> repos.perms == between && saved == 0
    ensures clean ==> exists mid :: Evolved(old(repos.perms), between, mid) && AllSettled(between, repos.AllVisits(repos.users), mid)
  {
    var f := repos.failures;
    var first := repos.RunMigration();
    clean, between := repos.failures == f, repos.perms;
    var saves := repos.saves;
    if clean {
      MembersSettled(repos.perms, repos.AllVisits(repos.users), first.value);
    }
    var again := repos.RunMigration();
    saved := repos.saves - saves;
  }

  ghost function OfUser(ws: seq<Workspace>, u: Id): seq<Workspace>
  {
    if ws == [] then []
    else OfUser(ws[..|ws| - 1], u) + if u in ws[|ws| - 1].userIds then [ws[|ws| - 1]] else []
  }

  ghost function Converted(ids: seq<Id>, asUser: Id -> Option<Id>): seq<Id>
  {
    if ids == [] then []
    else
      var u := asUser(ids[|ids| - 1]);
      Converted(ids[..|ids| - 1], asUser) + if u.Some? then [u.value] else []
  }

  ghost predicate AllReadable(ids: seq<Id>, asUser: Id -> Option<Id>) { forall i <- ids :: asUser(i).Some? }

  lemma ConvertedExtends(ids: seq<Id>, i: nat, asUser: Id -> Option<Id>)
    requires i < |ids|
    ensures Converted(ids[..i + 1], asUser) == Converted(ids[..i], asUser) + Converted([ids[i]], asUser)
    ensures AllReadable(ids[..i], asUser) && asUser(ids[i]).Some? ==> AllReadable(ids[..i + 1], asUser)
  {
    assert ids[..i + 1][..i] == ids[..i] && [ids[i]][..0] == [];
  }

  lemma {:induction false} ConvertedIff(ids: seq<Id>, asUser: Id -> Option<Id>, u: Id)
    ensures u in Converted(ids, asUser) <==> exists i <- ids :: asUser(i) == Some(u)
  {
    if ids != [] {
      ConvertedIff(ids[..|ids| - 1], asUser, u);
      assert ids == ids[..|ids| - 1] + [ids[|ids| - 1]];
    }
  }

  lemma AllKeep(us: seq<Id>, a: Table, b: Table, mid: Id)
    requires Evolved(a, b, mid)
    ensures AllHave(a, us, mid) ==> AllHave(b, us, mid)
  {
    forall u <- us ensures Has(a, u, mid) ==> Has(b, u, mid) {
      if Has(a, u, mid) {
        EvolvedKeepsHas(a, b, mid, u);
      }
    }
  }

  lemma MembersSettled(perms: Table, us: seq<Id>, mid: Id)
    requires AtMostOne(perms) && AllHave(perms, us, mid)
    ensures AllSettled(perms, us, mid)
  {
    forall u <- us ensures Settled(perms, u, mid) {
      HasIsSettled(perms, u, mid);
    }
  }

  function FirstMaintainer(roles: seq<Role>): Option<Id>
  {
    if roles == [] then None else if roles[0].name == Maintainer then Some(roles[0].id) else FirstMaintainer(roles[1..])
  }

  lemma {:induction false} FirstOfExtended(roles: seq<Role>, r: Role)
    requires r.name == Maintainer
    ensures FirstMaintainer(roles + [r]) == if FirstMaintainer(roles).Some? then FirstMaintainer(roles) else Some(r.id)
  {
    if roles != [] {
      FirstOfExtended(roles[1..], r);
      assert (roles + [r])[1..] == roles[1..] + [r];
    }
  }
}
