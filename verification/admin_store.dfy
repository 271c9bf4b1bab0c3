/** The store of administrators and the use cases that change it: each use case reads a copy of a
    record, changes the copy and saves it, and the steps of several use cases interleave.  The
    question is whether an approved system administrator is always left. */
module AdminStore {
  import opened AdminUsers
  import opened Ids
  import opened Wrappers

  type Data = map<Id, Record>

  predicate IsSystemAdmin(u: Record) { u.status == Approved && u.role == SystemAdmin }

  /** An approved system administrator other than `id`. */
  ghost predicate HasOther(data: Data, id: Id) { exists k :: k in data && k != id && IsSystemAdmin(data[k]) }

  ghost predicate HasAdmin(data: Data) { exists k :: k in data && IsSystemAdmin(data[k]) }

  ghost predicate Taken(data: Data, u: Record) { exists k :: k in data && k != u.id && data[k].email == u.email }

  /** How a use case ends; Unsaved when it finds nothing to save. */
  datatype Outcome = Saved | Refused | Duplicated | Unsaved

  ghost function Stored(data: Data, u: Record): (Data, Outcome)
  {
    if Taken(data, u) then (data, Duplicated) else (data[u.id := u], Saved)
  }

  /** The contract of the guarded save: check and save are one atomic step. */
  ghost function GuardedStore(data: Data, u: Record, requireOther: bool): (Data, Outcome)
  {
    if requireOther && !HasOther(data, u.id) then (data, Refused) else Stored(data, u)
  }

  /** The in-memory store; every method runs under the store's lock. */
  class Store {
    var data: Data

    constructor ()
      ensures data == map[]
    {
      data := map[];
    }

    method ExistsApprovedSystemAdminExcept(excludeID: Id) returns (found: bool)
      ensures found <==> HasOther(data, excludeID)
      ensures found <==> exists k :: k in data && k != excludeID && data[k].status == "approved" && data[k].role == "system_admin"
    {
      var todo := data.Keys;
      while todo != {}
        invariant todo <= data.Keys
        invariant forall k :: k in data && k !in todo && k != excludeID ==> !IsSystemAdmin(data[k])
        decreases |todo|
      {
        var k :| k in todo;
        todo := todo - {k};
        if k != excludeID && IsSystemAdmin(data[k]) {
          return true;
        }
      }
      found := false;
    }

    method Save(u: Record) returns (outcome: Outcome)
      modifies this
      ensures (data, outcome) == Stored(old(data), u)
      ensures outcome == if exists k :: k in old(data) && k != u.id && old(data)[k].email == u.email then Duplicated else Saved
      ensures data == if outcome == Saved then old(data)[u.id := u] else old(data)
    {
      var todo := data.Keys;
      while todo != {}
        invariant data == old(data) && todo <= data.Keys
        invariant forall k :: k in data && k !in todo && k != u.id ==> data[k].email != u.email
        decreases |todo|
      {
        var k :| k in todo;
        todo := todo - {k};
        if k != u.id && data[k].email == u.email {
          return Duplicated;
        }
      }
      data := data[u.id := u];
      outcome := Saved;
    }

    method SaveGuardingLastSystemAdmin(u: Record, requireOther: bool) returns (outcome: Outcome)
      modifies this
      ensures (data, outcome) == GuardedStore(old(data), u, requireOther)
      ensures outcome == Refused <==>
        requireOther && !exists k :: k in old(data) && k != u.id && old(data)[k].status == "approved" && old(data)[k].role == "system_admin"
      ensures outcome != Refused ==>
        outcome == if exists k :: k in old(data) && k != u.id && old(data)[k].email == u.email then Duplicated else Saved
      ensures data == if outcome == Saved then old(data)[u.id := u] else old(data)
    {
      if requireOther {
        var other := ExistsApprovedSystemAdminExcept(u.id);
        if !other {
          return Refused;
        }
      }
      outcome := Save(u);
    }
  }

  ghost predicate KeyedById(data: Data) { forall k :: k in data ==> data[k].id == k }

  /** A save leaves no approved system administrator exactly when it takes the stored record of
      one out of that state, no other is stored, and neither the guard nor a taken address stops
      it. */
  lemma SaveRemovesLastIff(data: Data, u: Record, requireOther: bool)
    requires HasAdmin(data)
    ensures !HasAdmin(GuardedStore(data, u, requireOther).0) <==>
      !IsSystemAdmin(u) && !HasOther(data, u.id) && !requireOther && !Taken(data, u)
    ensures !HasAdmin(GuardedStore(data, u, requireOther).0) ==> u.id in data && IsSystemAdmin(data[u.id])
  {
    var data' := GuardedStore(data, u, requireOther).0;
    if HasOther(data, u.id) {
      var k :| k in data && k != u.id && IsSystemAdmin(data[k]);
      assert k in data' && IsSystemAdmin(data'[k]);
    }
    if IsSystemAdmin(u) && data' != data {
      assert u.id in data' && IsSystemAdmin(data'[u.id]);
    }
  }

  // ----- saves of any record, whatever it was made from and whenever

  datatype SaveCall = SaveCall(u: Record, requireOther: bool)

  ghost predicate Saves(datas: seq<Data>, calls: seq<SaveCall>)
  {
    && |datas| == |calls| + 1
    && forall i :: 0 <= i < |calls| ==> datas[i + 1] == GuardedStore(datas[i], calls[i].u, calls[i].requireOther).0
  }

  /** A save that takes a stored system administrator out of that state has the guard set. */
  predicate CoveredCall(data: Data, call: SaveCall)
  {
    call.u.id in data && IsSystemAdmin(data[call.u.id]) && !IsSystemAdmin(call.u) ==> call.requireOther
  }

  /** Reading and changing a copy never shows in the store, so this holds of every interleaving of
      read, change and save steps with changes of any kind. */
  lemma {:induction false} CoveredSavesKeepAnAdmin(datas: seq<Data>, calls: seq<SaveCall>, i: nat)
    requires Saves(datas, calls) && HasAdmin(datas[0]) && i < |datas|
    requires forall j :: 0 <= j < |calls| ==> CoveredCall(datas[j], calls[j])
    ensures HasAdmin(datas[i])
  {
    if i > 0 {
      CoveredSavesKeepAnAdmin(datas, calls, i - 1);
      assert CoveredCall(datas[i - 1], calls[i - 1]);
      SaveRemovesLastIff(datas[i - 1], calls[i - 1].u, calls[i - 1].requireOther);
    }
  }

  // ----- use cases as interleaved steps

  /** The use cases that change a stored record.  CheckedSetRole is the demotion that the contract
      argues against: it asks for another administrator first and saves later.  A sign-in brings
      name and picture, each of which may be empty, and knows whether the address is one of the
      bootstrap administrators. */
  datatype Job =
    | SetRole(target: Id, role: AdminRole)
    | CheckedSetRole(target: Id, role: AdminRole)
    | Approve(operator: Id, target: Id)
    | Reject(operator: Id, target: Id)
    | SignIn(target: Id, name: string, picture: string, bootstrap: bool)

  /** A first sign-in, of an address that has no record yet. */
  datatype Account = Account(id: Id, email: string, name: string, picture: string, bootstrap: bool)

  datatype Client =
    | Idle
    | Loaded(job: Job, copy: Record, was: Record)
    | Checked(job: Job, copy: Record, was: Record)
    | Creating(account: Account, copy: Record)
    | Ended(outcome: Outcome)

  datatype State = State(data: Data, clients: map<nat, Client>)

  datatype Step = Load(c: nat, job: Job, now: Time) | Create(c: nat, account: Account, now: Time) | Check(c: nat) | Save(c: nat)

  /** The change a use case makes to its copy. */
  function Changed(job: Job, u: Record, now: Time): Record
  {
    match job
    case SetRole(_, r) => After(u, Op.SetRole(r), now)
    case CheckedSetRole(_, r) => After(u, Op.SetRole(r), now)
    case Approve(o, _) =>
      var a := After(u, Op.Approve(o), now);
      if a.role == "" then After(a, Op.SetRole(Viewer), now) else a
    case Reject(_, _) => After(u, Op.Reject, now)
    case SignIn(_, _, _, bootstrap) =>
      var u1 := if Refreshes(job, u) then After(u, Op.UpdateProfile(NewName(job, u), NewPicture(job, u)), now) else u;
      if bootstrap then Elevated(u1, now) else u1
  }

  function NewName(job: Job, u: Record): string
    requires job.SignIn?
  {
    if job.name != "" then job.name else u.name
  }

  function NewPicture(job: Job, u: Record): string
    requires job.SignIn?
  {
    if job.picture != "" then job.picture else u.pictureURL
  }

  predicate Refreshes(job: Job, u: Record)
    requires job.SignIn?
  {
    NewName(job, u) != u.name || NewPicture(job, u) != u.pictureURL
  }

  /** What a sign-in does to a bootstrap administrator. */
  function Elevated(u: Record, now: Time): Record
  {
    var a := After(u, Op.Approve(NilId), now);
    if a.role != SystemAdmin then After(a, Op.SetRole(SystemAdmin), now) else a
  }

  /** The use case has something to save: an approval of one who is not approved, or a sign-in that
      brings something new and no error, which an empty name would be. */
  predicate HasChange(job: Job, u: Record)
  {
    match job
    case Approve(_, _) => u.status != Approved
    case SignIn(_, _, _, bootstrap) =>
      && (Refreshes(job, u) ==> NewName(job, u) != "")
      && (Refreshes(job, u) || (bootstrap && !IsSystemAdmin(u)))
    case _ => true
  }

  /** The name of a new account: the local part of the address when none is given. */
  function DisplayName(name: string, email: string): string
  {
    if name != "" then name else if LocalPart(email) != "" then LocalPart(email) else email
  }

  function LocalPart(email: string): string
  {
    if email == "" || email[0] == '@' then "" else [email[0]] + LocalPart(email[1..])
  }

  /** The record of a new account, as the builder makes it; the address is normalised already. */
  function NewRecord(a: Account, now: Time): Record
  {
    var role, status := if a.bootstrap then SystemAdmin else "", if a.bootstrap then Approved else Pending;
    Built(Record(a.id, DisplayName(a.name, a.email), a.email, a.picture, role, status, NilId, 0, 0), e => Some(e), now).0
  }

  /** No record and no other account in the making has the identifier, and none has the address. */
  ghost predicate IsNew(s: State, a: Account)
  {
    && a.id != NilId && a.email != "" && a.id !in s.data
    && (forall k :: k in s.data ==> s.data[k].email != a.email)
    && (forall c :: c in s.clients && s.clients[c].Creating? ==> s.clients[c].copy.id != a.id)
  }

  /** What the use case refuses before it touches the store. */
  predicate Acceptable(job: Job)
  {
    match job
    case SetRole(_, r) => ValidAdminRole(r)
    case CheckedSetRole(_, r) => ValidAdminRole(r)
    case Approve(o, t) => o != t
    case Reject(o, t) => o != t
    case SignIn(_, _, _, _) => true
  }

  predicate NeedsCheck(job: Job) { job.Reject? || job.CheckedSetRole? }

  /** The demotion flag, computed from the record as it was read. */
  predicate Demotes(job: Job, was: Record)
  {
    job.SetRole? && IsSystemAdmin(was) && job.role != SystemAdmin
  }

  function ApprovedIds(data: Data): set<Id> { set k | k in data && data[k].status == Approved }

  /** The separate check: another system administrator, or a second approved user. */
  ghost predicate Passes(data: Data, job: Job, was: Record)
  {
    if job.CheckedSetRole? then IsSystemAdmin(was) && job.role != SystemAdmin ==> HasOther(data, job.target)
    else job.Reject? && was.status == Approved ==> |ApprovedIds(data)| > 1
  }

  ghost predicate Enabled(s: State, step: Step)
  {
    && step.c in s.clients
    && match step
       case Load(c, job, now) =>
         s.clients[c].Idle? && Acceptable(job) && job.target in s.data && now > 0
       case Create(c, account, now) => s.clients[c].Idle? && IsNew(s, account) && now > 0
       case Check(c) => s.clients[c].Loaded? && NeedsCheck(s.clients[c].job)
       case Save(c) =>
         || (s.clients[c].Loaded? && !NeedsCheck(s.clients[c].job))
         || s.clients[c].Checked? || s.clients[c].Creating?
  }

  /** The guard flag with which a client saves. */
  function Guard(client: Client): bool { client.Loaded? && Demotes(client.job, client.was) }

  function AfterLoad(job: Job, was: Record, now: Time): Client
  {
    if HasChange(job, was) then Loaded(job, Changed(job, was, now), was) else Ended(Unsaved)
  }

  ghost function Next(s: State, step: Step): State
    requires Enabled(s, step)
  {
    match step
    case Load(c, job, now) =>
      s.(clients := s.clients[c := AfterLoad(job, s.data[job.target], now)])
    case Create(c, account, now) =>
      s.(clients := s.clients[c := Creating(account, NewRecord(account, now))])
    case Check(c) =>
      var l := s.clients[c];
      s.(clients := s.clients[c := if Passes(s.data, l.job, l.was) then Checked(l.job, l.copy, l.was) else Ended(Refused)])
    case Save(c) =>
      var (data, outcome) := GuardedStore(s.data, s.clients[c].copy, Guard(s.clients[c]));
      State(data, s.clients[c := Ended(outcome)])
  }

  ghost predicate CopiesOk(s: State)
  {
    && KeyedById(s.data)
    && (forall c :: c in s.clients ==> ClientOk(s.data, s.clients[c]))
    && (forall c, d :: c in s.clients && d in s.clients && c != d && s.clients[c].Creating? && s.clients[d].Creating? ==>
          s.clients[c].copy.id != s.clients[d].copy.id)
  }

  ghost predicate ClientOk(data: Data, client: Client)
  {
    match client
    case Loaded(job, copy, was) => CopyOk(data, job, copy, was)
    case Checked(job, copy, was) => CopyOk(data, job, copy, was) && NeedsCheck(job)
    case Creating(a, copy) => copy.id == a.id && a.id !in data && exists now :: now > 0 && copy == NewRecord(a, now)
    case _ => true
  }

  ghost predicate CopyOk(data: Data, job: Job, copy: Record, was: Record)
  {
    && job.target in data && copy.id == was.id == job.target
    && (exists now :: now > 0 && copy == Changed(job, was, now))
    && Acceptable(job) && HasChange(job, was)
  }

  ghost predicate IsRun(run: seq<State>, steps: seq<Step>)
  {
    && |run| == |steps| + 1
    && CopiesOk(run[0])
    && forall i :: 0 <= i < |steps| ==> Enabled(run[i], steps[i]) && run[i + 1] == Next(run[i], steps[i])
  }

  predicate Saving(client: Client) { client.Loaded? || client.Checked? || client.Creating? }

  /** The save is covered: it does not take a stored system administrator out of that state, or
      it does so with the guard set. */
  predicate Covered(s: State, step: Step)
    requires step.c in s.clients
  {
    var client := s.clients[step.c];
    step.Save? && Saving(client) ==> CoveredCall(s.data, SaveCall(client.copy, Guard(client)))
  }

  lemma {:induction false} RunKeepsCopies(run: seq<State>, steps: seq<Step>, i: nat)
    requires IsRun(run, steps) && i < |run|
    ensures CopiesOk(run[i]) && run[i].clients.Keys == run[0].clients.Keys
  {
    if i > 0 {
      RunKeepsCopies(run, steps, i - 1);
      var s, step := run[i - 1], steps[i - 1];
      assert Enabled(s, step) && run[i - 1 + 1] == Next(s, step);
      StepKeepsCopies(s, step);
    }
  }

  lemma StepKeepsCopies(s: State, step: Step)
    requires CopiesOk(s) && Enabled(s, step)
    ensures CopiesOk(Next(s, step)) && Next(s, step).clients.Keys == s.clients.Keys
  {
    var s' := Next(s, step);
    match step
    case Load(c, job, now) =>
      assert Changed(job, s.data[job.target], now).id == job.target;
    case Create(c, a, now) =>
      assert NewRecord(a, now).id == a.id;
    case Check(c) =>
      assert ClientOk(s.data, s.clients[c]);
    case Save(c) =>
      assert ClientOk(s.data, s.clients[c]);
      forall d | d in s'.clients ensures ClientOk(s'.data, s'.clients[d]) {
        assert d != c ==> s'.clients[d] == s.clients[d] && ClientOk(s.data, s.clients[d]);
      }
  }

  /** As long as every save is covered, an approved system administrator is stored in every
      state of every interleaving. */
  lemma {:induction false} CoveredRunsKeepAnAdmin(run: seq<State>, steps: seq<Step>, i: nat)
    requires IsRun(run, steps) && i < |run| && HasAdmin(run[0].data)
    requires forall j :: 0 <= j < |steps| ==> Covered(run[j], steps[j])
    ensures HasAdmin(run[i].data)
  {
    if i > 0 {
      CoveredRunsKeepAnAdmin(run, steps, i - 1);
      var s, step := run[i - 1], steps[i - 1];
      assert Enabled(s, step) && run[i - 1 + 1] == Next(s, step) && Covered(s, step);
      if step.Save? {
        SaveRemovesLastIff(s.data, s.clients[step.c].copy, Guard(s.clients[step.c]));
      }
    }
  }

  /** Saving the job leaves an approved system administrator, or is guarded, by what the target
      was when it was read. */
  predicate FitsAdmin(job: Job, was: Record)
  {
    match job
    case SetRole(_, r) => was.status == Approved && (was.role == SystemAdmin || r == SystemAdmin)
    case CheckedSetRole(_, r) => was.status == Approved && r == SystemAdmin
    case Approve(_, _) => was.role == SystemAdmin
    case Reject(_, _) => false
    case SignIn(_, _, _, bootstrap) => bootstrap || IsSystemAdmin(was)
  }

  /** A save is covered exactly when its target is no stored system administrator, or the use case
      fits one as it was read: a role change of an administrator or to one, an approval or a sign-in
      of one, a bootstrap sign-in, and never a rejection. */
  lemma CoveredIff(s: State, step: Step)
    requires CopiesOk(s) && Enabled(s, step) && step.Save?
    ensures var l := s.clients[step.c];
      Covered(s, step) <==> l.Creating? || (IsSystemAdmin(s.data[l.job.target]) ==> FitsAdmin(l.job, l.was))
  {
    var l := s.clients[step.c];
    assert ClientOk(s.data, l);
    if !l.Creating? {
      SavesAdminIff(l.job, l.copy, l.was);
    }
  }

  /** Which use cases save a system administrator. */
  lemma SavesAdminIff(job: Job, copy: Record, was: Record)
    requires Acceptable(job) && HasChange(job, was) && exists now :: now > 0 && copy == Changed(job, was, now)
    ensures IsSystemAdmin(copy) || Demotes(job, was) <==> FitsAdmin(job, was)
    ensures copy.status == Approved <==> !job.Reject? && (ApprovesTarget(job) || was.status == Approved)
  {
    StatusesDiffer();
    assert SystemAdmin[0] == 's' && Viewer[0] == 'v';
    var now :| now > 0 && copy == Changed(job, was, now);
  }

  predicate ApprovesTarget(job: Job) { job.Approve? || (job.SignIn? && job.bootstrap) }

  /** A bootstrap sign-in always leaves a system administrator, unless its address is taken: whoever
      was locked out gets in again. */
  lemma BootstrapRestoresAccess(s: State, step: Step)
    requires CopiesOk(s) && Enabled(s, step) && step.Save?
    requires var l := s.clients[step.c];
      !Taken(s.data, l.copy) && if l.Creating? then l.account.bootstrap else l.job.SignIn? && l.job.bootstrap
    ensures var u := s.clients[step.c].copy;
      var data := Next(s, step).data;
      u.id in data && IsSystemAdmin(data[u.id]) && HasAdmin(data) && ApprovedIds(data) != {}
  {
    var l := s.clients[step.c];
    assert ClientOk(s.data, l);
    StatusesDiffer();
    if l.Loaded? {
      SavesAdminIff(l.job, l.copy, l.was);
    } else if l.Creating? {
      var now :| now > 0 && l.copy == NewRecord(l.account, now);
    }
    var data := Next(s, step).data;
    assert data == s.data[l.copy.id := l.copy];
    assert l.copy.id in ApprovedIds(data);
  }

  /** What each use case saves, field by field: only sign-ins change name and picture, only approvals and
      bootstrap sign-ins of users who are not approved the approval data, and none the address. */
  lemma CopyOfUseCase(job: Job, was: Record, now: Time)
    requires Acceptable(job) && HasChange(job, was)
    ensures var u := Changed(job, was, now);
      && u.id == was.id && u.email == was.email && u.updatedAt == now
      && u.name == (if job.SignIn? && job.name != "" then job.name else was.name)
      && u.pictureURL == (if job.SignIn? && job.picture != "" then job.picture else was.pictureURL)
    ensures Changed(job, was, now).status ==
      match job
      case Approve(_, _) => "approved"
      case Reject(_, _) => "rejected"
      case SignIn(_, _, _, true) => "approved"
      case _ => was.status
    ensures Changed(job, was, now).role ==
      match job
      case SetRole(_, r) => r
      case CheckedSetRole(_, r) => r
      case Approve(_, _) => if was.role == "" then "viewer" else was.role
      case Reject(_, _) => was.role
      case SignIn(_, _, _, bootstrap) => if bootstrap then "system_admin" else was.role
    ensures var u := Changed(job, was, now);
      (u.approvedBy, u.approvedAt) ==
      match job
      case Approve(o, _) => (o, now)
      case SignIn(_, _, _, true) => if was.status != "approved" then (NilId, now) else (was.approvedBy, was.approvedAt)
      case _ => (was.approvedBy, was.approvedAt)
  {
    StatusesDiffer();
    assert SystemAdmin[0] == 's' && Viewer[0] == 'v';
  }

  /** The guarded save refuses a role change exactly when it takes the last system administrator, as it was
      read, out of that state; nothing else is refused when it saves. */
  lemma SaveIsRefusedIff(s: State, c: nat)
    requires CopiesOk(s) && Enabled(s, Save(c))
    ensures var l := s.clients[c];
      Next(s, Save(c)).clients[c] == Ended(Refused) <==>
        && l.Loaded? && l.job.SetRole? && l.was.status == "approved" && l.was.role == "system_admin" && l.job.role != "system_admin"
        && forall k :: k in s.data && k != l.job.target ==> s.data[k].status != "approved" || s.data[k].role != "system_admin"
  {
    assert ClientOk(s.data, s.clients[c]);
    if s.clients[c].Loaded? {
      assert s.clients[c].copy.id == s.clients[c].job.target;
    }
  }

  /** The count refuses a rejection exactly when it is of an approved user, as it was read, and at most
      one is stored. */
  lemma RejectionIsRefusedIff(s: State, c: nat)
    requires CopiesOk(s) && Enabled(s, Check(c)) && s.clients[c].job.Reject?
    ensures var l := s.clients[c];
      Next(s, Check(c)).clients[c] == Ended(Refused) <==>
        && l.was.status == "approved"
        && forall k, m :: k in s.data && m in s.data && s.data[k].status == "approved" && s.data[m].status == "approved" ==> k == m
  {
    TwoIff(ApprovedIds(s.data));
    assert forall k :: k in ApprovedIds(s.data) <==> k in s.data && s.data[k].status == "approved";
  }

  lemma TwoIff(ids: set<Id>)
    ensures |ids| > 1 <==> exists k, m :: k in ids && m in ids && k != m
  {
    if |ids| > 1 {
      var k :| k in ids;
      assert |ids - {k}| == |ids| - 1;
      var m :| m in ids - {k};
      assert k in ids && m in ids && k != m;
    }
    if k, m :| k in ids && m in ids && k != m {
      assert ids == {k, m} + (ids - {k, m});
    }
  }

  /** When a use case does not save: an approval of one who is approved, and a sign-in that brings neither
      a new name nor a new picture and makes nobody an administrator, or would leave the name empty. */
  lemma NothingToSaveIff(job: Job, was: Record)
    ensures !HasChange(job, was) <==>
      match job
      case Approve(_, _) => was.status == "approved"
      case SignIn(_, name, picture, bootstrap) =>
        var news := (name != "" && name != was.name) || (picture != "" && picture != was.pictureURL);
        if news then name == "" && was.name == ""
        else !bootstrap || (was.status == "approved" && was.role == "system_admin")
      case _ => false
  {
  }

  /** The builder never refuses the record of a new account: it is approved with a time for a
      bootstrap address, and otherwise pending without a role.  The name is the one given, or what
      comes before the at sign of the address. */
  lemma NewRecordIsGood(a: Account, now: Time)
    requires a.id != NilId && a.email != "" && now > 0
    ensures var u := NewRecord(a, now);
      && Good(u) && u.id == a.id && u.email == a.email && u.pictureURL == a.picture
      && u.approvedBy == NilId && u.updatedAt == now
      && (if a.bootstrap then u.status == "approved" && u.role == "system_admin" && u.approvedAt == now
          else u.status == "pending" && u.role == "" && u.approvedAt == 0)
      && (a.name != "" ==> u.name == a.name)
      && (a.name == "" && a.email[0] == '@' ==> u.name == a.email)
      && (a.name == "" && a.email[0] != '@' ==>
            u.name <= a.email && '@' !in u.name && (|u.name| < |a.email| ==> a.email[|u.name|] == '@'))
  {
    StatusesDiffer();
    LocalPartIff(a.email);
  }

  lemma {:induction false} LocalPartIff(email: string)
    ensures LocalPart(email) <= email && '@' !in LocalPart(email)
    ensures |LocalPart(email)| < |email| ==> email[|LocalPart(email)|] == '@'
    ensures email != "" && email[0] != '@' ==> LocalPart(email) != ""
  {
    if email != "" && email[0] != '@' {
      LocalPartIff(email[1..]);
    }
  }

  // ----- what every stored record keeps

  /** The record is in order, and nobody has approved themselves. */
  predicate Sound(u: Record) { Good(u) && u.approvedBy != u.id }

  ghost predicate AllSound(s: State)
  {
    && (forall k :: k in s.data ==> Sound(s.data[k]))
    && (forall k, l :: k in s.data && l in s.data && k != l ==> s.data[k].email != s.data[l].email)
    && (forall c :: c in s.clients && Saving(s.clients[c]) ==> Sound(s.clients[c].copy))
  }

  lemma CopyIsSound(job: Job, was: Record, now: Time)
    requires Sound(was) && Acceptable(job) && HasChange(job, was) && was.id == job.target && now > 0
    ensures Sound(Changed(job, was, now))
  {
    CopyOfUseCase(job, was, now);
    StatusesDiffer();
  }

  /** Over every interleaving of the use cases, every stored record stays in order: its status, its role
      and its approval data fit together, nobody is approved by themselves, and no two records have
      one address. */
  lemma {:induction false} RunsStaySound(run: seq<State>, steps: seq<Step>, i: nat)
    requires IsRun(run, steps) && AllSound(run[0]) && i < |run|
    ensures AllSound(run[i])
  {
    if i > 0 {
      RunsStaySound(run, steps, i - 1);
      RunKeepsCopies(run, steps, i - 1);
      assert Enabled(run[i - 1], steps[i - 1]) && run[i - 1 + 1] == Next(run[i - 1], steps[i - 1]);
      StepKeepsSound(run[i - 1], steps[i - 1]);
    }
  }

  lemma StepKeepsSound(s: State, step: Step)
    requires CopiesOk(s) && AllSound(s) && Enabled(s, step)
    ensures AllSound(Next(s, step))
  {
    match step
    case Load(c, job, now) =>
      if HasChange(job, s.data[job.target]) {
        CopyIsSound(job, s.data[job.target], now);
      }
    case Create(c, a, now) => NewRecordIsGood(a, now);
    case Check(c) =>
    case Save(c) => SaveKeepsSound(s, c);
  }

  lemma SaveKeepsSound(s: State, c: nat)
    requires CopiesOk(s) && AllSound(s) && Enabled(s, Save(c))
    ensures AllSound(Next(s, Save(c)))
  {
    var u, data := s.clients[c].copy, Next(s, Save(c)).data;
    if data != s.data {
      assert data == s.data[u.id := u] && !Taken(s.data, u);
    }
  }

  // ----- whether an approved user is left

  /** A save leaves no approved user exactly when it takes the only one stored out of that state,
      and neither the guard nor a taken address stops it. */
  lemma SaveRemovesLastApprovedIff(data: Data, u: Record, requireOther: bool)
    requires ApprovedIds(data) != {}
    ensures ApprovedIds(GuardedStore(data, u, requireOther).0) == {} <==>
      u.status != Approved && ApprovedIds(data) == {u.id} && !Taken(data, u) && !(requireOther && !HasOther(data, u.id))
  {
    var data' := GuardedStore(data, u, requireOther).0;
    if data' != data {
      assert ApprovedIds(data') == ApprovedIds(data) - {u.id} + if u.status == Approved then {u.id} else {};
    }
  }

  /** The client saves its target as not approved: it rejects it, or it neither rejects nor approves
      it and has read it as not approved. */
  predicate Unapproves(client: Client)
  {
    (client.Loaded? || client.Checked?) && !ApprovesTarget(client.job) && (client.job.Reject? || client.was.status != Approved)
  }

  /** The step unapproves the only approved user. */
  ghost predicate LeavesNobody(s: State, step: Step)
    requires Enabled(s, step)
  {
    && step.Save? && Unapproves(s.clients[step.c])
    && ApprovedIds(s.data) == {s.clients[step.c].job.target} && !Taken(s.data, s.clients[step.c].copy)
  }

  lemma StepLeavesNobodyIff(s: State, step: Step)
    requires CopiesOk(s) && Enabled(s, step) && ApprovedIds(s.data) != {}
    ensures ApprovedIds(Next(s, step).data) == {} <==> LeavesNobody(s, step)
  {
    if step.Save? {
      var l := s.clients[step.c];
      assert ClientOk(s.data, l);
      SaveRemovesLastApprovedIff(s.data, l.copy, Guard(l));
      if !l.Creating? {
        SavesAdminIff(l.job, l.copy, l.was);
      }
    }
  }

  lemma StepOf(run: seq<State>, steps: seq<Step>, j: nat)
    requires IsRun(run, steps) && j < |steps|
    ensures CopiesOk(run[j]) && Enabled(run[j], steps[j]) && run[j + 1] == Next(run[j], steps[j])
  {
    RunKeepsCopies(run, steps, j);
  }

  /** No step of the run unapproves the only approved user. */
  ghost predicate NobodyIsLast(run: seq<State>, steps: seq<Step>)
    requires |run| == |steps| + 1
  {
    forall j :: 0 <= j < |steps| && Enabled(run[j], steps[j]) ==> !LeavesNobody(run[j], steps[j])
  }

  lemma {:induction false} ApprovedUpTo(run: seq<State>, steps: seq<Step>, i: nat)
    requires IsRun(run, steps) && ApprovedIds(run[0].data) != {} && NobodyIsLast(run, steps) && i < |run|
    ensures ApprovedIds(run[i].data) != {}
  {
    if i > 0 {
      ApprovedUpTo(run, steps, i - 1);
      StepOf(run, steps, i - 1);
      StepLeavesNobodyIff(run[i - 1], steps[i - 1]);
    }
  }

  /** An approved user is stored in every state of an interleaving exactly when no save unapproves
      the only one. */
  lemma ApprovedUserStaysIff(run: seq<State>, steps: seq<Step>)
    requires IsRun(run, steps) && ApprovedIds(run[0].data) != {}
    ensures (forall s <- run :: ApprovedIds(s.data) != {}) <==> NobodyIsLast(run, steps)
  {
    if NobodyIsLast(run, steps) {
      forall s <- run ensures ApprovedIds(s.data) != {} {
        var i :| 0 <= i < |run| && run[i] == s;
        ApprovedUpTo(run, steps, i);
      }
    } else {
      var j :| 0 <= j < |steps| && Enabled(run[j], steps[j]) && LeavesNobody(run[j], steps[j]);
      StepOf(run, steps, j);
      StepLeavesNobodyIff(run[j], steps[j]);
      assert run[j + 1] in run;
    }
  }

  /** What a caller can check before the save: the operator of a rejection is still approved, and
      a role change or sign-in is not older than the approval of its target. */
  predicate Current(s: State, step: Step)
    requires step.c in s.clients
  {
    var client := s.clients[step.c];
    step.Save? && (client.Loaded? || client.Checked?) ==>
      if client.job.Reject? then client.job.operator in ApprovedIds(s.data)
      else ApprovesTarget(client.job) || client.was.status == Approved || client.job.target !in ApprovedIds(s.data)
  }

  /** In particular a rejection whose operator is still approved leaves somebody. */
  lemma CurrentRunsKeepAnApprovedUser(run: seq<State>, steps: seq<Step>)
    requires IsRun(run, steps) && ApprovedIds(run[0].data) != {}
    requires forall j :: 0 <= j < |steps| ==> steps[j].c in run[j].clients && Current(run[j], steps[j])
    ensures forall s <- run :: ApprovedIds(s.data) != {}
  {
    forall j | 0 <= j < |steps| && Enabled(run[j], steps[j]) ensures !LeavesNobody(run[j], steps[j]) {
      StepOf(run, steps, j);
      assert Current(run[j], steps[j]);
      assert ClientOk(run[j].data, run[j].clients[steps[j].c]);
    }
    ApprovedUserStaysIff(run, steps);
  }

  /** Client c takes no step from i to j. */
  ghost predicate Rests(steps: seq<Step>, c: nat, i: nat, j: nat)
    requires j <= |steps|
  {
    forall k :: i <= k < j ==> steps[k].c != c
  }

  lemma {:induction false} RestingClientStays(run: seq<State>, steps: seq<Step>, c: nat, i: nat, j: nat)
    requires IsRun(run, steps) && i <= j < |run| && Rests(steps, c, i, j) && c in run[i].clients
    ensures c in run[j].clients && run[j].clients[c] == run[i].clients[c]
  {
    if i < j {
      RestingClientStays(run, steps, c, i, j - 1);
      StepOf(run, steps, j - 1);
    }
  }

  /** The count before the rejection suffices when nothing is saved in between: a rejection that
      reads, counts and saves with the store unchanged leaves an approved user. */
  lemma UndisturbedRejectionLeavesSomebody(run: seq<State>, steps: seq<Step>, c: nat, i: nat, j: nat, k: nat)
    requires IsRun(run, steps) && i < j < k < |steps|
    requires steps[i].Load? && steps[i].c == c && steps[i].job.Reject? && steps[j] == Check(c) && steps[k] == Save(c)
    requires Rests(steps, c, i + 1, j) && Rests(steps, c, j + 1, k)
    requires run[i].data == run[j].data == run[k].data && ApprovedIds(run[i].data) != {}
    ensures ApprovedIds(run[k + 1].data) != {}
  {
    StepOf(run, steps, i);
    RestingClientStays(run, steps, c, i + 1, j);
    StepOf(run, steps, j);
    RestingClientStays(run, steps, c, j + 1, k);
    StepOf(run, steps, k);
    StepLeavesNobodyIff(run[k], steps[k]);
    var target := steps[i].job.target;
    assert target in ApprovedIds(run[i].data) ==> |ApprovedIds(run[i].data)| > 1;
  }
}
