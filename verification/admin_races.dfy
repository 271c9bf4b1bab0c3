/** Races between the use cases that change administrators: two demotions of the last two, and
    interleavings that leave no system administrator or no approved user. */
module AdminRaces {
  import opened AdminStore
  import opened AdminUsers
  import opened Ids

  // ----- two racing demotions

  /** A client that demotes t, in a race from the data `base`. */
  ghost predicate Racer(client: Client, t: Id, base: Data)
    requires t in base
  {
    match client
    case Idle => true
    case Loaded(job, copy, was) =>
      && job == Job.SetRole(t, Viewer) && was == base[t]
      && copy.id == t && copy.email == base[t].email && !IsSystemAdmin(copy)
    case Ended(o) => o == Saved || o == Refused
    case _ => false
  }

  ghost predicate RaceStart(s: State, x: Id, y: Id)
  {
    && x != y && x in s.data && y in s.data && KeyedById(s.data)
    && (forall k :: k in s.data ==> (IsSystemAdmin(s.data[k]) <==> k == x || k == y))
    && (forall k, l :: k in s.data && l in s.data && k != l ==> s.data[k].email != s.data[l].email)
    && s.clients == map[0 := Idle, 1 := Idle]
  }

  ghost predicate RaceInv(s: State, base: Data, x: Id, y: Id)
    requires x in base && y in base
  {
    && s.data.Keys == base.Keys && s.clients.Keys == {0, 1}
    && Racer(s.clients[0], x, base) && Racer(s.clients[1], y, base)
    && (forall k :: k in base ==> s.data[k].id == k && s.data[k].email == base[k].email)
    && (forall k :: k in base && k != x && k != y ==> s.data[k] == base[k])
    && (if s.clients[0] == Ended(Saved) then !IsSystemAdmin(s.data[x]) else s.data[x] == base[x])
    && (if s.clients[1] == Ended(Saved) then !IsSystemAdmin(s.data[y]) else s.data[y] == base[y])
    && !(s.clients[0] == Ended(Saved) && s.clients[1] == Ended(Saved))
    && (s.clients[0] == Ended(Refused) ==> s.clients[1] == Ended(Saved))
    && (s.clients[1] == Ended(Refused) ==> s.clients[0] == Ended(Saved))
  }

  /** In a race a save succeeds exactly while the other administrator is still one. */
  lemma RaceSaveOutcome(s: State, base: Data, x: Id, y: Id, step: Step)
    requires RaceStart(State(base, map[0 := Idle, 1 := Idle]), x, y) && RaceInv(s, base, x, y)
    requires Enabled(s, step) && step.Save?
    ensures var u, other := s.clients[step.c].copy, if step.c == 0 then y else x;
      && u.id == (if step.c == 0 then x else y) && u.email == base[u.id].email && !IsSystemAdmin(u)
      && GuardedStore(s.data, u, Guard(s.clients[step.c]))
         == if IsSystemAdmin(s.data[other]) then (s.data[u.id := u], Saved) else (s.data, Refused)
  {
    var u := s.clients[step.c].copy;
    var other := if step.c == 0 then y else x;
    assert !Taken(s.data, u);
    assert Guard(s.clients[step.c]);
    assert HasOther(s.data, u.id) <==> IsSystemAdmin(s.data[other]);
  }

  lemma RaceSaveOfFirst(s: State, base: Data, x: Id, y: Id)
    requires RaceStart(State(base, map[0 := Idle, 1 := Idle]), x, y) && RaceInv(s, base, x, y)
    requires Enabled(s, Save(0))
    ensures RaceInv(Next(s, Save(0)), base, x, y)
  {
    RaceSaveOutcome(s, base, x, y, Save(0));
  }

  lemma RaceSaveOfSecond(s: State, base: Data, x: Id, y: Id)
    requires RaceStart(State(base, map[0 := Idle, 1 := Idle]), x, y) && RaceInv(s, base, x, y)
    requires Enabled(s, Save(1))
    ensures RaceInv(Next(s, Save(1)), base, x, y)
  {
    RaceSaveOutcome(s, base, x, y, Save(1));
  }

  lemma RaceLoad(s: State, base: Data, x: Id, y: Id, step: Step)
    requires RaceStart(State(base, map[0 := Idle, 1 := Idle]), x, y) && RaceInv(s, base, x, y)
    requires Enabled(s, step) && step.Load? && step.job == Job.SetRole(if step.c == 0 then x else y, Viewer)
    ensures RaceInv(Next(s, step), base, x, y)
  {
  }

  ghost predicate OnlyDemotions(steps: seq<Step>, x: Id, y: Id)
  {
    forall j :: 0 <= j < |steps| ==>
      && !steps[j].Create?
      && (steps[j].Load? ==> steps[j].job == Job.SetRole(if steps[j].c == 0 then x else y, Viewer))
  }

  lemma {:induction false} RaceKept(run: seq<State>, steps: seq<Step>, x: Id, y: Id, i: nat)
    requires IsRun(run, steps) && RaceStart(run[0], x, y) && i < |run| && OnlyDemotions(steps, x, y)
    ensures RaceInv(run[i], run[0].data, x, y)
  {
    if i > 0 {
      RaceKept(run, steps, x, y, i - 1);
      var s, step := run[i - 1], steps[i - 1];
      assert Enabled(s, step) && run[i - 1 + 1] == Next(s, step);
      if step == Save(0) {
        RaceSaveOfFirst(s, run[0].data, x, y);
      } else if step == Save(1) {
        RaceSaveOfSecond(s, run[0].data, x, y);
      } else {
        RaceLoad(s, run[0].data, x, y, step);
      }
    }
  }

  /** Two use cases that demote the last two system administrators, interleaved in any way: when
      both have ended, exactly one was saved and the other was refused. */
  lemma RacingDemotions(run: seq<State>, steps: seq<Step>, x: Id, y: Id)
    requires IsRun(run, steps) && RaceStart(run[0], x, y) && OnlyDemotions(steps, x, y)
    requires var s := run[|run| - 1]; s.clients.Keys == {0, 1} && s.clients[0].Ended? && s.clients[1].Ended?
    ensures var s := run[|run| - 1];
      {s.clients[0].outcome, s.clients[1].outcome} == {Saved, Refused} && HasAdmin(s.data)
  {
    RaceKept(run, steps, x, y, |run| - 1);
    var s := run[|run| - 1];
    assert IsSystemAdmin(s.data[if s.clients[0] == Ended(Saved) then y else x]);
  }

  // ----- interleavings that leave no administrator

  /** One of two approved users, 1 and 2. */
  function User(id: Id, role: AdminRole, status: Status): Record
  {
    Record(id, "n", if id == 1 then "a" else "b", "", role, status, NilId, 1, 1)
  }

  function Two(one: Record, two: Record): Data { map[1 := one, 2 := two] }

  lemma TwoFacts(one: Record, two: Record, u: Record)
    requires one.id == 1 && two.id == 2 && one.email != two.email
    requires (u.id == 1 && u.email == one.email) || (u.id == 2 && u.email == two.email)
    ensures HasOther(Two(one, two), u.id) <==> IsSystemAdmin(if u.id == 1 then two else one)
    ensures HasAdmin(Two(one, two)) <==> IsSystemAdmin(one) || IsSystemAdmin(two)
    ensures Stored(Two(one, two), u) == (if u.id == 1 then Two(u, two) else Two(one, u), Saved)
  {
    var data := Two(one, two);
    assert data[1] == one && data[2] == two;
    assert !Taken(data, u);
    assert (if u.id == 1 then Two(u, two) else Two(one, u)) == data[u.id := u];
  }

  const NoClients: map<nat, Client> := map[0 := Idle, 1 := Idle, 2 := Idle]

  /** A run from the records one and two, with the records it has reached. */
  ghost predicate Reaches(run: seq<State>, steps: seq<Step>, one: Record, two: Record, clients: map<nat, Client>)
  {
    && IsRun(run, steps) && run[|run| - 1] == State(Two(one, two), clients)
    && one.id == 1 && two.id == 2 && one.email == "a" && two.email == "b"
  }

  lemma Start(one: Record, two: Record) returns (run: seq<State>, steps: seq<Step>)
    requires one.id == 1 && two.id == 2 && one.email == "a" && two.email == "b"
    ensures Reaches(run, steps, one, two, NoClients) && run == [State(Two(one, two), NoClients)] && steps == []
  {
    run, steps := [State(Two(one, two), NoClients)], [];
    assert KeyedById(Two(one, two));
  }

  lemma Extend(run: seq<State>, steps: seq<Step>, step: Step, s: State) returns (run': seq<State>, steps': seq<Step>)
    requires IsRun(run, steps) && Enabled(run[|run| - 1], step) && s == Next(run[|run| - 1], step)
    ensures run' == run + [s] && steps' == steps + [step] && IsRun(run', steps')
  {
    run', steps' := run + [s], steps + [step];
    forall i | 0 <= i < |steps'| ensures Enabled(run'[i], steps'[i]) && run'[i + 1] == Next(run'[i], steps'[i]) {
      if i < |steps| {
        assert Enabled(run[i], steps[i]) && run[i + 1] == Next(run[i], steps[i]);
      }
    }
  }

  lemma ThenLoad(run: seq<State>, steps: seq<Step>, one: Record, two: Record, clients: map<nat, Client>, c: nat, job: Job)
    returns (run': seq<State>, steps': seq<Step>, clients': map<nat, Client>)
    requires Reaches(run, steps, one, two, clients)
    requires c in clients && clients[c].Idle? && Acceptable(job) && (job.target == 1 || job.target == 2)
    requires HasChange(job, if job.target == 1 then one else two)
    ensures var was := if job.target == 1 then one else two; clients' == clients[c := Loaded(job, Changed(job, was, 1), was)]
    ensures Reaches(run', steps', one, two, clients') && steps' == steps + [Load(c, job, 1)] && run'[0] == run[0]
  {
    var was := if job.target == 1 then one else two;
    clients' := clients[c := Loaded(job, Changed(job, was, 1), was)];
    assert Two(one, two)[1] == one && Two(one, two)[2] == two;
    run', steps' := Extend(run, steps, Load(c, job, 1), State(Two(one, two), clients'));
  }

  lemma ThenCheck(run: seq<State>, steps: seq<Step>, one: Record, two: Record, clients: map<nat, Client>, c: nat)
    returns (run': seq<State>, steps': seq<Step>, clients': map<nat, Client>)
    requires Reaches(run, steps, one, two, clients)
    requires c in clients && clients[c].Loaded? && NeedsCheck(clients[c].job) && (clients[c].job.target == 1 || clients[c].job.target == 2)
    requires IsSystemAdmin(one) && IsSystemAdmin(two)
    ensures clients' == clients[c := Checked(clients[c].job, clients[c].copy, clients[c].was)]
    ensures Reaches(run', steps', one, two, clients') && steps' == steps + [Check(c)] && run'[0] == run[0]
  {
    var job := clients[c].job;
    var data := Two(one, two);
    clients' := clients[c := Checked(job, clients[c].copy, clients[c].was)];
    assert HasOther(data, job.target) by { assert data[3 - job.target] == if job.target == 1 then two else one; }
    assert |ApprovedIds(data)| > 1 by {
      assert data[1] == one && data[2] == two;
      assert ApprovedIds(data) == {1, 2};
    }
    run', steps' := Extend(run, steps, Check(c), State(data, clients'));
  }

  lemma ThenSave(run: seq<State>, steps: seq<Step>, one: Record, two: Record, clients: map<nat, Client>, c: nat, one': Record, two': Record)
    returns (run': seq<State>, steps': seq<Step>, clients': map<nat, Client>)
    requires Reaches(run, steps, one, two, clients) && c in clients
    requires Enabled(State(Two(one, two), clients), Save(c))
    requires Guard(clients[c]) ==> IsSystemAdmin(if clients[c].copy.id == 1 then two else one)
    requires var u := clients[c].copy;
      || (u.id == 1 && u.email == "a" && one' == u && two' == two)
      || (u.id == 2 && u.email == "b" && one' == one && two' == u)
    ensures clients' == clients[c := Ended(Saved)]
    ensures Reaches(run', steps', one', two', clients') && steps' == steps + [Save(c)] && run'[0] == run[0]
  {
    TwoFacts(one, two, clients[c].copy);
    clients' := clients[c := Ended(Saved)];
    run', steps' := Extend(run, steps, Save(c), State(Two(one', two'), clients'));
  }

  lemma UserFacts(id: Id)
    ensures IsSystemAdmin(User(id, SystemAdmin, Approved)) && !IsSystemAdmin(User(id, Viewer, Approved))
    ensures Changed(Job.SetRole(id, Viewer), User(id, Viewer, Approved), 1) == User(id, Viewer, Approved)
    ensures Changed(Job.SetRole(id, Viewer), User(id, SystemAdmin, Approved), 1) == User(id, Viewer, Approved)
    ensures Changed(CheckedSetRole(id, Viewer), User(id, SystemAdmin, Approved), 1) == User(id, Viewer, Approved)
    ensures Changed(Job.SetRole(id, SystemAdmin), User(id, Viewer, Approved), 1) == User(id, SystemAdmin, Approved)
  {
    assert SystemAdmin[0] == 's' && Viewer[0] == 'v';
  }

  ghost predicate OnlyRoleChanges(steps: seq<Step>) { forall step <- steps :: step.Load? ==> step.job.SetRole? }

  /** User 1 is read as a viewer by client 0 and for a promotion by client 1. */
  lemma StaleRead() returns (run: seq<State>, steps: seq<Step>, clients: map<nat, Client>)
    ensures Reaches(run, steps, User(1, Viewer, Approved), User(2, SystemAdmin, Approved), clients)
    ensures run[0].data == Two(User(1, Viewer, Approved), User(2, SystemAdmin, Approved)) && OnlyRoleChanges(steps)
    ensures clients == map[0 := Loaded(Job.SetRole(1, Viewer), User(1, Viewer, Approved), User(1, Viewer, Approved)),
                           1 := Loaded(Job.SetRole(1, SystemAdmin), User(1, SystemAdmin, Approved), User(1, Viewer, Approved)),
                           2 := Idle]
  {
    var v1, a2 := User(1, Viewer, Approved), User(2, SystemAdmin, Approved);
    UserFacts(1);
    run, steps := Start(v1, a2);
    clients := NoClients;
    run, steps, clients := ThenLoad(run, steps, v1, a2, clients, 0, Job.SetRole(1, Viewer));
    run, steps, clients := ThenLoad(run, steps, v1, a2, clients, 1, Job.SetRole(1, SystemAdmin));
  }

  /** User 1 is promoted, and user 2 is read for a demotion by client 2. */
  lemma StalePromotion() returns (run: seq<State>, steps: seq<Step>, clients: map<nat, Client>)
    ensures Reaches(run, steps, User(1, SystemAdmin, Approved), User(2, SystemAdmin, Approved), clients)
    ensures run[0].data == Two(User(1, Viewer, Approved), User(2, SystemAdmin, Approved)) && OnlyRoleChanges(steps)
    ensures clients == map[0 := Loaded(Job.SetRole(1, Viewer), User(1, Viewer, Approved), User(1, Viewer, Approved)),
                           1 := Ended(Saved),
                           2 := Loaded(Job.SetRole(2, Viewer), User(2, Viewer, Approved), User(2, SystemAdmin, Approved))]
  {
    var v1, a1, a2 := User(1, Viewer, Approved), User(1, SystemAdmin, Approved), User(2, SystemAdmin, Approved);
    UserFacts(2);
    run, steps, clients := StaleRead();
    run, steps, clients := ThenSave(run, steps, v1, a2, clients, 1, a1, a2);
    run, steps, clients := ThenLoad(run, steps, a1, a2, clients, 2, Job.SetRole(2, Viewer));
  }

  /** Three role changes, each with the guard that the use case computes: the first reads user 1
      as a viewer, then user 1 is promoted and user 2 demoted, and the first one saves its stale
      copy.  No system administrator is left. */
  lemma StaleRoleChangeRemovesLast() returns (run: seq<State>, steps: seq<Step>)
    ensures IsRun(run, steps) && HasAdmin(run[0].data) && !HasAdmin(run[|run| - 1].data)
    ensures OnlyRoleChanges(steps)
  {
    var v1, a1 := User(1, Viewer, Approved), User(1, SystemAdmin, Approved);
    var v2, a2 := User(2, Viewer, Approved), User(2, SystemAdmin, Approved);
    UserFacts(1);
    UserFacts(2);
    TwoFacts(v1, a2, v1);
    TwoFacts(v1, v2, v1);
    var clients;
    run, steps, clients := StalePromotion();
    run, steps, clients := ThenSave(run, steps, a1, a2, clients, 2, a1, v2);
    run, steps, clients := ThenSave(run, steps, a1, v2, clients, 0, v1, v2);
  }

  ghost predicate OnlyCheckedChanges(steps: seq<Step>) { forall step <- steps :: step.Load? ==> step.job.CheckedSetRole? }

  lemma BothRead() returns (run: seq<State>, steps: seq<Step>, clients: map<nat, Client>)
    ensures Reaches(run, steps, User(1, SystemAdmin, Approved), User(2, SystemAdmin, Approved), clients)
    ensures run[0].data == Two(User(1, SystemAdmin, Approved), User(2, SystemAdmin, Approved)) && OnlyCheckedChanges(steps)
    ensures clients == map[0 := Loaded(CheckedSetRole(1, Viewer), User(1, Viewer, Approved), User(1, SystemAdmin, Approved)),
                           1 := Loaded(CheckedSetRole(2, Viewer), User(2, Viewer, Approved), User(2, SystemAdmin, Approved)), 2 := Idle]
  {
    var a1, a2 := User(1, SystemAdmin, Approved), User(2, SystemAdmin, Approved);
    UserFacts(1);
    UserFacts(2);
    run, steps := Start(a1, a2);
    clients := NoClients;
    run, steps, clients := ThenLoad(run, steps, a1, a2, clients, 0, CheckedSetRole(1, Viewer));
    run, steps, clients := ThenLoad(run, steps, a1, a2, clients, 1, CheckedSetRole(2, Viewer));
  }

  lemma OneAsks() returns (run: seq<State>, steps: seq<Step>, clients: map<nat, Client>)
    ensures Reaches(run, steps, User(1, SystemAdmin, Approved), User(2, SystemAdmin, Approved), clients)
    ensures run[0].data == Two(User(1, SystemAdmin, Approved), User(2, SystemAdmin, Approved)) && OnlyCheckedChanges(steps)
    ensures clients == map[0 := Checked(CheckedSetRole(1, Viewer), User(1, Viewer, Approved), User(1, SystemAdmin, Approved)),
                           1 := Loaded(CheckedSetRole(2, Viewer), User(2, Viewer, Approved), User(2, SystemAdmin, Approved)), 2 := Idle]
  {
    var a1, a2 := User(1, SystemAdmin, Approved), User(2, SystemAdmin, Approved);
    UserFacts(1);
    run, steps, clients := BothRead();
    run, steps, clients := ThenCheck(run, steps, a1, a2, clients, 0);
  }

  lemma BothAsk() returns (run: seq<State>, steps: seq<Step>, clients: map<nat, Client>)
    ensures Reaches(run, steps, User(1, SystemAdmin, Approved), User(2, SystemAdmin, Approved), clients)
    ensures run[0].data == Two(User(1, SystemAdmin, Approved), User(2, SystemAdmin, Approved)) && OnlyCheckedChanges(steps)
    ensures clients == map[0 := Checked(CheckedSetRole(1, Viewer), User(1, Viewer, Approved), User(1, SystemAdmin, Approved)),
                           1 := Checked(CheckedSetRole(2, Viewer), User(2, Viewer, Approved), User(2, SystemAdmin, Approved)), 2 := Idle]
  {
    var a1, a2 := User(1, SystemAdmin, Approved), User(2, SystemAdmin, Approved);
    UserFacts(1);
    UserFacts(2);
    run, steps, clients := OneAsks();
    run, steps, clients := ThenCheck(run, steps, a1, a2, clients, 1);
  }

  /** When the demotion asks first and saves later, both demotions of the last two can pass. */
  lemma CheckThenSaveRemovesLast() returns (run: seq<State>, steps: seq<Step>)
    ensures IsRun(run, steps) && HasAdmin(run[0].data) && !HasAdmin(run[|run| - 1].data)
    ensures OnlyCheckedChanges(steps)
  {
    var v1, a1 := User(1, Viewer, Approved), User(1, SystemAdmin, Approved);
    var v2, a2 := User(2, Viewer, Approved), User(2, SystemAdmin, Approved);
    UserFacts(1);
    UserFacts(2);
    var clients;
    run, steps, clients := BothAsk();
    run, steps, clients := ThenSave(run, steps, a1, a2, clients, 0, v1, a2);
    run, steps, clients := ThenSave(run, steps, v1, a2, clients, 1, v1, v2);
    TwoFacts(a1, a2, v1);
    TwoFacts(v1, v2, v1);
  }

  ghost predicate OnlyRejections(steps: seq<Step>) { forall step <- steps :: step.Load? ==> step.job.Reject? }

  lemma BothLoadRejections() returns (run: seq<State>, steps: seq<Step>, clients: map<nat, Client>)
    ensures Reaches(run, steps, User(1, SystemAdmin, Approved), User(2, SystemAdmin, Approved), clients)
    ensures run[0].data == Two(User(1, SystemAdmin, Approved), User(2, SystemAdmin, Approved)) && OnlyRejections(steps)
    ensures clients == map[0 := Loaded(Job.Reject(1, 2), User(2, SystemAdmin, Rejected), User(2, SystemAdmin, Approved)),
                           1 := Loaded(Job.Reject(2, 1), User(1, SystemAdmin, Rejected), User(1, SystemAdmin, Approved)), 2 := Idle]
  {
    var a1, a2 := User(1, SystemAdmin, Approved), User(2, SystemAdmin, Approved);
    run, steps := Start(a1, a2);
    clients := NoClients;
    run, steps, clients := ThenLoad(run, steps, a1, a2, clients, 0, Job.Reject(1, 2));
    run, steps, clients := ThenLoad(run, steps, a1, a2, clients, 1, Job.Reject(2, 1));
  }

  lemma BothCount() returns (run: seq<State>, steps: seq<Step>, clients: map<nat, Client>)
    ensures Reaches(run, steps, User(1, SystemAdmin, Approved), User(2, SystemAdmin, Approved), clients)
    ensures run[0].data == Two(User(1, SystemAdmin, Approved), User(2, SystemAdmin, Approved)) && OnlyRejections(steps)
    ensures clients == map[0 := Checked(Job.Reject(1, 2), User(2, SystemAdmin, Rejected), User(2, SystemAdmin, Approved)),
                           1 := Checked(Job.Reject(2, 1), User(1, SystemAdmin, Rejected), User(1, SystemAdmin, Approved)), 2 := Idle]
  {
    var a1, a2 := User(1, SystemAdmin, Approved), User(2, SystemAdmin, Approved);
    run, steps, clients := BothLoadRejections();
    run, steps, clients := ThenCheck(run, steps, a1, a2, clients, 0);
    run, steps, clients := ThenCheck(run, steps, a1, a2, clients, 1);
  }

  lemma ApprovedOfTwo(one: Record, two: Record)
    ensures ApprovedIds(Two(one, two)) == (if one.status == Approved then {1} else {}) + if two.status == Approved then {2} else {}
  {
    assert Two(one, two)[1] == one && Two(one, two)[2] == two;
  }

  /** Two approved users who reject each other at the same time can both succeed, although each
      counted two approved users before. */
  lemma MutualRejectionsLeaveNobody() returns (run: seq<State>, steps: seq<Step>)
    ensures IsRun(run, steps) && |ApprovedIds(run[0].data)| == 2 && ApprovedIds(run[|run| - 1].data) == {}
    ensures OnlyRejections(steps)
  {
    var a1, a2 := User(1, SystemAdmin, Approved), User(2, SystemAdmin, Approved);
    var r1, r2 := User(1, SystemAdmin, Rejected), User(2, SystemAdmin, Rejected);
    StatusesDiffer();
    ApprovedOfTwo(a1, a2);
    ApprovedOfTwo(r1, r2);
    assert {1} + {2} == {1, 2};
    var clients;
    run, steps, clients := BothCount();
    run, steps, clients := ThenSave(run, steps, a1, a2, clients, 0, a1, r2);
    run, steps, clients := ThenSave(run, steps, a1, r2, clients, 1, r1, r2);
  }

  ghost predicate OnlyUseCases(steps: seq<Step>) { forall step <- steps :: step.Load? ==> !step.job.CheckedSetRole? }

  /** A use case that reads user 2 while it is rejected and does not decide about it. */
  predicate ReadsRejected(stale: Job)
  {
    && stale.target == 2 && Acceptable(stale) && HasChange(stale, User(2, SystemAdmin, Rejected))
    && (stale.SetRole? || (stale.SignIn? && !stale.bootstrap))
  }

  /** User 2 is read while rejected, by a role change or sign-in and for an approval by user 1. */
  lemma ReadTwice(stale: Job) returns (run: seq<State>, steps: seq<Step>, clients: map<nat, Client>)
    requires ReadsRejected(stale)
    ensures Reaches(run, steps, User(1, SystemAdmin, Approved), User(2, SystemAdmin, Rejected), clients)
    ensures run[0].data == Two(User(1, SystemAdmin, Approved), User(2, SystemAdmin, Rejected)) && OnlyUseCases(steps)
    ensures steps != [] && steps[0] == Load(0, stale, 1)
    ensures var was := User(2, SystemAdmin, Rejected);
      clients == map[0 := Loaded(stale, Changed(stale, was, 1), was),
                     1 := Loaded(Job.Approve(1, 2), Changed(Job.Approve(1, 2), was, 1), was), 2 := Idle]
  {
    StatusesDiffer();
    var a1, r2 := User(1, SystemAdmin, Approved), User(2, SystemAdmin, Rejected);
    run, steps := Start(a1, r2);
    clients := NoClients;
    run, steps, clients := ThenLoad(run, steps, a1, r2, clients, 0, stale);
    run, steps, clients := ThenLoad(run, steps, a1, r2, clients, 1, Job.Approve(1, 2));
  }

  lemma ApprovedAgain()
    ensures Changed(Job.Approve(1, 2), User(2, SystemAdmin, Rejected), 1) == User(2, SystemAdmin, Approved).(approvedBy := 1)
  {
    StatusesDiffer();
    assert SystemAdmin[0] == 's';
  }

  /** User 1 approves user 2 again. */
  lemma ReadAndApproved(stale: Job) returns (run: seq<State>, steps: seq<Step>, clients: map<nat, Client>)
    requires ReadsRejected(stale)
    ensures Reaches(run, steps, User(1, SystemAdmin, Approved), User(2, SystemAdmin, Approved).(approvedBy := 1), clients)
    ensures run[0].data == Two(User(1, SystemAdmin, Approved), User(2, SystemAdmin, Rejected)) && OnlyUseCases(steps)
    ensures steps != [] && steps[0] == Load(0, stale, 1)
    ensures var was := User(2, SystemAdmin, Rejected);
      clients == map[0 := Loaded(stale, Changed(stale, was, 1), was), 1 := Ended(Saved), 2 := Idle]
  {
    ApprovedAgain();
    var a1, r2 := User(1, SystemAdmin, Approved), User(2, SystemAdmin, Rejected);
    var again := User(2, SystemAdmin, Approved).(approvedBy := 1);
    run, steps, clients := ReadTwice(stale);
    run, steps, clients := ThenSave(run, steps, a1, r2, clients, 1, a1, again);
  }

  /** User 2 then counts two approved users and rejects user 1, while being approved. */
  lemma ApprovedAndRejecting(stale: Job) returns (run: seq<State>, steps: seq<Step>, clients: map<nat, Client>)
    requires ReadsRejected(stale)
    ensures Reaches(run, steps, User(1, SystemAdmin, Rejected), User(2, SystemAdmin, Approved).(approvedBy := 1), clients)
    ensures run[0].data == Two(User(1, SystemAdmin, Approved), User(2, SystemAdmin, Rejected)) && OnlyUseCases(steps)
    ensures steps != [] && steps[0] == Load(0, stale, 1)
    ensures var was := User(2, SystemAdmin, Rejected);
      clients == map[0 := Loaded(stale, Changed(stale, was, 1), was), 1 := Ended(Saved), 2 := Ended(Saved)]
  {
    StatusesDiffer();
    var a1, r1 := User(1, SystemAdmin, Approved), User(1, SystemAdmin, Rejected);
    var a2 := User(2, SystemAdmin, Approved).(approvedBy := 1);
    run, steps, clients := ReadAndApproved(stale);
    run, steps, clients := ThenLoad(run, steps, a1, a2, clients, 2, Job.Reject(2, 1));
    run, steps, clients := ThenCheck(run, steps, a1, a2, clients, 2);
    run, steps, clients := ThenSave(run, steps, a1, a2, clients, 2, r1, a2);
  }

  /** Mutual rejection is not the only way: a role change or a sign-in that read its target before
      the approval saves it as not approved, and nobody is left. */
  lemma StaleCopyLeavesNobody(stale: Job) returns (run: seq<State>, steps: seq<Step>)
    requires ReadsRejected(stale)
    ensures IsRun(run, steps) && ApprovedIds(run[0].data) == {1} && ApprovedIds(run[|run| - 1].data) == {}
    ensures OnlyUseCases(steps) && steps[0] == Load(0, stale, 1)
  {
    var r1, r2 := User(1, SystemAdmin, Rejected), Changed(stale, User(2, SystemAdmin, Rejected), 1);
    var a2 := User(2, SystemAdmin, Approved).(approvedBy := 1);
    StatusesDiffer();
    ApprovedOfTwo(User(1, SystemAdmin, Approved), User(2, SystemAdmin, Rejected));
    ApprovedOfTwo(r1, r2);
    var clients;
    run, steps, clients := ApprovedAndRejecting(stale);
    run, steps, clients := ThenSave(run, steps, r1, a2, clients, 0, r1, r2);
  }

  lemma StaleRoleChangeLeavesNobody() returns (run: seq<State>, steps: seq<Step>)
    ensures IsRun(run, steps) && ApprovedIds(run[0].data) == {1} && ApprovedIds(run[|run| - 1].data) == {}
    ensures OnlyUseCases(steps) && steps[0] == Load(0, Job.SetRole(2, Viewer), 1)
  {
    run, steps := StaleCopyLeavesNobody(Job.SetRole(2, Viewer));
  }

  /** A sign-in suffices that brings a new name. */
  lemma StaleSignInLeavesNobody() returns (run: seq<State>, steps: seq<Step>)
    ensures IsRun(run, steps) && ApprovedIds(run[0].data) == {1} && ApprovedIds(run[|run| - 1].data) == {}
    ensures OnlyUseCases(steps) && steps[0] == Load(0, SignIn(2, "m", "", false), 1)
  {
    var stale := SignIn(2, "m", "", false);
    assert NewName(stale, User(2, SystemAdmin, Rejected)) == "m" && "m"[0] != "n"[0];
    run, steps := StaleCopyLeavesNobody(stale);
  }
}
