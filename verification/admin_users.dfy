/** Administrators of the admin application: their approval status and the builder that makes
    them.  Times are numbers, zero being the unset time. */
module AdminUsers {
  import opened Ids
  import opened Wrappers

  type Time = nat
  type Status = string
  type AdminRole = string

  const Pending: Status := "pending"
  const Approved: Status := "approved"
  const Rejected: Status := "rejected"

  const SystemAdmin: AdminRole := "system_admin"
  const Viewer: AdminRole := "viewer"

  predicate ValidStatus(s: Status) { s in [Pending, Approved, Rejected] }

  predicate ValidAdminRole(r: AdminRole) { r in [SystemAdmin, Viewer] }

  datatype Record = Record(
    id: Id, name: string, email: string, pictureURL: string, role: AdminRole, status: Status,
    approvedBy: Id, approvedAt: Time, updatedAt: Time)

  datatype Error = InvalidID | EmptyName | InvalidEmail | InvalidStatus | InvalidRole

  // ----- what each operation does

  datatype Op = Approve(approver: Id) | Reject | SetRole(role: AdminRole) | UpdateProfile(name: string, pictureURL: string)

  function Apply(u: Record, op: Op, now: Time): Result<Record, Error>
  {
    match op
    case Approve(approver) =>
      Ok(if u.status == Approved then u else u.(status := Approved, approvedBy := approver, approvedAt := now, updatedAt := now))
    case Reject => Ok(u.(status := Rejected, updatedAt := now))
    case SetRole(r) => if ValidAdminRole(r) then Ok(u.(role := r, updatedAt := now)) else Err(InvalidRole)
    case UpdateProfile(n, p) => if n == "" then Err(EmptyName) else Ok(u.(name := n, pictureURL := p, updatedAt := now))
  }

  /** The record after the operation; a refused one changes nothing. */
  function After(u: Record, op: Op, now: Time): Record
  {
    var r := Apply(u, op, now);
    if r.Ok? then r.value else u
  }

  class AdminUser {
    var id: Id
    var name: string
    var email: string
    var pictureURL: string
    var role: AdminRole
    var status: Status
    var approvedBy: Id
    var approvedAt: Time
    var updatedAt: Time

    function State(): Record
      reads this
    {
      Record(id, name, email, pictureURL, role, status, approvedBy, approvedAt, updatedAt)
    }

    constructor ()
      ensures State() == Record(NilId, "", "", "", "", "", NilId, 0, 0)
    {
      id, name, email, pictureURL, role, status := NilId, "", "", "", "", "";
      approvedBy, approvedAt, updatedAt := NilId, 0, 0;
    }

    constructor Copy(u: AdminUser)
      ensures State() == u.State()
    {
      id, name, email, pictureURL, role, status := u.id, u.name, u.email, u.pictureURL, u.role, u.status;
      approvedBy, approvedAt, updatedAt := u.approvedBy, u.approvedAt, u.updatedAt;
    }

    /** A later change of the clone never shows in this user, nor the other way round. */
    method Clone() returns (c: AdminUser)
      ensures fresh(c) && c.State() == State()
    {
      c := new AdminUser.Copy(this);
    }

    method Approve(approver: Id, now: Time)
      modifies this
      ensures State() == After(old(State()), Op.Approve(approver), now)
      ensures old(status) == "approved" ==> State() == old(State())
      ensures old(status) != "approved" ==> status == "approved" && approvedBy == approver && approvedAt == updatedAt == now
      ensures id == old(id) && name == old(name) && email == old(email) && pictureURL == old(pictureURL) && role == old(role)
    {
      if status == Approved {
        return;
      }
      status := Approved;
      approvedBy := approver;
      approvedAt := now;
      updatedAt := now;
    }

    method Reject(now: Time)
      modifies this
      ensures State() == After(old(State()), Op.Reject, now)
      ensures status == "rejected" && updatedAt == now && approvedBy == old(approvedBy) && approvedAt == old(approvedAt)
      ensures id == old(id) && name == old(name) && email == old(email) && pictureURL == old(pictureURL) && role == old(role)
    {
      status := Rejected;
      updatedAt := now;
    }

    method SetRole(r: AdminRole, now: Time) returns (err: Option<Error>)
      modifies this
      ensures State() == After(old(State()), Op.SetRole(r), now)
      ensures err == if r == "system_admin" || r == "viewer" then None else Some(InvalidRole)
      ensures err.Some? ==> State() == old(State())
      ensures err.None? ==> role == r && updatedAt == now
      ensures id == old(id) && name == old(name) && email == old(email) && pictureURL == old(pictureURL)
      ensures status == old(status) && approvedBy == old(approvedBy) && approvedAt == old(approvedAt)
    {
      if !ValidAdminRole(r) {
        return Some(InvalidRole);
      }
      role := r;
      updatedAt := now;
      err := None;
    }

    method UpdateProfile(n: string, p: string, now: Time) returns (err: Option<Error>)
      modifies this
      ensures State() == After(old(State()), Op.UpdateProfile(n, p), now)
      ensures err == if n == "" then Some(EmptyName) else None
      ensures err.Some? ==> State() == old(State())
      ensures err.None? ==> name == n && pictureURL == p && updatedAt == now
      ensures id == old(id) && email == old(email) && role == old(role)
      ensures status == old(status) && approvedBy == old(approvedBy) && approvedAt == old(approvedAt)
    {
      if n == "" {
        return Some(EmptyName);
      }
      name := n;
      pictureURL := p;
      updatedAt := now;
      err := None;
    }
  }

  // ----- the builder

  /** What parsing and normalising an e-mail address gives, if it is one. */
  type Normalizer = string -> Option<string>

  /** The record that Build leaves behind and its error, if any: checks that come later find the
      changes made by those before. */
  function Built(u: Record, normalize: Normalizer, now: Time): (Record, Option<Error>)
  {
    if u.id == NilId then (u, Some(InvalidID))
    else if u.name == "" then (u, Some(EmptyName))
    else if normalize(u.email).None? then (u, Some(InvalidEmail))
    else
      var u1 := u.(email := normalize(u.email).value, status := if u.status == "" then Pending else u.status);
      if !ValidStatus(u1.status) then (u1, Some(InvalidStatus))
      else if u1.role != "" && !ValidAdminRole(u1.role) then (u1, Some(InvalidRole))
      else
        var u2 := u1.(updatedAt := if u1.updatedAt == 0 then now else u1.updatedAt);
        var u3 := if u2.status == Approved && u2.approvedAt == 0 then u2.(approvedAt := u2.updatedAt) else u2;
        (if u3.status == Pending then u3.(approvedAt := 0, approvedBy := NilId) else u3, None)
  }

  class Builder {
    const u: AdminUser

    constructor ()
      ensures fresh(u) && u.State() == Record(NilId, "", "", "", "", "", NilId, 0, 0)
    {
      u := new AdminUser();
    }

    /** Build hands out the builder's own user, not a copy. */
    method Build(normalize: Normalizer, now: Time) returns (r: Result<AdminUser, Error>)
      modifies u
      ensures u.State() == Built(old(u.State()), normalize, now).0
      ensures var e := Built(old(u.State()), normalize, now).1; r == if e.Some? then Err(e.value) else Ok(u)
      ensures r.Ok? && now > 0 ==> Good(u.State())
      // When it is built, and what it is then.
      ensures r.Ok? <==>
        && old(u.id) != NilId && old(u.name) != "" && normalize(old(u.email)).Some?
        && old(u.status) in ["", "pending", "approved", "rejected"] && old(u.role) in ["", "system_admin", "viewer"]
      ensures r.Ok? ==> r.value == u && normalize(old(u.email)) == Some(u.email)
      ensures u.id == old(u.id) && u.name == old(u.name) && u.pictureURL == old(u.pictureURL) && u.role == old(u.role)
      ensures r.Ok? ==>
        && u.status == (if old(u.status) == "" then "pending" else old(u.status))
        && u.updatedAt == (if old(u.updatedAt) == 0 then now else old(u.updatedAt))
        && u.approvedBy == (if u.status == "pending" then NilId else old(u.approvedBy))
        && u.approvedAt == if u.status == "pending" then 0
                           else if u.status == "approved" && old(u.approvedAt) == 0 then u.updatedAt
                           else old(u.approvedAt)
      // The first check that fails.
      ensures old(u.id) == NilId ==> r == Err(InvalidID)
      ensures old(u.id) != NilId && old(u.name) == "" ==> r == Err(EmptyName)
      ensures old(u.id) != NilId && old(u.name) != "" && normalize(old(u.email)).None? ==> r == Err(InvalidEmail)
      ensures r.Err? && old(u.id) != NilId && old(u.name) != "" && normalize(old(u.email)).Some? ==>
        r.error == if old(u.status) in ["", "pending", "approved", "rejected"] then InvalidRole else InvalidStatus
    {
      StatusesDiffer();
      if u.id == NilId {
        return Err(InvalidID);
      }
      if u.name == "" {
        return Err(EmptyName);
      }
      var email := normalize(u.email);
      if email.None? {
        return Err(InvalidEmail);
      }
      u.email := email.value;
      if u.status == "" {
        u.status := Pending;
      }
      if !ValidStatus(u.status) {
        return Err(InvalidStatus);
      }
      if u.role != "" && !ValidAdminRole(u.role) {
        return Err(InvalidRole);
      }
      if u.updatedAt == 0 {
        u.updatedAt := now;
      }
      if u.status == Approved {
        if u.approvedAt == 0 {
          u.approvedAt := u.updatedAt;
        }
      } else if u.status == Pending {
        u.approvedAt := 0;
        u.approvedBy := NilId;
      }
      r := Ok(u);
    }
  }

  // ----- properties of every built user and every sequence of operations

  predicate Good(u: Record)
  {
    && u.id != NilId && u.name != ""
    && ValidStatus(u.status) && (u.role == "" || ValidAdminRole(u.role))
    && (u.status == Approved ==> u.approvedAt != 0)
    && (u.status == Pending ==> u.approvedAt == 0 && u.approvedBy == NilId)
  }

  datatype Event = Event(op: Op, now: Time)

  function Run(u: Record, events: seq<Event>): Record
    decreases events
  {
    if events == [] then u else Run(After(u, events[0].op, events[0].now), events[1..])
  }

  ghost predicate Clocked(events: seq<Event>) { forall e <- events :: e.now > 0 }

  lemma StatusesDiffer()
    ensures Pending[0] == 'p' && Approved[0] == 'a' && Rejected[0] == 'r'
  {
  }

  lemma {:induction false} RunStaysGood(u: Record, events: seq<Event>)
    requires Good(u) && Clocked(events)
    ensures Good(Run(u, events)) && Run(u, events).id == u.id && Run(u, events).email == u.email
    decreases events
  {
    if events != [] {
      StatusesDiffer();
      assert events[0] in events;
      RunStaysGood(After(u, events[0].op, events[0].now), events[1..]);
    }
  }

  /** Nobody becomes pending again. */
  lemma {:induction false} PendingIsNotReentered(u: Record, events: seq<Event>)
    requires u.status != Pending
    ensures Run(u, events).status != Pending
    decreases events
  {
    if events != [] {
      StatusesDiffer();
      PendingIsNotReentered(After(u, events[0].op, events[0].now), events[1..]);
    }
  }

  /** While a user stays approved, the first approver and the time are kept, whoever approves
      again. */
  lemma {:induction false} FirstApproverIsKept(u: Record, events: seq<Event>)
    requires u.status == Approved && forall e <- events :: !e.op.Reject?
    ensures var v := Run(u, events); v.status == Approved && v.approvedBy == u.approvedBy && v.approvedAt == u.approvedAt
    decreases events
  {
    if events != [] {
      assert events[0] in events;
      FirstApproverIsKept(After(u, events[0].op, events[0].now), events[1..]);
    }
  }

  /** Whatever follows, the approval data of a user who is not approved again is kept; only an
      approval replaces it, and nothing ever erases it. */
  lemma {:induction false} ApprovalDataIsReplacedOnlyByApproval(u: Record, events: seq<Event>)
    requires Clocked(events)
    ensures var v := Run(u, events);
      || (v.approvedBy == u.approvedBy && v.approvedAt == u.approvedAt)
      || exists e :: e in events && e.op == Approve(v.approvedBy) && v.approvedAt == e.now
    ensures u.approvedAt != 0 ==> Run(u, events).approvedAt != 0
    decreases events
  {
    if events != [] {
      assert events[0] in events;
      var u' := After(u, events[0].op, events[0].now);
      ApprovalDataIsReplacedOnlyByApproval(u', events[1..]);
      var v := Run(u, events);
      if e :| e in events[1..] && e.op == Approve(v.approvedBy) && v.approvedAt == e.now {
        assert e in events;
      }
    }
  }

  /** A user ends up approved exactly when the last decision was an approval, or there was none
      and the user was approved from the start. */
  lemma {:induction false} LastDecisionCounts(u: Record, events: seq<Event>)
    ensures var v := Run(u, events);
      v.status == match LastDecision(events) { case None => u.status case Some(approve) => if approve then Approved else Rejected }
    decreases events
  {
    if events != [] {
      StatusesDiffer();
      LastDecisionCounts(After(u, events[0].op, events[0].now), events[1..]);
    }
  }

  function LastDecision(events: seq<Event>): Option<bool>
  {
    if events == [] then None
    else
      var rest := LastDecision(events[1..]);
      if rest.Some? then rest
      else if events[0].op.Approve? then Some(true)
      else if events[0].op.Reject? then Some(false)
      else None
  }

  /** A second Build changes nothing, provided that normalising a normalised address does not. */
  lemma BuildTwice(u: Record, normalize: Normalizer, now: Time, later: Time)
    requires now > 0 && Built(u, normalize, now).1.None?
    requires normalize(u.email).Some? ==> normalize(normalize(u.email).value) == normalize(u.email)
    ensures Built(Built(u, normalize, now).0, normalize, later) == (Built(u, normalize, now).0, None)
    ensures Good(Built(u, normalize, now).0)
  {
    StatusesDiffer();
  }
}
