/** The login records of a user.  They are kept in a slice that grows and is shifted in place;
    the lists handed out are copies. */
module UserAuths {
  import opened GoSlices
  import opened Wrappers

  datatype Auth = Auth(provider: string, sub: string)

  const Auth0: string := "auth0"

  datatype Op = AddAuth(a: Auth) | RemoveAuth(a: Auth) | RemoveAuthByProvider(provider: string) | ClearAuths

  predicate Has(auths: seq<Auth>, provider: string) { exists b <- auths :: b.provider == provider }

  /** Index of the first record that is a, or that has the provider; the length if there is none. */
  function IndexOf(auths: seq<Auth>, op: Op): (i: nat)
    requires op.RemoveAuth? || op.RemoveAuthByProvider?
    ensures i <= |auths|
    ensures i < |auths| ==> Matches(auths[i], op)
    ensures forall k :: 0 <= k < i ==> !Matches(auths[k], op)
  {
    if auths == [] || Matches(auths[0], op) then 0
    else
      var i := IndexOf(auths[1..], op);
      assert forall k :: 1 <= k < i + 1 ==> auths[k] == auths[1..][k - 1];
      i + 1
  }

  predicate Matches(b: Auth, op: Op)
    requires op.RemoveAuth? || op.RemoveAuthByProvider?
  {
    if op.RemoveAuth? then b == op.a else b.provider == op.provider
  }

  predicate Protected(op: Op) { (op.RemoveAuth? && op.a.provider == Auth0) || (op.RemoveAuthByProvider? && op.provider == Auth0) }

  function Without<T>(s: seq<T>, i: nat): seq<T>
    requires i < |s|
  {
    s[..i] + s[i + 1..]
  }

  /** `after` is `before` without its element i. */
  ghost predicate ShiftedOut(before: seq<Auth>, after: seq<Auth>, i: nat)
    requires i < |before|
  {
    |after| == |before| - 1 && forall k :: 0 <= k < |after| ==> after[k] == before[if k < i then k else k + 1]
  }

  /** The first a is gone. */
  ghost predicate RecordOut(before: seq<Auth>, after: seq<Auth>, a: Auth)
  {
    exists i :: 0 <= i < |before| && ShiftedOut(before, after, i) && before[i] == a && forall k :: 0 <= k < i ==> before[k] != a
  }

  /** The first record of the provider is gone. */
  ghost predicate ProviderOut(before: seq<Auth>, after: seq<Auth>, provider: string)
  {
    exists i :: 0 <= i < |before| && ShiftedOut(before, after, i) && before[i].provider == provider
      && forall k :: 0 <= k < i ==> before[k].provider != provider
  }

  lemma RemovedRecordIsOut(auths: seq<Auth>, a: Auth)
    requires a.provider != Auth0 && a in auths
    ensures RecordOut(auths, After(auths, RemoveAuth(a)), a)
  {
    var i := IndexOf(auths, RemoveAuth(a));
    assert i < |auths|;
    assert ShiftedOut(auths, After(auths, RemoveAuth(a)), i);
  }

  lemma RemovedProviderIsOut(auths: seq<Auth>, provider: string)
    requires provider != Auth0 && Has(auths, provider)
    ensures ProviderOut(auths, After(auths, RemoveAuthByProvider(provider)), provider)
  {
    var i := IndexOf(auths, RemoveAuthByProvider(provider));
    var b :| b in auths && b.provider == provider;
    assert i < |auths|;
    assert ShiftedOut(auths, After(auths, RemoveAuthByProvider(provider)), i);
  }

  /** The records after an operation. */
  function After(auths: seq<Auth>, op: Op): seq<Auth>
  {
    match op
    case AddAuth(a) => if Has(auths, a.provider) then auths else auths + [a]
    case ClearAuths => []
    case _ =>
      if Protected(op) || IndexOf(auths, op) == |auths| then auths
      else Without(auths, IndexOf(auths, op))
  }

  class User {
    var auths: Slice<Auth>
    var updatedAt: nat
    ghost var issued: seq<Slice<Auth>>  // every list handed out ...
    ghost var shown: seq<seq<Auth>>     // ... and what it showed

    /** No list handed out shares memory with the records, and each shows what it showed. */
    ghost predicate Valid()
      reads this, auths.buf, set s | s in issued :: s.buf
    {
      && auths.Ok() && |issued| == |shown|
      && forall k :: 0 <= k < |issued| ==> issued[k].Ok() && issued[k].buf != auths.buf && issued[k].View() == shown[k]
    }

    constructor ()
      ensures Valid() && auths.View() == [] && issued == [] && fresh(auths.buf)
    {
      var empty := Make<Auth>([], 0);
      auths, updatedAt, issued, shown := empty, 0, [], [];
    }

    method Auths() returns (list: Slice<Auth>)
      requires Valid()
      modifies this`issued, this`shown
      ensures Valid() && list.Ok() && list.View() == auths.View() && fresh(list.buf)
      ensures issued == old(issued) + [list] && shown == old(shown) + [auths.View()]
    {
      list := Make(auths.View(), 0);
      issued, shown := issued + [list], shown + [list.View()];
    }

    /** A copy with its own records, so no later change of one shows in the other. */
    method Clone(now: nat) returns (c: User)
      requires Valid()
      ensures fresh(c) && fresh(c.auths.buf) && c.Valid() && c.auths.View() == auths.View() && c.issued == []
    {
      c := new User();
      var own := Make(auths.View(), 0);
      c.auths, c.updatedAt := own, now;
    }

    method ContainAuth(a: Auth) returns (b: bool)
      requires Valid()
      ensures b <==> exists c <- auths.View() :: c.provider == a.provider
    {
      for i := 0 to auths.len
        invariant forall k :: 0 <= k < i ==> auths.View()[k].provider != a.provider
      {
        if a == auths.buf[i] || a.provider == auths.buf[i].provider {
          assert auths.View()[i] in auths.View();
          return true;
        }
      }
      b := false;
    }

    method AddAuth(a: Auth, now: nat) returns (added: bool)
      requires Valid()
      modifies this`auths, this`updatedAt, auths.buf
      ensures Valid() && auths.View() == After(old(auths.View()), Op.AddAuth(a))
      ensures added <==> !Has(old(auths.View()), a.provider)
      ensures updatedAt == if added then now else old(updatedAt)
      ensures auths.buf == old(auths.buf) || fresh(auths.buf)
      ensures added <==> forall b <- old(auths.View()) :: b.provider != a.provider
      ensures auths.View() == if added then old(auths.View()) + [a] else old(auths.View())
    {
      var contained := ContainAuth(a);
      if contained {
        return false;
      }
      auths := Append(auths, [a]);
      updatedAt := now;
      added := true;
    }

    /** The loop of both removals: the first match is shifted out in place. */
    method RemoveFirst(op: Op, now: nat) returns (removed: bool)
      requires Valid() && (op.RemoveAuth? || op.RemoveAuthByProvider?)
      modifies this`auths, this`updatedAt, auths.buf
      ensures Valid() && auths.buf == old(auths.buf) && auths.View() == After(old(auths.View()), op)
      ensures removed <==> !Protected(op) && IndexOf(old(auths.View()), op) < |old(auths.View())|
      ensures updatedAt == if removed then now else old(updatedAt)
    {
      if Protected(op) {
        return false;
      }
      for i := 0 to auths.len
        invariant forall k :: 0 <= k < i ==> !Matches(auths.View()[k], op)
        invariant auths == old(auths) && updatedAt == old(updatedAt) && auths.View() == old(auths.View())
      {
        if Matches(auths.buf[i], op) {
          assert Matches(auths.View()[i], op) && IndexOf(auths.View(), op) == i;
          auths := RemoveAt(auths, i);
          updatedAt := now;
          return true;
        }
      }
      removed := false;
    }

    method RemoveAuth(a: Auth, now: nat) returns (removed: bool)
      requires Valid()
      modifies this`auths, this`updatedAt, auths.buf
      ensures Valid() && auths.buf == old(auths.buf) && auths.View() == After(old(auths.View()), Op.RemoveAuth(a))
      ensures removed <==> a.provider != "auth0" && a in old(auths.View())
      ensures !removed ==> auths.View() == old(auths.View())
      ensures removed ==> RecordOut(old(auths.View()), auths.View(), a)
    {
      removed := RemoveFirst(Op.RemoveAuth(a), now);
      if removed {
        RemovedRecordIsOut(old(auths.View()), a);
      }
    }

    method RemoveAuthByProvider(provider: string, now: nat) returns (removed: bool)
      requires Valid()
      modifies this`auths, this`updatedAt, auths.buf
      ensures Valid() && auths.buf == old(auths.buf) && auths.View() == After(old(auths.View()), Op.RemoveAuthByProvider(provider))
      ensures removed <==> provider != "auth0" && exists b <- old(auths.View()) :: b.provider == provider
      ensures !removed ==> auths.View() == old(auths.View())
      ensures removed ==> ProviderOut(old(auths.View()), auths.View(), provider)
    {
      removed := RemoveFirst(Op.RemoveAuthByProvider(provider), now);
      if removed {
        RemovedProviderIsOut(old(auths.View()), provider);
      }
    }

    method ClearAuths(now: nat)
      requires Valid()
      modifies this`auths, this`updatedAt
      ensures Valid() && auths.View() == [] && fresh(auths.buf) && updatedAt == now
    {
      auths := Make([], 0);
      updatedAt := now;
    }
  }

  /** The builder adds the given records one by one, so a provider listed twice counts once. */
  method BuildUser(list: seq<Auth>, now: nat) returns (u: User)
    ensures fresh(u) && fresh(u.auths.buf) && u.Valid() && u.issued == []
    ensures u.auths.View() == Run([], Additions(list))
    ensures OnePerProvider(u.auths.View()) && exists places :: AreFirsts(list, u.auths.View(), places)
  {
    u := new User();
    ghost var ops := Additions(list);
    for i := 0 to |list|
      invariant u.Valid() && fresh(u) && fresh(u.auths.buf) && u.issued == []
      invariant u.auths.View() == Run([], ops[..i])
    {
      assert ops[..i + 1][..i] == ops[..i];
      var added := u.AddAuth(list[i], now);
    }
    assert ops[..|list|] == ops;
    RunKeepsOnePerProvider([], ops);
    ghost var places := AdditionsKeepFirsts(list);
  }

  function Additions(list: seq<Auth>): seq<Op> { seq(|list|, i requires 0 <= i < |list| => AddAuth(list[i])) }

  /** Record i of the list is the first of its provider. */
  predicate IsFirst(list: seq<Auth>, i: nat) { i < |list| && forall j :: 0 <= j < i ==> list[j].provider != list[i].provider }

  /** auths are the first records of each provider in the list, in order; places is where they were. */
  ghost predicate AreFirsts(list: seq<Auth>, auths: seq<Auth>, places: seq<nat>)
  {
    && |places| == |auths|
    && (forall k :: 0 <= k < |auths| ==> IsFirst(list, places[k]) && auths[k] == list[places[k]])
    && (forall k, l :: 0 <= k < l < |places| ==> places[k] < places[l])
    && (forall i :: 0 <= i < |list| && IsFirst(list, i) ==> i in places)
  }

  lemma {:induction false} AdditionsKeepFirsts(list: seq<Auth>) returns (places: seq<nat>)
    ensures AreFirsts(list, Run([], Additions(list)), places)
  {
    if list == [] {
      places := [];
    } else {
      var n := |list| - 1;
      places := AdditionsKeepFirsts(list[..n]);
      assert Additions(list)[..n] == Additions(list[..n]);
      var before := Run([], Additions(list[..n]));
      FirstIsKept(list[..n], before, places, list[n].provider);
      FirstsGrow(list, before, places);
      if !Has(before, list[n].provider) {
        places := places + [n];
      }
    }
  }

  /** The next record of the list is kept exactly when it is the first of its provider. */
  lemma FirstsGrow(list: seq<Auth>, auths: seq<Auth>, places: seq<nat>)
    requires list != [] && AreFirsts(list[..|list| - 1], auths, places)
    requires Has(auths, list[|list| - 1].provider) <==> Has(list[..|list| - 1], list[|list| - 1].provider)
    ensures var last := list[|list| - 1];
      if Has(auths, last.provider) then AreFirsts(list, auths, places) else AreFirsts(list, auths + [last], places + [|list| - 1])
  {
    var n := |list| - 1;
    assert forall i :: 0 <= i < n ==> (IsFirst(list, i) <==> IsFirst(list[..n], i));
    LastIsFirst(list);
    if !Has(auths, list[n].provider) {
      var more := places + [n];
      forall i | 0 <= i < |list| && IsFirst(list, i) ensures i in more {
        assert i < n ==> i in places;
        assert more[|places|] == n;
      }
    }
  }

  lemma LastIsFirst(list: seq<Auth>)
    requires list != []
    ensures IsFirst(list, |list| - 1) <==> !Has(list[..|list| - 1], list[|list| - 1].provider)
  {
    var n := |list| - 1;
    if !Has(list[..n], list[n].provider) {
      forall j | 0 <= j < n ensures list[j].provider != list[n].provider {
        assert list[j] in list[..n];
      }
    }
  }

  lemma FirstIsKept(list: seq<Auth>, auths: seq<Auth>, places: seq<nat>, provider: string)
    requires AreFirsts(list, auths, places)
    ensures Has(auths, provider) <==> Has(list, provider)
  {
    if Has(auths, provider) {
      var k :| 0 <= k < |auths| && auths[k].provider == provider;
      assert auths[k] == list[places[k]];
    }
    if Has(list, provider) {
      var i := FirstOfProvider(list, provider);
      var k :| 0 <= k < |places| && places[k] == i;
      assert auths[k] in auths;
    }
  }

  lemma {:induction false} FirstOfProvider(list: seq<Auth>, provider: string) returns (i: nat)
    requires Has(list, provider)
    ensures IsFirst(list, i) && list[i].provider == provider
  {
    var n := |list| - 1;
    if Has(list[..n], provider) {
      i := FirstOfProvider(list[..n], provider);
    } else {
      var b :| b in list && b.provider == provider;
      assert list == list[..n] + [list[n]];
      i := n;
      assert forall j :: 0 <= j < n ==> list[j] == list[..n][j] && list[..n][j] in list[..n];
    }
  }

  /** Any sequence of operations, with lists taken out in between: the lists keep what they
      showed, whatever is shifted later. */
  method RunOps(u: User, ops: seq<Op>, now: nat)
    requires u.Valid()
    modifies u, u.auths.buf
    ensures u.Valid() && u.auths.View() == Run(old(u.auths.View()), ops)
    ensures old(u.issued) <= u.issued
    ensures forall k :: 0 <= k < |old(u.issued)| ==> old(u.issued)[k].View() == old(u.issued[k].View())
  {
    for i := 0 to |ops|
      invariant u.Valid() && u.auths.View() == Run(old(u.auths.View()), ops[..i])
      invariant u.auths.buf == old(u.auths.buf) || fresh(u.auths.buf)
      invariant old(u.issued) <= u.issued && old(u.shown) <= u.shown
    {
      assert ops[..i + 1][..i] == ops[..i];
      var snapshot := u.Auths();
      var done;
      match ops[i] {
        case AddAuth(a) => done := u.AddAuth(a, now);
        case RemoveAuth(a) => done := u.RemoveAuth(a, now);
        case RemoveAuthByProvider(p) => done := u.RemoveAuthByProvider(p, now);
        case ClearAuths => u.ClearAuths(now);
      }
    }
    assert ops[..|ops|] == ops;
    forall k | 0 <= k < |old(u.issued)|
      ensures old(u.issued)[k].View() == old(u.issued[k].View())
    {
      assert u.issued[k] == old(u.issued)[k] && u.shown[k] == old(u.shown)[k];
      assert old(u.issued[k].View() == u.shown[k]);
      assert u.issued[k].View() == u.shown[k];
    }
  }

  // ----- sequences of operations

  function Run(auths: seq<Auth>, ops: seq<Op>): seq<Auth>
  {
    if ops == [] then auths else After(Run(auths, ops[..|ops| - 1]), ops[|ops| - 1])
  }

  /** No provider has two records. */
  ghost predicate OnePerProvider(auths: seq<Auth>)
  {
    forall i, j :: 0 <= i < j < |auths| ==> auths[i].provider != auths[j].provider
  }

  lemma {:induction false} RunKeepsOnePerProvider(auths: seq<Auth>, ops: seq<Op>)
    requires OnePerProvider(auths)
    ensures OnePerProvider(Run(auths, ops))
  {
    if ops != [] {
      var before := Run(auths, ops[..|ops| - 1]);
      RunKeepsOnePerProvider(auths, ops[..|ops| - 1]);
      var op := ops[|ops| - 1];
      if op.AddAuth? && !Has(before, op.a.provider) {
        forall i | 0 <= i < |before| ensures before[i].provider != op.a.provider {
          assert before[i] in before;
        }
      }
    }
  }

  lemma WithoutMembers<T>(s: seq<T>, i: nat, b: T)
    requires i < |s|
    ensures b in Without(s, i) <==> exists k :: 0 <= k < |s| && k != i && s[k] == b
  {
    var after := Without(s, i);
    if k :| 0 <= k < |s| && k != i && s[k] == b {
      assert after[if k < i then k else k - 1] == b;
    }
    if b in after {
      var k :| 0 <= k < |after| && after[k] == b;
      assert s[if k < i then k else k + 1] == b;
    }
  }

  lemma Auth0StaysOnce(auths: seq<Auth>, op: Op, a: Auth)
    requires a in auths && a.provider == Auth0 && !op.ClearAuths?
    ensures a in After(auths, op)
  {
    if (op.RemoveAuth? || op.RemoveAuthByProvider?) && !Protected(op) && IndexOf(auths, op) < |auths| {
      WithoutMembers(auths, IndexOf(auths, op), a);
    }
  }

  /** The auth0 record goes only when all are cleared. */
  lemma {:induction false} Auth0StaysUntilCleared(auths: seq<Auth>, ops: seq<Op>, a: Auth)
    requires a in auths && a.provider == Auth0
    requires forall op <- ops :: !op.ClearAuths?
    ensures a in Run(auths, ops)
  {
    if ops != [] {
      assert ops[|ops| - 1] in ops;
      Auth0StaysUntilCleared(auths, ops[..|ops| - 1], a);
      Auth0StaysOnce(Run(auths, ops[..|ops| - 1]), ops[|ops| - 1], a);
    }
  }

  /** With one record per provider a removal by provider takes out exactly that record. */
  lemma RemovalIsFilter(auths: seq<Auth>, p: string, b: Auth)
    requires OnePerProvider(auths) && p != Auth0
    ensures b in After(auths, RemoveAuthByProvider(p)) <==> b in auths && b.provider != p
  {
    var i := IndexOf(auths, RemoveAuthByProvider(p));
    if i < |auths| {
      WithoutMembers(auths, i, b);
    }
  }

  /** A record that was added can be removed again, unless it is the auth0 record. */
  lemma AddThenRemove(auths: seq<Auth>, a: Auth)
    requires !Has(auths, a.provider) && a.provider != Auth0
    ensures After(auths, AddAuth(a)) == auths + [a] && After(After(auths, AddAuth(a)), RemoveAuth(a)) == auths
  {
    var more := auths + [a];
    forall k | 0 <= k < |auths| ensures more[k] != a {
      assert auths[k] in auths;
    }
    assert more[|auths|] == a;
    assert Without(more, |auths|) == auths;
  }

  // ----- removal on a plain list of records

  /** slices.Delete(s, i, j): the elements from i up to j go; a range that is none panics. */
  function SlicesDelete<T>(s: seq<T>, i: nat, j: nat): Option<seq<T>>
  {
    if i <= j <= |s| then Some(s[..i] + s[j..]) else None
  }

  /** The removal by provider of the list type, which passes 1 as the end of the range. */
  function ListRemove(auths: seq<Auth>, provider: string): Option<seq<Auth>>
  {
    var i := IndexOf(auths, RemoveAuthByProvider(provider));
    if i == |auths| then Some(auths) else SlicesDelete(auths, i, 1)
  }

  /** It takes out the match exactly when the match is the first record; a match in second place
      is left in the list, and a later one panics. */
  lemma ListRemoveIff(auths: seq<Auth>, provider: string)
    requires Has(auths, provider)
    ensures var i := IndexOf(auths, RemoveAuthByProvider(provider));
      && i < |auths|
      && (ListRemove(auths, provider) == Some(Without(auths, i)) <==> i == 0)
      && (ListRemove(auths, provider) == Some(auths) <==> i == 1)
      && (ListRemove(auths, provider).None? <==> i > 1)
  {
    var b :| b in auths && b.provider == provider;
    var k :| 0 <= k < |auths| && auths[k] == b;
    var i := IndexOf(auths, RemoveAuthByProvider(provider));
    assert i <= k;
    if i == 1 {
      assert auths[..1] + auths[1..] == auths;
    }
  }
}
