/** Deferred groups and null propagation together: which object functions of a response tree
    register their groups, which groups come back as null, and which have a place in the output. */
module DeferredTrees {
  import D = DeferredFields
  import R = DeferredResults
  import NP = NullPropagation
  import opened Wrappers

  /** What the resolvers give, deferred fields included; the tags of list elements mean nothing. */
  datatype Node = Missing | Leaf(text: string) | Tree(kind: NP.Kind, fields: seq<Field>)

  /** A field of an object or an element of a list, with the label of its group if it is deferred. */
  datatype Field = Field(key: string, nonNull: bool, tag: Option<string>, node: Node)

  type Path = seq<nat>

  // ----- what is evaluated when

  /** The tree that is evaluated at once: a deferred field leaves a null that does not count. */
  function Now(n: Node): NP.Node
    decreases n
  {
    match n
    case Missing => NP.Missing
    case Leaf(text) => NP.Leaf(text)
    case Tree(kind, fields) => NP.Tree(kind, NowAll(kind, fields))
  }

  function NowAll(kind: NP.Kind, fields: seq<Field>): (children: seq<NP.Child>)
    ensures |children| == |fields|
    decreases fields
  {
    if fields == [] then []
    else
      var f := fields[0];
      var child := if IsDeferred(kind, f) then NP.Child(f.key, false, NP.Missing) else NP.Child(f.key, f.nonNull, Now(f.node));
      [child] + NowAll(kind, fields[1..])
  }

  predicate IsDeferred(kind: NP.Kind, f: Field) { kind.ObjectKind? && f.tag.Some? }

  /** The field set of a group. */
  function GroupFields(fields: seq<Field>, tag: string): seq<NP.Child>
  {
    if fields == [] then []
    else
      var f := fields[0];
      (if f.tag == Some(tag) then [NP.Child(f.key, f.nonNull, Now(f.node))] else []) + GroupFields(fields[1..], tag)
  }

  /** The tree that the goroutine of a group evaluates. */
  function GroupTree(fields: seq<Field>, tag: string): NP.Node { NP.Tree(NP.ObjectKind, GroupFields(fields, tag)) }

  /** The labels of the deferred fields, each once. */
  function Tags(fields: seq<Field>): seq<string>
  {
    if fields == [] then []
    else
      var n := |fields| - 1;
      var tags := Tags(fields[..n]);
      if fields[n].tag.Some? && fields[n].tag.value !in tags then tags + [fields[n].tag.value] else tags
  }

  // ----- the loop over the collected fields makes these groups

  /** The fields as the loop over them sees them. */
  function Collected(fields: seq<Field>): seq<D.Field>
  {
    seq(|fields|, i requires 0 <= i < |fields| => D.Field(fields[i].key, fields[i].tag.Some?, fields[i].tag))
  }

  lemma {:induction false} GroupFieldsLast(fields: seq<Field>, tag: string)
    requires fields != []
    ensures var n := |fields| - 1;
      GroupFields(fields, tag) == GroupFields(fields[..n], tag) + GroupFields([fields[n]], tag)
  {
    var n := |fields| - 1;
    if n == 0 {
      assert fields == [fields[n]] && fields[..n] == [];
    } else {
      var rest, last := fields[1..], fields[n];
      GroupFieldsLast(rest, tag);
      assert rest[n - 1] == last && rest[..n - 1] == fields[..n][1..];
      var first := if fields[0].tag == Some(tag) then [NP.Child(fields[0].key, fields[0].nonNull, Now(fields[0].node))] else [];
      assert GroupFields(fields, tag) == first + GroupFields(rest, tag);
      assert GroupFields(fields[..n], tag) == first + GroupFields(rest[..n - 1], tag);
      JoinedLast(first, GroupFields(rest[..n - 1], tag), GroupFields([last], tag));
    }
  }

  lemma JoinedLast<T>(a: seq<T>, b: seq<T>, c: seq<T>)
    ensures a + (b + c) == (a + b) + c
  {
  }

  /** The group of a label in SplitFields has the fields of the group here, in the same order, and the
      labels of its groups are these. */
  lemma {:induction false} GroupsAreSplit(fields: seq<Field>, tag: string)
    ensures |GroupFields(fields, tag)| == |D.Tagged(Collected(fields), tag)|
    ensures forall i :: 0 <= i < |GroupFields(fields, tag)| ==>
      GroupFields(fields, tag)[i].key == D.Tagged(Collected(fields), tag)[i].name
    ensures tag in Tags(fields) <==> D.Tagged(Collected(fields), tag) != []
    decreases |fields|
  {
    if fields != [] {
      var n := |fields| - 1;
      GroupsAreSplit(fields[..n], tag);
      GroupFieldsLast(fields, tag);
      var collected, last := Collected(fields), fields[n];
      assert collected[..n] == Collected(fields[..n]) && collected[n].Group() == last.tag;
      var mine := if last.tag == Some(tag) then [NP.Child(last.key, last.nonNull, Now(last.node))] else [];
      var split := if last.tag == Some(tag) then [collected[n]] else [];
      assert GroupFields([last], tag) == mine by { assert [last][1..] == []; }
      assert GroupFields(fields, tag) == GroupFields(fields[..n], tag) + mine;
      assert D.Tagged(collected, tag) == D.Tagged(Collected(fields[..n]), tag) + split;
    }
  }

  lemma {:induction false} GroupFieldAt(fields: seq<Field>, tag: string, i: nat)
    requires i < |fields| && fields[i].tag == Some(tag)
    ensures var k := D.NextPlace(Collected(fields)[..i], Collected(fields)[i]);
      k < |GroupFields(fields, tag)| &&
      GroupFields(fields, tag)[k] == NP.Child(fields[i].key, fields[i].nonNull, Now(fields[i].node))
    decreases |fields|
  {
    var n := |fields| - 1;
    GroupFieldsLast(fields, tag);
    assert Collected(fields)[..n] == Collected(fields[..n]);
    var before, last := GroupFields(fields[..n], tag), fields[n];
    if i < n {
      GroupFieldAt(fields[..n], tag, i);
      assert Collected(fields)[..i] == Collected(fields[..n])[..i];
    } else {
      GroupsAreSplit(fields[..n], tag);
      assert GroupFields([last], tag) == [NP.Child(last.key, last.nonNull, Now(last.node))] by { assert [last][1..] == []; }
      assert GroupFields(fields, tag)[|before|] == NP.Child(last.key, last.nonNull, Now(last.node));
    }
  }

  // ----- errors

  /** An error at q in n reaches n: nothing on the way is deferred, and everything is Non-Null. */
  predicate ErrorReaches(n: Node, q: Path)
    decreases q
  {
    if q == [] then n.Missing?
    else
      && n.Tree? && q[0] < |n.fields|
      && (n.kind.ListKind? || n.fields[q[0]].tag == None) && n.fields[q[0]].nonNull
      && ErrorReaches(n.fields[q[0]].node, q[1..])
  }

  /** Some error reaches n, so that n is null. */
  ghost predicate Errs(n: Node) { exists q :: ErrorReaches(n, q) }

  lemma {:induction false} ErrorReachesNow(n: Node, q: Path)
    ensures NP.ReachedFrom(Now(n), [], q) <==> ErrorReaches(n, q)
    decreases q
  {
    if q != [] && n.Tree? && q[0] < |n.fields| {
      NowAt(n.kind, n.fields, q[0]);
      if !IsDeferred(n.kind, n.fields[q[0]]) {
        ErrorReachesNow(n.fields[q[0]].node, q[1..]);
      }
    }
  }

  lemma ErrsIffNull(n: Node)
    ensures Errs(n) <==> NP.Value(Now(n)).Null?
    ensures Errs(n) <==> NP.Nulled(Now(n), [])
  {
    NP.NulledIffNull(Now(n));
    if q :| NP.ReachedFrom(Now(n), [], q) {
      ErrorReachesNow(n, q);
    }
    if q :| ErrorReaches(n, q) {
      ErrorReachesNow(n, q);
    }
  }

  lemma {:induction false} NowAt(kind: NP.Kind, fields: seq<Field>, i: nat)
    requires i < |fields|
    ensures var (f, c) := (fields[i], NowAll(kind, fields)[i]);
      c == if IsDeferred(kind, f) then NP.Child(f.key, false, NP.Missing) else NP.Child(f.key, f.nonNull, Now(f.node))
  {
    if i > 0 {
      NowAt(kind, fields[1..], i - 1);
    }
  }

  // ----- what is registered

  /** An object function gets to its registration when its field set ends without Invalids. */
  predicate Registers(n: Node) { n.Tree? && n.kind.ObjectKind? && !NP.Value(Now(n)).Null? }

  /** An object gets to register its groups exactly when no error reaches it. */
  lemma RegistersIff(n: Node)
    ensures Registers(n) <==> n.Tree? && n.kind.ObjectKind? && !Errs(n)
  {
    ErrsIffNull(n);
  }

  /** The fields of an object or list that are evaluated at once, or those of one group. */
  datatype Which = AtOnce(kind: NP.Kind) | InGroup(tag: string)

  predicate Takes(which: Which, f: Field)
  {
    match which
    case AtOnce(kind) => !IsDeferred(kind, f)
    case InGroup(tag) => f.tag == Some(tag)
  }

  /** The registering object functions that run when the node n at path p is evaluated; that
      something above or beside them turns null does not stop them. */
  function Objects(n: Node, p: Path): seq<R.Object>
    decreases n, 0, 0
  {
    if !n.Tree? then []
    else Own(n, p, if Registers(n) then Groups(n.fields, Tags(n.fields), p) else []) + ObjectsAmong(AtOnce(n.kind), n.fields, p, 0)
  }

  function Own(n: Node, p: Path, groups: seq<R.Group>): seq<R.Object>
  {
    if Registers(n) then [R.Object(false, false, groups)] else []
  }

  function ObjectsAmong(which: Which, fields: seq<Field>, p: Path, i: nat): seq<R.Object>
    decreases fields, 0, 0
  {
    if fields == [] then []
    else
      (if Takes(which, fields[0]) then Objects(fields[0].node, p + [i]) else []) + ObjectsAmong(which, fields[1..], p, i + 1)
  }

  function Groups(fields: seq<Field>, tags: seq<string>, p: Path): seq<R.Group>
    decreases fields, 2, |tags|
  {
    if tags == [] then [] else [GroupOf(fields, tags[0], p)] + Groups(fields, tags[1..], p)
  }

  /** The group of one label; it comes back as null when its own field set has Invalids. */
  function GroupOf(fields: seq<Field>, tag: string, p: Path): R.Group
    decreases fields, 1, 0
  {
    R.Group(p, tag, NP.AnyInvalid(GroupFields(fields, tag)), ObjectsAmong(InGroup(tag), fields, p, 0))
  }

  /** The result of a group is null exactly when an error reaches one of its Non-Null fields. */
  lemma {:induction false} InvalidIff(fields: seq<Field>, tag: string)
    ensures NP.AnyInvalid(GroupFields(fields, tag)) <==>
      exists i :: 0 <= i < |fields| && fields[i].tag == Some(tag) && fields[i].nonNull && Errs(fields[i].node)
  {
    if fields != [] {
      InvalidIff(fields[1..], tag);
      ErrsIffNull(fields[0].node);
      GroupFieldsFirst(fields, tag);
      if i :| 0 <= i < |fields| && fields[i].tag == Some(tag) && fields[i].nonNull && Errs(fields[i].node) && i > 0 {
        assert fields[1..][i - 1] == fields[i];
      }
      if i :| 0 <= i < |fields[1..]| && fields[1..][i].tag == Some(tag) && fields[1..][i].nonNull && Errs(fields[1..][i].node) {
        assert fields[i + 1] == fields[1..][i];
      }
    }
  }

  lemma GroupFieldsFirst(fields: seq<Field>, tag: string)
    requires fields != []
    ensures var f := fields[0];
      NP.AnyInvalid(GroupFields(fields, tag)) <==>
        (f.tag == Some(tag) && f.nonNull && NP.Value(Now(f.node)).Null?) || NP.AnyInvalid(GroupFields(fields[1..], tag))
  {
    if fields[0].tag == Some(tag) {
      assert GroupFields(fields, tag)[1..] == GroupFields(fields[1..], tag);
    } else {
      assert GroupFields(fields, tag) == GroupFields(fields[1..], tag);
    }
  }

  /** The rule for the group of one label, on the fields of the response tree: it comes back as null
      exactly when an error reaches one of its Non-Null fields. */
  lemma GroupIsNullIff(fields: seq<Field>, tag: string, p: Path)
    ensures var g := GroupOf(fields, tag, p);
      && g.path == p && g.tag == tag
      && (g.invalid <==> exists i, q :: 0 <= i < |fields| && ErrorInGroup(fields[i], tag, q))
  {
    InvalidIff(fields, tag);
    if NP.AnyInvalid(GroupFields(fields, tag)) {
      var i :| 0 <= i < |fields| && fields[i].tag == Some(tag) && fields[i].nonNull && Errs(fields[i].node);
      var q :| ErrorReaches(fields[i].node, q);
      assert ErrorInGroup(fields[i], tag, q);
    }
    if i, q :| 0 <= i < |fields| && ErrorInGroup(fields[i], tag, q) {
      assert Errs(fields[i].node);
    }
  }

  /** f is a Non-Null field of the group, and an error at q reaches it. */
  predicate ErrorInGroup(f: Field, tag: string, q: Path) { f.tag == Some(tag) && f.nonNull && ErrorReaches(f.node, q) }

  /** What the goroutine of a group computes, whatever the schedule: null when the group comes back as
      null, and else each field of the label at its place, with the value that its node has alone. */
  lemma GroupShowsFields(fields: seq<Field>, tag: string, p: Path, eval: seq<NP.Exec>, o: NP.Output)
    requires NP.IsRun(GroupTree(fields, tag), eval) && eval[|eval| - 1] == NP.Done(o)
    ensures o.Null? <==> GroupOf(fields, tag, p).invalid
    ensures !o.Null? ==> o.Branch? && |o.entries| == |D.Tagged(Collected(fields), tag)|
    ensures !o.Null? ==> forall i :: 0 <= i < |fields| && fields[i].tag == Some(tag) ==>
      var k := D.NextPlace(Collected(fields)[..i], Collected(fields)[i]);
      k < |o.entries| && o.entries[k] == NP.Entry(fields[i].key, NP.Value(Now(fields[i].node)))
  {
    NP.RunEvaluates(GroupTree(fields, tag), eval, |eval| - 1);
    GroupsAreSplit(fields, tag);
    forall i | 0 <= i < |fields| && fields[i].tag == Some(tag)
      ensures var k := D.NextPlace(Collected(fields)[..i], Collected(fields)[i]);
        k < |GroupFields(fields, tag)| &&
        NP.Values(GroupFields(fields, tag))[k] == NP.Entry(fields[i].key, NP.Value(Now(fields[i].node)))
    {
      GroupFieldAt(fields, tag, i);
      NP.ValueAt(GroupFields(fields, tag), D.NextPlace(Collected(fields)[..i], Collected(fields)[i]));
    }
  }

  // ----- positions

  /** The node at path q, when no field on the way is deferred. */
  function Reach(n: Node, q: Path): Option<Node>
    decreases q
  {
    if q == [] then Some(n)
    else if n.Tree? && q[0] < |n.fields| && !IsDeferred(n.kind, n.fields[q[0]]) then Reach(n.fields[q[0]].node, q[1..])
    else None
  }

  lemma {:induction false} ReachIsPosition(n: Node, q: Path)
    requires Reach(n, q).Some?
    ensures NP.HasPosition(Now(n), q) && NP.NodeAt(Now(n), q) == Now(Reach(n, q).value)
    decreases q
  {
    if q != [] {
      NowAt(n.kind, n.fields, q[0]);
      ReachIsPosition(n.fields[q[0]].node, q[1..]);
    }
  }

  /** The node at q is null: it is one that an error reaches. */
  ghost predicate NullAt(n: Node, q: Path) { Reach(n, q).Some? && Errs(Reach(n, q).value) }

  /** Something above q is null, so that q is not in the output. */
  ghost predicate BelowNull(n: Node, q: Path) { exists k :: 0 <= k < |q| && NullAt(n, q[..k]) }

  lemma NullAtIff(n: Node, q: Path)
    requires Reach(n, q).Some?
    ensures NP.HasPosition(Now(n), q) && (NP.Nulled(Now(n), q) <==> NullAt(n, q))
  {
    ReachIsPosition(n, q);
    var m := Now(Reach(n, q).value);
    ErrsIffNull(Reach(n, q).value);
    forall r ensures NP.ReachedFrom(Now(n), q, r) <==> NP.ReachedFrom(m, [], r) {
    }
  }

  lemma {:induction false} ReachPrefix(n: Node, q: Path, k: nat)
    requires Reach(n, q).Some? && k <= |q|
    ensures Reach(n, q[..k]).Some?
    decreases q
  {
    if k > 0 {
      ReachPrefix(n.fields[q[0]].node, q[1..], k - 1);
      assert q[..k][1..] == q[1..][..k - 1];
    }
  }

  lemma BelowNullIff(n: Node, q: Path)
    requires Reach(n, q).Some?
    ensures NP.HasPosition(Now(n), q) && (NP.Hidden(Now(n), q) <==> BelowNull(n, q))
  {
    ReachIsPosition(n, q);
    forall k | 0 <= k < |q| ensures NP.HasPosition(Now(n), q[..k]) && (NP.Nulled(Now(n), q[..k]) <==> NullAt(n, q[..k])) {
      ReachPrefix(n, q, k);
      NullAtIff(n, q[..k]);
    }
  }

  /** What the first response shows of the tree, whatever the schedule: nothing below a null, null
      where an error reaches, and else the value, with a null in the place of each deferred field. */
  lemma FirstResponseShowsTree(n: Node, eval: seq<NP.Exec>, o: NP.Output, q: Path)
    requires NP.IsRun(Now(n), eval) && eval[|eval| - 1] == NP.Done(o) && Reach(n, q).Some?
    ensures NP.Find(o, q) == None <==> BelowNull(n, q)
    ensures !BelowNull(n, q) ==> (NP.Find(o, q) == Some(NP.Null) <==> NullAt(n, q))
    ensures !BelowNull(n, q) && !NullAt(n, q) ==>
      var (f, m) := (NP.Find(o, q).value, Reach(n, q).value);
      if m.Leaf? then f == NP.Text(m.text)
      else && m.Tree? && f.Branch? && f.kind == m.kind && |f.entries| == |m.fields|
           && forall i :: 0 <= i < |m.fields| ==>
                f.entries[i].key == m.fields[i].key && (IsDeferred(m.kind, m.fields[i]) ==> f.entries[i].value.Null?)
  {
    NullAtIff(n, q);
    BelowNullIff(n, q);
    ReachIsPosition(n, q);
    NP.OutputFollowsRule(Now(n), eval, o, q);
    if !BelowNull(n, q) && !NullAt(n, q) {
      ShownFields(n, eval, o, q);
    }
  }

  lemma ShownFields(n: Node, eval: seq<NP.Exec>, o: NP.Output, q: Path)
    requires NP.IsRun(Now(n), eval) && eval[|eval| - 1] == NP.Done(o) && Reach(n, q).Some?
    requires !BelowNull(n, q) && !NullAt(n, q)
    ensures NP.Find(o, q).Some?
    ensures var (f, m) := (NP.Find(o, q).value, Reach(n, q).value);
      m.Tree? ==>
        && f.Branch? && |f.entries| == |m.fields|
        && forall i :: 0 <= i < |m.fields| ==>
             f.entries[i].key == m.fields[i].key && (IsDeferred(m.kind, m.fields[i]) ==> f.entries[i].value.Null?)
  {
    NullAtIff(n, q);
    BelowNullIff(n, q);
    ReachIsPosition(n, q);
    NP.RunEvaluates(Now(n), eval, |eval| - 1);
    NP.ValueFollowsRule(Now(n), q);
    var m := Reach(n, q).value;
    ErrsIffNull(m);
    if m.Tree? {
      forall i | 0 <= i < |m.fields|
        ensures NP.Values(Now(m).children)[i].key == m.fields[i].key
        ensures IsDeferred(m.kind, m.fields[i]) ==> NP.Values(Now(m).children)[i].value.Null?
      {
        NP.ValueAt(Now(m).children, i);
        NowAt(m.kind, m.fields, i);
      }
    }
  }

  // ----- the groups that one evaluation registers

  ghost predicate Registered(os: seq<R.Object>, g: R.Group) { exists o <- os :: g in o.groups }

  lemma RegisteredInTwoParts(a: seq<R.Object>, b: seq<R.Object>, g: R.Group)
    ensures Registered(a + b, g) <==> Registered(a, g) || Registered(b, g)
  {
    if o :| o in a && g in o.groups {
      assert o in a + b;
    }
    if o :| o in b && g in o.groups {
      assert o in a + b;
    }
  }

  lemma {:induction false} TagsIff(fields: seq<Field>, tag: string)
    ensures tag in Tags(fields) <==> exists f <- fields :: f.tag == Some(tag)
  {
    if fields != [] {
      TagsIff(fields[..|fields| - 1], tag);
      assert fields == fields[..|fields| - 1] + [fields[|fields| - 1]];
    }
  }

  lemma {:induction false} GroupsIff(fields: seq<Field>, tags: seq<string>, p: Path, g: R.Group)
    ensures g in Groups(fields, tags, p) <==> g.tag in tags && g == GroupOf(fields, g.tag, p)
    decreases |tags|
  {
    if tags != [] {
      GroupsIff(fields, tags[1..], p, g);
    }
  }

  /** g is the group of the label g.tag of the object m at path p, which no error reaches. */
  ghost predicate IsGroupOf(m: Node, p: Path, g: R.Group)
  {
    && m.Tree? && m.kind.ObjectKind? && !Errs(m)
    && (exists f <- m.fields :: f.tag == Some(g.tag)) && g == GroupOf(m.fields, g.tag, p)
  }

  lemma OwnIff(n: Node, p: Path, g: R.Group)
    requires n.Tree?
    ensures Registers(n) && g in Groups(n.fields, Tags(n.fields), p) <==> IsGroupOf(n, p, g)
  {
    RegistersIff(n);
    GroupsIff(n.fields, Tags(n.fields), p, g);
    TagsIff(n.fields, g.tag);
  }

  ghost predicate IsGroupAt(n: Node, p: Path, q: Path, g: R.Group) { Reach(n, q).Some? && IsGroupOf(Reach(n, q).value, p + q, g) }

  ghost predicate IsGroupAmong(which: Which, fields: seq<Field>, p: Path, i: nat, j: nat, q: Path, g: R.Group)
  {
    j < |fields| && Takes(which, fields[j]) && IsGroupAt(fields[j].node, p + [i + j], q, g)
  }

  ghost predicate SomeGroupAmong(which: Which, fields: seq<Field>, p: Path, i: nat, g: R.Group)
  {
    exists j: nat, q :: IsGroupAmong(which, fields, p, i, j, q, g)
  }

  lemma AmongIsAt(n: Node, p: Path, j: nat, q: Path, g: R.Group)
    requires n.Tree?
    ensures IsGroupAmong(AtOnce(n.kind), n.fields, p, 0, j, q, g) <==> IsGroupAt(n, p, [j] + q, g)
  {
    assert ([j] + q)[1..] == q;
    assert 0 + j == j && p + ([j] + q) == (p + [j]) + q;
  }

  lemma AmongIff(n: Node, p: Path, g: R.Group)
    requires n.Tree?
    ensures SomeGroupAmong(AtOnce(n.kind), n.fields, p, 0, g) <==> exists q :: q != [] && IsGroupAt(n, p, q, g)
  {
    if j: nat, q :| IsGroupAmong(AtOnce(n.kind), n.fields, p, 0, j, q, g) {
      AmongIsAt(n, p, j, q, g);
      assert [j] + q != [];
    }
    if q :| q != [] && IsGroupAt(n, p, q, g) {
      assert [q[0]] + q[1..] == q;
      AmongIsAt(n, p, q[0], q[1..], g);
    }
  }

  /** The groups registered when n is evaluated are those of its objects that no error reaches. */
  lemma {:induction false} RegisteredIff(n: Node, p: Path, g: R.Group)
    ensures Registered(Objects(n, p), g) <==> exists q :: IsGroupAt(n, p, q, g)
    decreases n, 1
  {
    if n.Tree? {
      var groups := if Registers(n) then Groups(n.fields, Tags(n.fields), p) else [];
      RegisteredInTwoParts(Own(n, p, groups), ObjectsAmong(AtOnce(n.kind), n.fields, p, 0), g);
      OwnIff(n, p, g);
      assert p + [] == p;
      assert Registered(Own(n, p, groups), g) <==> IsGroupAt(n, p, [], g);
      RegisteredAmongIff(AtOnce(n.kind), n.fields, p, 0, g);
      AmongIff(n, p, g);
    } else {
      assert forall q :: Reach(n, q).Some? ==> q == [];
    }
  }

  lemma AmongFirstOrRest(which: Which, fields: seq<Field>, p: Path, i: nat, g: R.Group)
    requires fields != []
    ensures SomeGroupAmong(which, fields, p, i, g) <==>
      || (Takes(which, fields[0]) && exists q :: IsGroupAt(fields[0].node, p + [i], q, g))
      || SomeGroupAmong(which, fields[1..], p, i + 1, g)
  {
    if j: nat, q :| IsGroupAmong(which, fields, p, i, j, q, g) {
      if j > 0 {
        assert i + 1 + (j - 1) == i + j;
        assert IsGroupAmong(which, fields[1..], p, i + 1, j - 1, q, g);
      }
    }
    if q :| Takes(which, fields[0]) && IsGroupAt(fields[0].node, p + [i], q, g) {
      assert i + 0 == i;
      assert IsGroupAmong(which, fields, p, i, 0, q, g);
    }
    var rest, k := fields[1..], i + 1;
    if j: nat, q :| IsGroupAmong(which, rest, p, k, j, q, g) {
      assert i + (j + 1) == i + 1 + j;
      assert IsGroupAmong(which, fields, p, i, j + 1, q, g);
    }
  }

  lemma {:induction false} RegisteredAmongIff(which: Which, fields: seq<Field>, p: Path, i: nat, g: R.Group)
    ensures Registered(ObjectsAmong(which, fields, p, i), g) <==> SomeGroupAmong(which, fields, p, i, g)
    decreases fields, 0
  {
    if fields != [] {
      var first := if Takes(which, fields[0]) then Objects(fields[0].node, p + [i]) else [];
      RegisteredInTwoParts(first, ObjectsAmong(which, fields[1..], p, i + 1), g);
      RegisteredIff(fields[0].node, p + [i], g);
      RegisteredAmongIff(which, fields[1..], p, i + 1, g);
      AmongFirstOrRest(which, fields, p, i, g);
    }
  }

  // ----- the groups of the whole tree

  /** The node at q when it is evaluated at some time: a deferred field is, when no error reaches its
      object. */
  ghost function Ran(n: Node, q: Path): Option<Node>
    decreases q
  {
    if q == [] then Some(n)
    else if n.Tree? && q[0] < |n.fields| && (IsDeferred(n.kind, n.fields[q[0]]) ==> !Errs(n)) then Ran(n.fields[q[0]].node, q[1..])
    else None
  }

  /** g is the group of an object that is evaluated at some time. */
  ghost predicate IsDeepAt(n: Node, p: Path, q: Path, g: R.Group) { Ran(n, q).Some? && IsGroupOf(Ran(n, q).value, p + q, g) }

  ghost predicate IsDeepAmong(which: Which, fields: seq<Field>, p: Path, i: nat, j: nat, q: Path, g: R.Group)
  {
    j < |fields| && Takes(which, fields[j]) && IsDeepAt(fields[j].node, p + [i + j], q, g)
  }

  ghost predicate SomeDeepAmong(which: Which, fields: seq<Field>, p: Path, i: nat, g: R.Group)
  {
    exists j: nat, q :: IsDeepAmong(which, fields, p, i, j, q, g)
  }

  lemma DeepFirstOrRest(which: Which, fields: seq<Field>, p: Path, i: nat, g: R.Group)
    requires fields != []
    ensures SomeDeepAmong(which, fields, p, i, g) <==>
      || (Takes(which, fields[0]) && exists q :: IsDeepAt(fields[0].node, p + [i], q, g))
      || SomeDeepAmong(which, fields[1..], p, i + 1, g)
  {
    if j: nat, q :| IsDeepAmong(which, fields, p, i, j, q, g) {
      if j > 0 {
        assert i + 1 + (j - 1) == i + j;
        assert IsDeepAmong(which, fields[1..], p, i + 1, j - 1, q, g);
      }
    }
    if q :| Takes(which, fields[0]) && IsDeepAt(fields[0].node, p + [i], q, g) {
      assert i + 0 == i;
      assert IsDeepAmong(which, fields, p, i, 0, q, g);
    }
    var rest, k := fields[1..], i + 1;
    if j: nat, q :| IsDeepAmong(which, rest, p, k, j, q, g) {
      assert i + (j + 1) == i + 1 + j;
      assert IsDeepAmong(which, fields, p, i, j + 1, q, g);
    }
  }

  /** A position below n is in a field that is evaluated at once, or in one of a group that n registers. */
  lemma DeepIsAmong(n: Node, p: Path, j: nat, q: Path, g: R.Group)
    requires n.Tree? && j < |n.fields|
    ensures var f := n.fields[j];
      IsDeepAt(n, p, [j] + q, g) <==>
        if IsDeferred(n.kind, f) then !Errs(n) && IsDeepAmong(InGroup(f.tag.value), n.fields, p, 0, j, q, g)
        else IsDeepAmong(AtOnce(n.kind), n.fields, p, 0, j, q, g)
  {
    assert ([j] + q)[1..] == q;
    assert 0 + j == j && p + ([j] + q) == (p + [j]) + q;
  }

  lemma DeepIff(n: Node, p: Path, g: R.Group)
    requires n.Tree?
    ensures (exists q :: IsDeepAt(n, p, q, g)) <==>
      || IsGroupOf(n, p, g)
      || SomeDeepAmong(AtOnce(n.kind), n.fields, p, 0, g)
      || (Registers(n) && exists tag :: SomeDeepAmong(InGroup(tag), n.fields, p, 0, g))
  {
    RegistersIff(n);
    assert p + [] == p;
    if q :| IsDeepAt(n, p, q, g) {
      if q == [] {
        assert IsGroupOf(n, p, g);
      } else {
        assert [q[0]] + q[1..] == q;
        DeepIsAmong(n, p, q[0], q[1..], g);
      }
    }
    if IsGroupOf(n, p, g) {
      assert IsDeepAt(n, p, [], g);
    }
    if j: nat, q :| IsDeepAmong(AtOnce(n.kind), n.fields, p, 0, j, q, g) {
      DeepIsAmong(n, p, j, q, g);
    }
    if Registers(n) && exists tag :: SomeDeepAmong(InGroup(tag), n.fields, p, 0, g) {
      var tag :| SomeDeepAmong(InGroup(tag), n.fields, p, 0, g);
      var j: nat, q :| IsDeepAmong(InGroup(tag), n.fields, p, 0, j, q, g);
      DeepIsAmong(n, p, j, q, g);
    }
  }

  lemma {:induction false} BagOfTwoParts(a: seq<R.Object>, b: seq<R.Object>)
    ensures R.ObjectsBag(a + b) == R.ObjectsBag(a) + R.ObjectsBag(b)
    ensures R.Fresh(a) && R.Fresh(b) ==> R.Fresh(a + b)
    decreases |a|
  {
    if a == [] {
      assert a + b == b;
    } else {
      BagOfTwoParts(a[1..], b);
      assert (a + b)[1..] == a[1..] + b;
    }
  }

  /** The groups registered at any depth when n is evaluated are those of the objects that are
      evaluated at some time and that no error reaches. */
  lemma {:induction false} BagIff(n: Node, p: Path, g: R.Group)
    ensures g in R.ObjectsBag(Objects(n, p)) <==> exists q :: IsDeepAt(n, p, q, g)
    decreases n, 0, 0
  {
    if n.Tree? {
      var groups := if Registers(n) then Groups(n.fields, Tags(n.fields), p) else [];
      var own := Own(n, p, groups);
      BagOfTwoParts(own, ObjectsAmong(AtOnce(n.kind), n.fields, p, 0));
      BagAmongIff(AtOnce(n.kind), n.fields, p, 0, g);
      BagOfGroupsIff(n.fields, Tags(n.fields), p, g);
      OwnBag(n, p, groups);
      OwnIff(n, p, g);
      SomeTag(n.fields, p, g);
      DeepIff(n, p, g);
    } else {
      assert forall q :: Ran(n, q).Some? ==> q == [];
    }
  }

  lemma OwnBag(n: Node, p: Path, groups: seq<R.Group>)
    requires !Registers(n) ==> groups == []
    ensures R.ObjectsBag(Own(n, p, groups)) == R.GroupsBag(groups)
  {
    if Registers(n) {
      assert Own(n, p, groups)[1..] == [];
      assert R.GroupsBag(groups) + multiset{} == R.GroupsBag(groups);
    }
  }

  lemma SomeTag(fields: seq<Field>, p: Path, g: R.Group)
    ensures (exists tag <- Tags(fields) :: SomeDeepAmong(InGroup(tag), fields, p, 0, g))
       <==> exists tag :: SomeDeepAmong(InGroup(tag), fields, p, 0, g)
  {
    if tag :| SomeDeepAmong(InGroup(tag), fields, p, 0, g) {
      var j: nat, q :| IsDeepAmong(InGroup(tag), fields, p, 0, j, q, g);
      TagsIff(fields, tag);
      assert fields[j] in fields;
    }
  }

  lemma {:induction false} BagAmongIff(which: Which, fields: seq<Field>, p: Path, i: nat, g: R.Group)
    ensures g in R.ObjectsBag(ObjectsAmong(which, fields, p, i)) <==> SomeDeepAmong(which, fields, p, i, g)
    decreases fields, 0, 0
  {
    if fields != [] {
      BagOfTwoParts(if Takes(which, fields[0]) then Objects(fields[0].node, p + [i]) else [], ObjectsAmong(which, fields[1..], p, i + 1));
      BagIff(fields[0].node, p + [i], g);
      BagAmongIff(which, fields[1..], p, i + 1, g);
      DeepFirstOrRest(which, fields, p, i, g);
    }
  }

  lemma {:induction false} BagOfGroupsIff(fields: seq<Field>, tags: seq<string>, p: Path, g: R.Group)
    ensures g in R.GroupsBag(Groups(fields, tags, p)) <==>
      g in Groups(fields, tags, p) || exists tag <- tags :: SomeDeepAmong(InGroup(tag), fields, p, 0, g)
    decreases fields, 1, |tags|
  {
    if tags != [] {
      var first := GroupOf(fields, tags[0], p);
      BagAmongIff(InGroup(tags[0]), fields, p, 0, g);
      BagOfGroupsIff(fields, tags[1..], p, g);
      assert Groups(fields, tags, p)[1..] == Groups(fields, tags[1..], p);
      assert R.GroupsBag(Groups(fields, tags, p)) == R.GroupBag(first) + R.GroupsBag(Groups(fields, tags[1..], p));
      assert tags == [tags[0]] + tags[1..];
    }
  }

  // ----- every group is in the tree once

  lemma AmongPath(which: Which, fields: seq<Field>, p: Path, i: nat, g: R.Group)
    requires SomeDeepAmong(which, fields, p, i, g)
    ensures |p| < |g.path| && i <= g.path[|p|] < i + |fields| && Takes(which, fields[g.path[|p|] - i])
  {
    var j: nat, q :| IsDeepAmong(which, fields, p, i, j, q, g);
    assert g.path == (p + [i + j]) + q;
  }

  lemma ObjectsPath(n: Node, p: Path, g: R.Group)
    requires g in R.ObjectsBag(Objects(n, p))
    ensures p <= g.path
  {
    BagIff(n, p, g);
    var q :| IsDeepAt(n, p, q, g);
    assert g.path == p + q;
  }

  lemma {:induction false} OnceInBag(n: Node, p: Path, g: R.Group)
    ensures R.ObjectsBag(Objects(n, p))[g] <= 1
    decreases n, 0, 0
  {
    if n.Tree? {
      var groups := if Registers(n) then Groups(n.fields, Tags(n.fields), p) else [];
      BagOfTwoParts(Own(n, p, groups), ObjectsAmong(AtOnce(n.kind), n.fields, p, 0));
      OwnBag(n, p, groups);
      TagsAreDistinct(n.fields);
      OnceInGroups(n.fields, Tags(n.fields), p, g);
      OnceAmong(AtOnce(n.kind), n.fields, p, 0, g);
      if g in R.GroupsBag(groups) && g in R.ObjectsBag(ObjectsAmong(AtOnce(n.kind), n.fields, p, 0)) {
        BagAmongIff(AtOnce(n.kind), n.fields, p, 0, g);
        AmongPath(AtOnce(n.kind), n.fields, p, 0, g);
        OfGroupsPath(n.fields, Tags(n.fields), p, g);
        assert false;
      }
    }
  }

  lemma {:induction false} OnceAmong(which: Which, fields: seq<Field>, p: Path, i: nat, g: R.Group)
    ensures R.ObjectsBag(ObjectsAmong(which, fields, p, i))[g] <= 1
    decreases fields, 0, 0
  {
    if fields != [] {
      var first := if Takes(which, fields[0]) then Objects(fields[0].node, p + [i]) else [];
      var rest := ObjectsAmong(which, fields[1..], p, i + 1);
      BagOfTwoParts(first, rest);
      OnceInBag(fields[0].node, p + [i], g);
      OnceAmong(which, fields[1..], p, i + 1, g);
      if g in R.ObjectsBag(first) && g in R.ObjectsBag(rest) {
        ObjectsPath(fields[0].node, p + [i], g);
        BagAmongIff(which, fields[1..], p, i + 1, g);
        AmongPath(which, fields[1..], p, i + 1, g);
        assert false;
      }
    }
  }

  /** A group in the bag of the groups of an object is one of them, or below a field with one of the
      labels. */
  lemma OfGroupsPath(fields: seq<Field>, tags: seq<string>, p: Path, g: R.Group)
    requires g in R.GroupsBag(Groups(fields, tags, p))
    ensures |g.path| == |p| || (|p| < |g.path| && g.path[|p|] < |fields| && exists tag <- tags :: fields[g.path[|p|]].tag == Some(tag))
    ensures |g.path| == |p| ==> g.tag in tags
  {
    BagOfGroupsIff(fields, tags, p, g);
    GroupsIff(fields, tags, p, g);
    if tag :| tag in tags && SomeDeepAmong(InGroup(tag), fields, p, 0, g) {
      AmongPath(InGroup(tag), fields, p, 0, g);
    }
  }

  lemma {:induction false} OnceInGroups(fields: seq<Field>, tags: seq<string>, p: Path, g: R.Group)
    requires forall i, j :: 0 <= i < j < |tags| ==> tags[i] != tags[j]
    ensures R.GroupsBag(Groups(fields, tags, p))[g] <= 1
    decreases fields, 1, |tags|
  {
    if tags != [] {
      var first, rest := GroupOf(fields, tags[0], p), Groups(fields, tags[1..], p);
      assert Groups(fields, tags, p)[1..] == rest;
      OnceAmong(InGroup(tags[0]), fields, p, 0, g);
      OnceInGroups(fields, tags[1..], p, g);
      BagAmongIff(InGroup(tags[0]), fields, p, 0, g);
      if g in R.ObjectsBag(first.objects) {
        AmongPath(InGroup(tags[0]), fields, p, 0, g);
        assert g != first;
      }
      if g in R.GroupBag(first) && g in R.GroupsBag(rest) {
        OfGroupsPath(fields, tags[1..], p, g);
        assert false;
      }
    }
  }

  lemma {:induction false} TagsAreDistinct(fields: seq<Field>)
    ensures forall i, j :: 0 <= i < j < |Tags(fields)| ==> Tags(fields)[i] != Tags(fields)[j]
  {
    if fields != [] {
      TagsAreDistinct(fields[..|fields| - 1]);
    }
  }

  // ----- what is delivered

  lemma {:induction false} ObjectsAreFresh(n: Node, p: Path)
    ensures R.Fresh(Objects(n, p))
    decreases n, 0, 0
  {
    if n.Tree? {
      var groups := if Registers(n) then Groups(n.fields, Tags(n.fields), p) else [];
      GroupsAreFresh(n.fields, Tags(n.fields), p);
      AmongIsFresh(AtOnce(n.kind), n.fields, p, 0);
      assert R.Fresh(Own(n, p, groups));
      BagOfTwoParts(Own(n, p, groups), ObjectsAmong(AtOnce(n.kind), n.fields, p, 0));
    }
  }

  lemma {:induction false} AmongIsFresh(which: Which, fields: seq<Field>, p: Path, i: nat)
    ensures R.Fresh(ObjectsAmong(which, fields, p, i))
    decreases fields, 0, 0
  {
    if fields != [] {
      ObjectsAreFresh(fields[0].node, p + [i]);
      AmongIsFresh(which, fields[1..], p, i + 1);
      BagOfTwoParts(if Takes(which, fields[0]) then Objects(fields[0].node, p + [i]) else [], ObjectsAmong(which, fields[1..], p, i + 1));
    }
  }

  lemma {:induction false} GroupsAreFresh(fields: seq<Field>, tags: seq<string>, p: Path)
    ensures forall g <- Groups(fields, tags, p) :: R.Fresh(g.objects)
    decreases fields, 1, |tags|
  {
    if tags != [] {
      AmongIsFresh(InGroup(tags[0]), fields, p, 0);
      GroupsAreFresh(fields, tags[1..], p);
    }
  }

  /** Over every run, every answer after the first is the result of one label of an object of the
      tree, the object at the answer's path, at any depth; and it is null exactly when an error
      reaches a Non-Null field of that label. */
  lemma AnswersFollowRule(n: Node, run: seq<R.State>, i: nat, k: nat)
    requires R.IsRun(R.Query, Objects(n, []), run) && i < |run|
    requires 0 < k < |run[i].responses| && run[i].responses[k].Response?
    ensures var r := run[i].responses[k];
      && Ran(n, r.path).Some? && Ran(n, r.path).value.Tree? && !Errs(Ran(n, r.path).value)
      && var fields := Ran(n, r.path).value.fields;
      && (exists f <- fields :: f.tag == Some(r.tag))
      && (r.data.Null? <==> exists j, q :: 0 <= j < |fields| && ErrorInGroup(fields[j], r.tag, q))
      && (!r.data.Null? ==> r.data == R.Fields(GroupOf(fields, r.tag, r.path)))
  {
    ObjectsAreFresh(n, []);
    R.DeliveredAtMostOnce(Objects(n, []), run, i, k);
    R.RunInv(R.Query, Objects(n, []), run, i);
    var s := run[i];
    var g := s.groups[s.received[k - 1]];
    assert R.Delivered(s)[k - 1] == g;
    assert g in multiset(R.Delivered(s)) + R.AllToCome(s.workers);
    BagIff(n, [], g);
    var q :| IsDeepAt(n, [], q, g);
    assert [] + q == q;
    GroupIsNullIff(Ran(n, q).value.fields, g.tag, q);
  }

  /** When the handler has returned nil, exactly the groups of the objects that were evaluated at some
      time and that no error reaches have been delivered, at any depth, each once. */
  lemma DeliveredIff(n: Node, run: seq<R.State>, i: nat, k: nat, g: R.Group)
    requires R.IsRun(R.Query, Objects(n, []), run) && i < |run| && k < |run[i].responses| && run[i].responses[k].Nil?
    ensures R.Indexed(run[i])
    ensures g in R.Delivered(run[i]) <==> exists q :: IsDeepAt(n, [], q, g)
    ensures multiset(R.Delivered(run[i]))[g] <= 1
  {
    OnceInBag(n, [], g);
    ObjectsAreFresh(n, []);
    R.NilMeansAllDelivered(Objects(n, []), run, i, k);
    assert g in R.Delivered(run[i]) <==> g in multiset(R.Delivered(run[i]));
    BagIff(n, [], g);
  }

  /** The object keeps its groups but is not in the output: no error reaches it, but something above
      it is null. */
  ghost predicate Orphaned(n: Node, q: Path) { HasGroups(n, q) && BelowNull(n, q) }

  /** At q, not below a deferred field, there is an object with deferred fields that no error reaches. */
  ghost predicate HasGroups(n: Node, q: Path)
  {
    Reach(n, q).Some? && !Errs(Reach(n, q).value) &&
    match Reach(n, q).value
    case Tree(kind, fields) => kind.ObjectKind? && exists f <- fields :: f.tag != None
    case _ => false
  }

  /** A group that is registered has no place in the output exactly when its object is orphaned. */
  lemma PlaceOfGroup(n: Node, eval: seq<NP.Exec>, o: NP.Output, q: Path, g: R.Group)
    requires NP.IsRun(Now(n), eval) && eval[|eval| - 1] == NP.Done(o)
    requires IsGroupAt(n, [], q, g)
    ensures g.path == q && HasGroups(n, q)
    ensures NP.Find(o, q) == None <==> Orphaned(n, q)
    ensures !Orphaned(n, q) ==> NP.Find(o, q).value.Branch?
  {
    assert [] + q == q;
    FirstResponseShowsTree(n, eval, o, q);
  }

  lemma HasGroupsHasGroup(n: Node, q: Path) returns (g: R.Group)
    requires HasGroups(n, q)
    ensures IsGroupAt(n, [], q, g)
  {
    var fields := Reach(n, q).value.fields;
    var f :| f in fields && f.tag != None;
    g := GroupOf(fields, f.tag.value, [] + q);
  }

  /** Over every run of a query and every schedule of its fields: once the handler has returned nil,
      some group of the first response was delivered without a place in it exactly when the tree
      has an orphaned object. */
  lemma DeliveredWithoutPlaceIff(n: Node, eval: seq<NP.Exec>, o: NP.Output, run: seq<R.State>, i: nat, k: nat)
    requires NP.IsRun(Now(n), eval) && eval[|eval| - 1] == NP.Done(o)
    requires R.IsRun(R.Query, Objects(n, []), run) && i < |run| && k < |run[i].responses| && run[i].responses[k].Nil?
    ensures R.Indexed(run[i])
    ensures (exists g <- R.Delivered(run[i]), q :: IsGroupAt(n, [], q, g) && NP.Find(o, g.path) == None)
      <==> exists q :: Orphaned(n, q)
  {
    ObjectsAreFresh(n, []);
    R.NilMeansAllDelivered(Objects(n, []), run, i, k);
    if g, q :| g in R.Delivered(run[i]) && IsGroupAt(n, [], q, g) && NP.Find(o, g.path) == None {
      PlaceOfGroup(n, eval, o, q, g);
    }
    if q :| Orphaned(n, q) {
      var g := HasGroupsHasGroup(n, q);
      PlaceOfGroup(n, eval, o, q, g);
      ReachIsRan(n, q);
      assert IsDeepAt(n, [], q, g);
      DeliveredIff(n, run, i, k, g);
    }
  }

  lemma {:induction false} ReachIsRan(n: Node, q: Path)
    requires Reach(n, q).Some?
    ensures Ran(n, q) == Reach(n, q)
    decreases q
  {
    if q != [] {
      ReachIsRan(n.fields[q[0]].node, q[1..]);
    }
  }

  /** Two Non-Null fields of the query: an object with a deferred field, and an error. */
  const OrphanTree: Node :=
    Tree(NP.ObjectKind, [
      Field("me", true, None, Tree(NP.ObjectKind, [Field("myWorkspace", false, Some("later"), Leaf("w"))])),
      Field("error", true, None, Missing)])

  lemma OrphansExist()
    ensures Orphaned(OrphanTree, [0])
  {
    var n, q := OrphanTree, [0];
    var me := n.fields[0].node;
    assert q[1..] == [];
    assert Reach(n, q) == Some(me);
    assert me.fields[0] in me.fields;
    forall r ensures !ErrorReaches(me, r) {
    }
    assert [1][1..] == [];
    assert ErrorReaches(n, [1]);
    assert q[..0] == [] && Reach(n, q[..0]) == Some(n);
    assert NullAt(n, q[..0]);
  }
}
