/** Null propagation in the generated GraphQL executor: object functions count invalid fields,
    list marshalling scans its elements, and all fields and elements of one operation may run
    concurrently.  The output is compared with the rule of section 6.4.4 of the GraphQL
    specification (October 2021), stated on paths. */
module NullPropagation {
  import opened Wrappers

  datatype Kind = ObjectKind | ListKind

  /** What the resolvers give for one position: nothing (a field error or a null value), a leaf
      value, or an object or list with its children. */
  datatype Node = Missing | Leaf(text: string) | Tree(kind: Kind, children: seq<Child>)

  /** A field of an object or an element of a list; `nonNull` says that its type is Non-Null. */
  datatype Child = Child(key: string, nonNull: bool, node: Node)

  datatype Output = Null | Text(text: string) | Branch(kind: Kind, entries: seq<Entry>)

  datatype Entry = Entry(key: string, value: Output)

  // ----- the rule of the specification

  type Path = seq<nat>

  predicate HasPosition(n: Node, p: Path)
  {
    p != [] ==> n.Tree? && p[0] < |n.children| && HasPosition(n.children[p[0]].node, p[1..])
  }

  function NodeAt(n: Node, p: Path): Node
    requires HasPosition(n, p)
  {
    if p == [] then n else NodeAt(n.children[p[0]].node, p[1..])
  }

  /** Every position on the way down p, the start excluded, has a Non-Null type. */
  predicate NonNullDown(n: Node, p: Path)
    requires HasPosition(n, p)
  {
    p != [] ==> n.children[p[0]].nonNull && NonNullDown(n.children[p[0]].node, p[1..])
  }

  /** The error (or null) at p + q reaches p through Non-Null positions only. */
  predicate ReachedFrom(n: Node, p: Path, q: Path)
    requires HasPosition(n, p)
  {
    HasPosition(NodeAt(n, p), q) && NodeAt(NodeAt(n, p), q).Missing? && NonNullDown(NodeAt(n, p), q)
  }

  ghost predicate Nulled(n: Node, p: Path)
    requires HasPosition(n, p)
  {
    exists q :: ReachedFrom(n, p, q)
  }

  /** Some position strictly above p is nulled, so that p is not in the output at all. */
  ghost predicate Hidden(n: Node, p: Path)
    requires HasPosition(n, p)
  {
    exists k :: 0 <= k < |p| && HasPosition(n, p[..k]) && Nulled(n, p[..k])
  }

  /** What the output has at path p, if the path exists there. */
  function Find(o: Output, p: Path): Option<Output>
  {
    if p == [] then Some(o)
    else if o.Branch? && p[0] < |o.entries| then Find(o.entries[p[0]].value, p[1..])
    else None
  }

  // ----- concurrent execution, one step at a time

  /** The evaluation of a position.  `invalids` is the counter of an object's field set; a slot is
      written when its goroutine has stored the value (and counted it when invalid). */
  datatype Exec = Done(output: Output) | Running(kind: Kind, slots: seq<Slot>, invalids: nat)

  datatype Slot = Slot(key: string, nonNull: bool, exec: Exec, written: bool)

  function Start(n: Node): Exec
  {
    match n
    case Missing => Done(Null)
    case Leaf(t) => Done(Text(t))
    case Tree(kind, children) => Running(kind, StartAll(children), 0)
  }

  function StartAll(children: seq<Child>): (slots: seq<Slot>)
    ensures |slots| == |children|
  {
    if children == [] then []
    else [Slot(children[0].key, children[0].nonNull, Start(children[0].node), false)] + StartAll(children[1..])
  }

  predicate Invalid(s: Slot) { s.nonNull && s.exec.Done? && s.exec.output.Null? }

  predicate AllWritten(slots: seq<Slot>) { forall s <- slots :: s.written && s.exec.Done? }

  function Entries(slots: seq<Slot>): seq<Entry>
    requires AllWritten(slots)
  {
    seq(|slots|, i requires 0 <= i < |slots| => Entry(slots[i].key, slots[i].exec.output))
  }

  /** The end of an object function or of list marshalling, after all goroutines are done. */
  function Close(kind: Kind, slots: seq<Slot>, invalids: nat): Output
    requires AllWritten(slots)
  {
    match kind
    case ObjectKind => if invalids > 0 then Null else Branch(kind, Entries(slots))
    case ListKind => if exists s <- slots :: Invalid(s) then Null else Branch(kind, Entries(slots))
  }

  /** One step of some goroutine: a step inside a child, the store of a finished child's value,
      or the end of the whole object or list. */
  ghost predicate Step(e: Exec, e': Exec)
    decreases e, 1
  {
    && e.Running?
    && (|| (exists i, x :: 0 <= i < |e.slots| && StepInside(e, i, x, e'))
        || (exists i :: 0 <= i < |e.slots| && StepWrite(e, i, e'))
        || (AllWritten(e.slots) && e' == Done(Close(e.kind, e.slots, e.invalids))))
  }

  ghost predicate StepInside(e: Exec, i: nat, x: Exec, e': Exec)
    requires e.Running? && i < |e.slots|
    decreases e, 0
  {
    Step(e.slots[i].exec, x) && e' == e.(slots := e.slots[i := e.slots[i].(exec := x)])
  }

  predicate StepWrite(e: Exec, i: nat, e': Exec)
    requires e.Running? && i < |e.slots|
  {
    && e.slots[i].exec.Done? && !e.slots[i].written
    && e' == Running(e.kind, e.slots[i := e.slots[i].(written := true)],
                     if e.kind.ObjectKind? && Invalid(e.slots[i]) then e.invalids + 1 else e.invalids)
  }

  ghost predicate IsRun(n: Node, run: seq<Exec>)
  {
    run != [] && run[0] == Start(n) && forall i :: 0 <= i < |run| - 1 ==> Step(run[i], run[i + 1])
  }

  // ----- the value that every schedule computes

  function Value(n: Node): Output
  {
    match n
    case Missing => Null
    case Leaf(t) => Text(t)
    case Tree(kind, children) =>
      if AnyInvalid(children) then Null else Branch(kind, Values(children))
  }

  function Values(children: seq<Child>): (es: seq<Entry>)
    ensures |es| == |children|
  {
    if children == [] then [] else [Entry(children[0].key, Value(children[0].node))] + Values(children[1..])
  }

  predicate AnyInvalid(children: seq<Child>)
  {
    children != [] && ((children[0].nonNull && Value(children[0].node).Null?) || AnyInvalid(children[1..]))
  }

  /** e is a partial evaluation of n. */
  ghost predicate Evaluates(e: Exec, n: Node)
    decreases n
  {
    match e
    case Done(o) => o == Value(n)
    case Running(kind, slots, invalids) =>
      && n.Tree? && kind == n.kind && |slots| == |n.children|
      && (kind.ObjectKind? ==> invalids == CountInvalid(slots))
      && forall i :: 0 <= i < |slots| ==> SlotEvaluates(slots[i], n.children[i])
  }

  ghost predicate SlotEvaluates(s: Slot, c: Child)
    decreases c
  {
    s.key == c.key && s.nonNull == c.nonNull && (s.written ==> s.exec.Done?) && Evaluates(s.exec, c.node)
  }

  function CountInvalid(slots: seq<Slot>): nat
  {
    if slots == [] then 0 else (if slots[0].written && Invalid(slots[0]) then 1 else 0) + CountInvalid(slots[1..])
  }

  // ----- every step keeps the value

  lemma {:induction false} StartEvaluates(n: Node)
    ensures Evaluates(Start(n), n)
    decreases n, 1
  {
    if n.Tree? {
      StartAllEvaluates(n.children);
    }
  }

  lemma {:induction false} StartAllEvaluates(children: seq<Child>)
    ensures CountInvalid(StartAll(children)) == 0
    ensures forall i :: 0 <= i < |children| ==> SlotEvaluates(StartAll(children)[i], children[i])
    decreases children, 0
  {
    if children != [] {
      StartEvaluates(children[0].node);
      StartAllEvaluates(children[1..]);
      assert StartAll(children)[1..] == StartAll(children[1..]);
    }
  }

  lemma {:induction false} CountUpdate(slots: seq<Slot>, i: nat, s: Slot)
    requires i < |slots|
    ensures CountInvalid(slots[i := s]) + CountInvalid([slots[i]]) == CountInvalid(slots) + CountInvalid([s])
  {
    if i == 0 {
      assert slots[0 := s][1..] == slots[1..];
    } else {
      CountUpdate(slots[1..], i - 1, s);
      assert slots[i := s][1..] == slots[1..][i - 1 := s];
    }
  }

  lemma ClosedSlot(s: Slot, c: Child)
    requires SlotEvaluates(s, c) && s.exec.Done?
    ensures s.exec.output == Value(c.node) && (Invalid(s) <==> c.nonNull && Value(c.node).Null?)
  {
  }

  /** When all slots are written, the counter and the scan agree with the specification. */
  lemma {:induction false} ClosedInvalids(slots: seq<Slot>, children: seq<Child>)
    requires |slots| == |children| && AllWritten(slots)
    requires forall i :: 0 <= i < |slots| ==> SlotEvaluates(slots[i], children[i])
    ensures CountInvalid(slots) > 0 <==> AnyInvalid(children)
    ensures (exists s <- slots :: Invalid(s)) <==> AnyInvalid(children)
  {
    if slots != [] {
      assert slots[0] in slots && SlotEvaluates(slots[0], children[0]);
      ClosedSlot(slots[0], children[0]);
      ClosedInvalids(slots[1..], children[1..]);
      assert slots == [slots[0]] + slots[1..];
    }
  }

  lemma {:induction false} ClosedEntries(slots: seq<Slot>, children: seq<Child>)
    requires |slots| == |children| && AllWritten(slots)
    requires forall i :: 0 <= i < |slots| ==> SlotEvaluates(slots[i], children[i])
    ensures Entries(slots) == Values(children)
  {
    if slots != [] {
      assert slots[0] in slots && SlotEvaluates(slots[0], children[0]);
      ClosedSlot(slots[0], children[0]);
      ClosedEntries(slots[1..], children[1..]);
      assert Entries(slots) == [Entry(slots[0].key, slots[0].exec.output)] + Entries(slots[1..]);
    }
  }

  lemma {:induction false} StepKeepsValue(e: Exec, e': Exec, n: Node)
    requires Evaluates(e, n) && Step(e, e')
    ensures Evaluates(e', n)
    decreases e
  {
    if i, x :| 0 <= i < |e.slots| && StepInside(e, i, x, e') {
      assert SlotEvaluates(e.slots[i], n.children[i]);
      StepKeepsValue(e.slots[i].exec, x, n.children[i].node);
      CountUpdate(e.slots, i, e.slots[i].(exec := x));
    } else if i :| 0 <= i < |e.slots| && StepWrite(e, i, e') {
      assert SlotEvaluates(e.slots[i], n.children[i]);
      CountUpdate(e.slots, i, e.slots[i].(written := true));
    } else {
      ClosedInvalids(e.slots, n.children);
      ClosedEntries(e.slots, n.children);
      assert Close(e.kind, e.slots, e.invalids) == Value(n);
    }
  }

  // ----- every schedule ends

  function Cost(e: Exec): nat
  {
    match e
    case Done(_) => 0
    case Running(_, slots, _) => 1 + SlotsCost(slots)
  }

  function SlotsCost(slots: seq<Slot>): nat
  {
    if slots == [] then 0 else SlotCost(slots[0]) + SlotsCost(slots[1..])
  }

  function SlotCost(s: Slot): nat { (if s.written then 0 else 1) + Cost(s.exec) }

  lemma {:induction false} SlotsCostUpdate(slots: seq<Slot>, i: nat, s: Slot)
    requires i < |slots|
    ensures SlotsCost(slots[i := s]) + SlotCost(slots[i]) == SlotsCost(slots) + SlotCost(s)
  {
    if i == 0 {
      assert slots[0 := s][1..] == slots[1..];
    } else {
      SlotsCostUpdate(slots[1..], i - 1, s);
      assert slots[i := s][1..] == slots[1..][i - 1 := s];
    }
  }

  lemma {:induction false} StepCosts(e: Exec, e': Exec)
    requires Step(e, e')
    ensures Cost(e') < Cost(e)
    decreases e
  {
    if i, x :| 0 <= i < |e.slots| && StepInside(e, i, x, e') {
      StepCosts(e.slots[i].exec, x);
      SlotsCostUpdate(e.slots, i, e.slots[i].(exec := x));
    } else if i :| 0 <= i < |e.slots| && StepWrite(e, i, e') {
      SlotsCostUpdate(e.slots, i, e.slots[i].(written := true));
    }
  }

  /** A position that is not done has a goroutine that can move. */
  lemma {:induction false} NotDoneMoves(e: Exec) returns (e': Exec)
    requires e.Running?
    ensures Step(e, e')
    decreases e
  {
    if i: nat :| i < |e.slots| && e.slots[i].exec.Running? {
      var x := NotDoneMoves(e.slots[i].exec);
      e' := e.(slots := e.slots[i := e.slots[i].(exec := x)]);
      assert StepInside(e, i, x, e');
    } else if i: nat :| i < |e.slots| && !e.slots[i].written {
      e' := Running(e.kind, e.slots[i := e.slots[i].(written := true)],
                    if e.kind.ObjectKind? && Invalid(e.slots[i]) then e.invalids + 1 else e.invalids);
      assert StepWrite(e, i, e');
    } else {
      e' := Done(Close(e.kind, e.slots, e.invalids));
    }
  }

  lemma {:induction false} RunEvaluates(n: Node, run: seq<Exec>, i: nat)
    requires IsRun(n, run) && i < |run|
    ensures Evaluates(run[i], n) && Cost(run[i]) + i <= Cost(Start(n))
  {
    if i == 0 {
      StartEvaluates(n);
    } else {
      RunEvaluates(n, run, i - 1);
      assert Step(run[i - 1], run[i - 1 + 1]);
      StepKeepsValue(run[i - 1], run[i], n);
      StepCosts(run[i - 1], run[i]);
    }
  }

  // ----- the value is what the specification's rule says

  lemma {:induction false} ValueAt(children: seq<Child>, i: nat)
    requires i < |children|
    ensures Values(children)[i] == Entry(children[i].key, Value(children[i].node))
    ensures children[i].nonNull && Value(children[i].node).Null? ==> AnyInvalid(children)
  {
    if i > 0 {
      ValueAt(children[1..], i - 1);
    }
  }

  lemma {:induction false} InvalidChild(children: seq<Child>) returns (i: nat)
    requires AnyInvalid(children)
    ensures i < |children| && children[i].nonNull && Value(children[i].node).Null?
  {
    if children[0].nonNull && Value(children[0].node).Null? {
      i := 0;
    } else {
      var j := InvalidChild(children[1..]);
      i := j + 1;
    }
  }

  /** A null value comes from an error that reaches it through Non-Null positions. */
  lemma {:induction false} NullHasCause(n: Node) returns (q: Path)
    requires Value(n).Null?
    ensures ReachedFrom(n, [], q)
  {
    if n.Missing? {
      q := [];
    } else {
      var i := InvalidChild(n.children);
      var q' := NullHasCause(n.children[i].node);
      q := [i] + q';
      assert q[1..] == q';
    }
  }

  lemma {:induction false} CauseForcesNull(n: Node, q: Path)
    requires ReachedFrom(n, [], q)
    ensures Value(n).Null?
    decreases q
  {
    if q != [] {
      CauseForcesNull(n.children[q[0]].node, q[1..]);
      ValueAt(n.children, q[0]);
    }
  }

  lemma NulledIffNull(n: Node)
    ensures Nulled(n, []) <==> Value(n).Null?
  {
    if Value(n).Null? {
      var q := NullHasCause(n);
    }
    if q :| ReachedFrom(n, [], q) {
      CauseForcesNull(n, q);
    }
  }

  lemma NulledInChild(n: Node, p: Path)
    requires p != [] && HasPosition(n, p)
    ensures Nulled(n, p) <==> Nulled(n.children[p[0]].node, p[1..])
  {
    var c := n.children[p[0]].node;
    assert NodeAt(n, p) == NodeAt(c, p[1..]);
    forall q ensures ReachedFrom(n, p, q) <==> ReachedFrom(c, p[1..], q) {
    }
  }

  lemma {:induction false} PrefixPosition(n: Node, p: Path, k: nat)
    requires HasPosition(n, p) && k <= |p|
    ensures HasPosition(n, p[..k])
  {
    if k > 0 {
      PrefixPosition(n.children[p[0]].node, p[1..], k - 1);
      assert p[..k][1..] == p[1..][..k - 1];
    }
  }

  lemma HiddenInChild(n: Node, p: Path)
    requires p != [] && HasPosition(n, p) && !Nulled(n, [])
    ensures Hidden(n, p) <==> Hidden(n.children[p[0]].node, p[1..])
  {
    var c, p' := n.children[p[0]].node, p[1..];
    forall k | 0 < k < |p|
      ensures p[..k][1..] == p'[..k - 1]
      ensures HasPosition(n, p[..k]) && HasPosition(c, p'[..k - 1])
      ensures Nulled(n, p[..k]) <==> Nulled(c, p'[..k - 1])
    {
      PrefixPosition(n, p, k);
      PrefixPosition(c, p', k - 1);
      assert p[..k][1..] == p'[..k - 1];
      NulledInChild(n, p[..k]);
    }
    if k :| 0 <= k < |p| && HasPosition(n, p[..k]) && Nulled(n, p[..k]) {
      assert p[..0] == [];
      assert Nulled(c, p'[..k - 1]);
    }
    if j :| 0 <= j < |p'| && HasPosition(c, p'[..j]) && Nulled(c, p'[..j]) {
      assert Nulled(n, p[..j + 1]);
    }
  }

  /** In the value, a position is missing exactly when a position above it is nulled, and
      otherwise it is null exactly when it is nulled itself. */
  lemma {:induction false} ValueFollowsRule(n: Node, p: Path)
    requires HasPosition(n, p)
    ensures Find(Value(n), p) == None <==> Hidden(n, p)
    ensures !Hidden(n, p) ==> Find(Value(n), p) == Some(Value(NodeAt(n, p)))
    ensures !Hidden(n, p) ==> (Find(Value(n), p) == Some(Null) <==> Nulled(n, p))
    decreases p
  {
    NulledIffNull(n);
    if p != [] {
      if Value(n).Null? {
        PrefixPosition(n, p, 0);
        assert p[..0] == [];
        assert Nulled(n, p[..0]);
      } else {
        ValueAt(n.children, p[0]);
        ValueFollowsRule(n.children[p[0]].node, p[1..]);
        HiddenInChild(n, p);
        NulledInChild(n, p);
      }
    }
  }

  /** The null positions of the output do not depend on the schedule and are those of section
      6.4.4: a position is null when an error reaches it through Non-Null positions only, and a
      position below a nulled one does not appear. */
  lemma OutputFollowsRule(n: Node, run: seq<Exec>, o: Output, p: Path)
    requires IsRun(n, run) && run[|run| - 1] == Done(o) && HasPosition(n, p)
    ensures Find(o, p) == None <==> Hidden(n, p)
    ensures !Hidden(n, p) ==> (Find(o, p) == Some(Null) <==> Nulled(n, p))
    ensures !Hidden(n, p) && !Nulled(n, p) ==>
      var f, m := Find(o, p).value, NodeAt(n, p);
      if m.Leaf? then f == Text(m.text)
      else && f.Branch? && m.Tree? && f.kind == m.kind && |f.entries| == |m.children|
           && forall i :: 0 <= i < |f.entries| ==> f.entries[i].key == m.children[i].key
  {
    RunEvaluates(n, run, |run| - 1);
    ValueFollowsRule(n, p);
    var m := NodeAt(n, p);
    NulledIffNull(m);
    if m.Tree? {
      forall i | 0 <= i < |m.children| ensures Values(m.children)[i].key == m.children[i].key {
        ValueAt(m.children, i);
      }
    }
  }

  /** Two schedules of the same response tree end with the same output, and every schedule is at
      most as long as the tree allows and can be continued until it is done. */
  lemma SchedulesAgree(n: Node, run: seq<Exec>, run': seq<Exec>, o: Output, o': Output)
    requires IsRun(n, run) && IsRun(n, run')
    requires run[|run| - 1] == Done(o) && run'[|run'| - 1] == Done(o')
    ensures o == o' && |run| <= Cost(Start(n)) + 1
  {
    RunEvaluates(n, run, |run| - 1);
    RunEvaluates(n, run', |run'| - 1);
  }
}
