/** The deferred-result protocol of the GraphQL executor: goroutines register groups on two
    atomic counters, send their results on an unbuffered channel, and one response handler
    drains them.  Every atomic operation of the source is one step of a transition system. */
module DeferredResults {
  import opened Wrappers

  /** A group of deferred fields of the object at `path`.  `objects` are the object functions that its dispatch runs
      and that reach the point where they register deferred groups of their own.
      `invalid` says that the group's field set ended with Invalids > 0. */
  datatype Group = Group(path: seq<nat>, tag: string, invalid: bool, objects: seq<Object>)

  /** An object function about to register `groups`: first it adds their number to `deferred`
      (announced), then for each it adds one to `pendingDeferred` (counted) and starts the
      goroutine. */
  datatype Object = Object(announced: bool, counted: bool, groups: seq<Group>)

  /** A goroutine: it dispatches its group's fields, then sends the result, blocked until the
      handler receives.  The first handler call dispatches the operation and has no group. */
  datatype Thread = Dispatching(group: Option<Group>, objects: seq<Object>) | Sending(group: Option<Group>) | Finished

  datatype Operation = Query | Mutation

  datatype Data = Initial | Fields(group: Group) | Null

  datatype Response = Nil | Response(source: Option<nat>, data: Data, path: seq<nat>, tag: string, hasNext: Option<bool>)

  /** Where the response handler stands.  `Encoding` is before the load of `deferred`,
      `Peeking` before the load of `pendingDeferred` that decides HasNext. */
  datatype Handler =
    | Idle
    | Executing
    | Checking
    | Receiving
    | Received(g: nat)
    | Encoding(response: Response)
    | Peeking(response: Response)

  /** workers[0] is the first handler call, which executes the operation itself;
      workers[g + 1] is the goroutine of groups[g]. */
  datatype State = State(
    op: Operation,
    first: bool,
    handler: Handler,
    groups: seq<Group>,
    workers: seq<Thread>,
    deferred: int,
    pending: int,
    received: seq<nat>,
    responses: seq<Response>)

  datatype Step =
    | Call
    | Announce(w: nat, o: nat)
    | Count(w: nat, o: nat)
    | Spawn(w: nat, o: nat)
    | Finish(w: nat)
    | CheckPending
    | Receive(g: nat)
    | Decrement
    | LoadDeferred
    | LoadPending

  // ----- the transition system

  ghost predicate Fresh(objects: seq<Object>)
  {
    forall o <- objects :: FreshObject(o)
  }

  ghost predicate FreshObject(o: Object)
  {
    !o.announced && !o.counted && forall g <- o.groups :: Fresh(g.objects)
  }

  function Init(op: Operation, root: seq<Object>): State
  {
    State(op, true, Idle, [], [Dispatching(None, root)], 0, 0, [], [])
  }

  /** Worker w is at object o of its dispatch; the first call only runs while it executes. */
  predicate At(s: State, w: nat, o: nat)
  {
    && w < |s.workers|
    && (w == 0 ==> s.handler.Executing?)
    && s.workers[w].Dispatching?
    && o < |s.workers[w].objects|
  }

  function ObjectAt(s: State, w: nat, o: nat): Object
    requires At(s, w, o)
  {
    s.workers[w].objects[o]
  }

  function Put(workers: seq<Thread>, w: nat, o: nat, ob: Object): seq<Thread>
    requires w < |workers| && workers[w].Dispatching? && o < |workers[w].objects|
  {
    workers[w := workers[w].(objects := workers[w].objects[o := ob])]
  }

  predicate ObjectDone(o: Object)
  {
    o.announced && !o.counted && o.groups == []
  }

  predicate Enabled(s: State, step: Step)
  {
    match step
    case Call => s.handler.Idle?
    case Announce(w, o) => At(s, w, o) && !ObjectAt(s, w, o).announced
    case Count(w, o) => At(s, w, o) && ObjectAt(s, w, o).announced && !ObjectAt(s, w, o).counted && ObjectAt(s, w, o).groups != []
    case Spawn(w, o) => At(s, w, o) && ObjectAt(s, w, o).counted && ObjectAt(s, w, o).groups != []
    case Finish(w) =>
      && w < |s.workers| && (w == 0 ==> s.handler.Executing?)
      && s.workers[w].Dispatching? && forall o <- s.workers[w].objects :: ObjectDone(o)
    case CheckPending => s.handler.Checking?
    case Receive(g) => s.handler.Receiving? && g + 1 < |s.workers| && g < |s.groups| && s.workers[g + 1].Sending?
    case Decrement => s.handler.Received? && s.handler.g < |s.groups|
    case LoadDeferred => s.handler.Encoding? && s.handler.response.Response?
    case LoadPending => s.handler.Peeking? && s.handler.response.Response?
  }

  /** What the goroutine of a group puts on the channel: a group whose field set has invalid
      fields bubbles up as null. */
  function ResultOf(groups: seq<Group>, g: nat): Response
    requires g < |groups|
  {
    Response(Some(g), if groups[g].invalid then Null else Fields(groups[g]), groups[g].path, groups[g].tag, None)
  }

  const FirstResponse: Response := Response(None, Initial, [], "", None)

  function Respond(s: State, r: Response): State
  {
    s.(handler := Idle, responses := s.responses + [r])
  }

  function Apply(s: State, step: Step): State
    requires Enabled(s, step)
  {
    match step
    case Call =>
      if s.first then s.(first := false, handler := Executing)
      else if s.op.Mutation? then Respond(s, Nil)
      else s.(handler := Checking)
    case Announce(w, o) =>
      var ob := ObjectAt(s, w, o);
      s.(workers := Put(s.workers, w, o, ob.(announced := true)), deferred := s.deferred + |ob.groups|)
    case Count(w, o) =>
      s.(workers := Put(s.workers, w, o, ObjectAt(s, w, o).(counted := true)), pending := s.pending + 1)
    case Spawn(w, o) =>
      var ob := ObjectAt(s, w, o);
      var goroutine := Dispatching(Some(ob.groups[0]), ob.groups[0].objects);
      s.(workers := Put(s.workers, w, o, ob.(counted := false, groups := ob.groups[1..])) + [goroutine],
         groups := s.groups + [ob.groups[0]])
    case Finish(w) =>
      if w == 0 then s.(workers := s.workers[0 := Finished], handler := Encoding(FirstResponse))
      else s.(workers := s.workers[w := Sending(s.workers[w].group)])
    case CheckPending =>
      if s.pending > 0 then s.(handler := Receiving) else Respond(s, Nil)
    case Receive(g) =>
      s.(workers := s.workers[g + 1 := Finished], handler := Received(g), received := s.received + [g])
    case Decrement =>
      s.(pending := s.pending - 1, handler := Encoding(ResultOf(s.groups, s.handler.g)))
    case LoadDeferred =>
      if s.op.Query? && s.deferred > 0 then s.(handler := Peeking(s.handler.response)) else Respond(s, s.handler.response)
    case LoadPending =>
      Respond(s, s.handler.response.(hasNext := Some(s.pending > 0)))
  }

  ghost predicate Next(s: State, s': State)
  {
    exists step :: Enabled(s, step) && s' == Apply(s, step)
  }

  ghost predicate IsRun(op: Operation, root: seq<Object>, run: seq<State>)
  {
    && run != [] && run[0] == Init(op, root)
    && forall i :: 0 <= i < |run| - 1 ==> Next(run[i], run[i + 1])
  }

  // ----- sums over the workers

  function Sum<T>(ts: seq<T>, f: T -> nat): nat
  {
    if ts == [] then 0 else f(ts[0]) + Sum(ts[1..], f)
  }

  lemma {:induction false} SumUpdate<T>(ts: seq<T>, i: nat, t: T, f: T -> nat)
    requires i < |ts|
    ensures Sum(ts[i := t], f) + f(ts[i]) == Sum(ts, f) + f(t)
  {
    if i == 0 {
      assert ts[0 := t][1..] == ts[1..];
    } else {
      SumUpdate(ts[1..], i - 1, t, f);
      assert ts[i := t][1..] == ts[1..][i - 1 := t];
    }
  }

  lemma {:induction false} SumAppend<T>(ts: seq<T>, t: T, f: T -> nat)
    ensures Sum(ts + [t], f) == Sum(ts, f) + f(t)
  {
    if ts == [] {
      assert [t][1..] == [];
      assert [] + [t] == [t];
    } else {
      SumAppend(ts[1..], t, f);
      assert (ts + [t])[1..] == ts[1..] + [t];
    }
  }

  lemma {:induction false} SumBound<T>(ts: seq<T>, i: nat, f: T -> nat)
    requires i < |ts|
    ensures f(ts[i]) <= Sum(ts, f)
  {
    if i > 0 {
      SumBound(ts[1..], i - 1, f);
    }
  }

  lemma {:induction false} SumZero<T>(ts: seq<T>, f: T -> nat)
    requires forall t <- ts :: f(t) == 0
    ensures Sum(ts, f) == 0
  {
    if ts != [] {
      SumZero(ts[1..], f);
    }
  }

  function Outstanding(t: Thread): nat { if t.Finished? then 0 else 1 }

  function CountedObject(o: Object): nat { if o.counted then 1 else 0 }

  /** Groups of t that are counted in `pendingDeferred` but not yet started. */
  function Counted(t: Thread): nat { if t.Dispatching? then Sum(t.objects, CountedObject) else 0 }

  function OwedByObject(o: Object): nat { if o.announced then |o.groups| else 0 }

  /** Groups of t that are included in `deferred` but not yet started. */
  function Owed(t: Thread): nat { if t.Dispatching? then Sum(t.objects, OwedByObject) else 0 }

  // ----- the groups still to come, as a multiset

  ghost function GroupBag(g: Group): multiset<Group> { multiset{g} + ObjectsBag(g.objects) }

  ghost function GroupsBag(gs: seq<Group>): multiset<Group>
  {
    if gs == [] then multiset{} else GroupBag(gs[0]) + GroupsBag(gs[1..])
  }

  /** Every group that the given object functions register, however deeply nested. */
  ghost function ObjectsBag(os: seq<Object>): multiset<Group>
  {
    if os == [] then multiset{} else GroupsBag(os[0].groups) + ObjectsBag(os[1..])
  }

  ghost function OwnBag(g: Option<Group>): multiset<Group> { if g.Some? then multiset{g.value} else multiset{} }

  /** What is still to be delivered because of t: its own group and all it will register. */
  ghost function ToCome(t: Thread): multiset<Group>
  {
    match t
    case Dispatching(g, os) => OwnBag(g) + ObjectsBag(os)
    case Sending(g) => OwnBag(g)
    case Finished => multiset{}
  }

  ghost function AllToCome(ts: seq<Thread>): multiset<Group>
  {
    if ts == [] then multiset{} else ToCome(ts[0]) + AllToCome(ts[1..])
  }

  lemma BagShift<T>(a: multiset<T>, x: multiset<T>, p: multiset<T>, y: multiset<T>, q: multiset<T>)
    requires x + p == y + q
    ensures (a + x) + p == (a + y) + q
  {
    calc { (a + x) + p; a + (x + p); a + (y + q); (a + y) + q; }
  }

  lemma {:induction false} ObjectsBagUpdate(os: seq<Object>, i: nat, o: Object)
    requires i < |os|
    ensures ObjectsBag(os[i := o]) + GroupsBag(os[i].groups) == ObjectsBag(os) + GroupsBag(o.groups)
  {
    if i == 0 {
      assert os[0 := o][1..] == os[1..];
    } else {
      ObjectsBagUpdate(os[1..], i - 1, o);
      assert os[i := o][1..] == os[1..][i - 1 := o];
      BagShift(GroupsBag(os[0].groups), ObjectsBag(os[1..][i - 1 := o]), GroupsBag(os[i].groups), ObjectsBag(os[1..]), GroupsBag(o.groups));
    }
  }

  lemma {:induction false} AllToComeUpdate(ts: seq<Thread>, i: nat, t: Thread)
    requires i < |ts|
    ensures AllToCome(ts[i := t]) + ToCome(ts[i]) == AllToCome(ts) + ToCome(t)
  {
    if i == 0 {
      assert ts[0 := t][1..] == ts[1..];
    } else {
      AllToComeUpdate(ts[1..], i - 1, t);
      assert ts[i := t][1..] == ts[1..][i - 1 := t];
      BagShift(ToCome(ts[0]), AllToCome(ts[1..][i - 1 := t]), ToCome(ts[i]), AllToCome(ts[1..]), ToCome(t));
    }
  }

  lemma BagAssoc<T>(a: multiset<T>, b: multiset<T>, c: multiset<T>)
    ensures a + (b + c) == (a + b) + c
  {
  }

  lemma {:induction false} AllToComeAppend(ts: seq<Thread>, t: Thread)
    ensures AllToCome(ts + [t]) == AllToCome(ts) + ToCome(t)
  {
    if ts == [] {
      assert [] + [t] == [t] && [t][1..] == [];
    } else {
      AllToComeAppend(ts[1..], t);
      assert (ts + [t])[1..] == ts[1..] + [t] && (ts + [t])[0] == ts[0];
      BagAssoc(ToCome(ts[0]), AllToCome(ts[1..]), ToCome(t));
    }
  }

  lemma {:induction false} ObjectsBagEmpty(os: seq<Object>)
    requires forall o <- os :: o.groups == []
    ensures ObjectsBag(os) == multiset{}
  {
    if os != [] {
      ObjectsBagEmpty(os[1..]);
    }
  }

  lemma {:induction false} AllToComeEmpty(ts: seq<Thread>)
    requires forall t <- ts :: ToCome(t) == multiset{}
    ensures AllToCome(ts) == multiset{}
  {
    if ts != [] {
      AllToComeEmpty(ts[1..]);
    }
  }

  // ----- the invariant

  ghost predicate ObjectOk(o: Object)
  {
    (o.counted ==> o.announced && o.groups != []) && forall g <- o.groups :: Fresh(g.objects)
  }

  ghost predicate ThreadOk(t: Thread) { t.Dispatching? ==> forall o <- t.objects :: ObjectOk(o) }

  ghost predicate WorkersOk(s: State)
  {
    && |s.workers| == |s.groups| + 1
    && (forall t <- s.workers :: ThreadOk(t))
    && !s.workers[0].Sending?
    && (s.workers[0].Finished? <==> !s.first && !s.handler.Executing?)
    && (s.workers[0].Dispatching? ==> s.workers[0].group == None)
    && forall g :: 0 <= g < |s.groups| && !s.workers[g + 1].Finished? ==> s.workers[g + 1].group == Some(s.groups[g])
  }

  ghost predicate ReceivedOk(s: State)
    requires |s.workers| == |s.groups| + 1
  {
    && (forall i :: 0 <= i < |s.received| ==> s.received[i] < |s.groups|)
    && (forall i, j :: 0 <= i < j < |s.received| ==> s.received[i] != s.received[j])
    && (forall g :: 0 <= g < |s.groups| ==> (s.workers[g + 1].Finished? <==> g in s.received))
  }

  /** Where the handler can stand: `first` only before the first call, and a mutation never
      reaches the channel. */
  ghost predicate HandlerOk(s: State)
  {
    && (s.first ==> s.handler.Idle? && s.received == [] && s.responses == [] && s.groups == [])
    && (s.handler.Executing? ==> s.received == [])
    && (s.op.Mutation? ==> s.received == [] && !s.handler.Checking? && !s.handler.Receiving? && !s.handler.Received? && !s.handler.Peeking?)
    && (s.handler.Receiving? ==> s.pending > 0)
    && (s.handler.Received? ==> s.received != [] && s.handler.g == s.received[|s.received| - 1] && s.handler.g < |s.groups|)
    && (s.handler.Encoding? || s.handler.Peeking? ==> Current(s, s.handler.response))
    && (s.handler.Peeking? ==> s.deferred > 0)
  }

  ghost predicate Current(s: State, r: Response)
  {
    if s.received == [] then r == FirstResponse
    else s.received[|s.received| - 1] < |s.groups| && r == ResultOf(s.groups, s.received[|s.received| - 1])
  }

  ghost predicate CountersOk(s: State)
    requires s.workers != []
  {
    && s.pending + (if s.workers[0].Finished? then 0 else 1)
       == Sum(s.workers, Outstanding) + Sum(s.workers, Counted) + (if s.handler.Received? then 1 else 0)
    && s.deferred == |s.groups| + Sum(s.workers, Owed)
  }

  /** The groups whose results the handler took from the channel, in order. */
  function Delivered(s: State): seq<Group>
    requires forall i :: 0 <= i < |s.received| ==> s.received[i] < |s.groups|
  {
    seq(|s.received|, i requires 0 <= i < |s.received| => s.groups[s.received[i]])
  }

  /** Nothing of the response tree is lost or invented: what was delivered and what is still to
      come make up the tree. */
  ghost predicate Conserved(root: seq<Object>, s: State)
    requires forall i :: 0 <= i < |s.received| ==> s.received[i] < |s.groups|
  {
    multiset(Delivered(s)) + AllToCome(s.workers) == ObjectsBag(root)
  }

  ghost predicate AllFinished(s: State) { forall t <- s.workers :: t.Finished? }

  /** Nothing is running and nothing will ever be registered or delivered again. */
  ghost predicate Quiet(s: State)
  {
    (s.handler.Idle? || s.handler.Checking?) && !s.first && AllFinished(s) && s.pending == 0
  }

  /** Number of results the handler has returned. */
  function Answered(s: State): nat
  {
    if s.first || s.handler.Executing? then 0
    else if s.handler.Received? || s.handler.Encoding? || s.handler.Peeking? then |s.received|
    else |s.received| + 1
  }

  ghost predicate LogOk(s: State)
    requires forall i :: 0 <= i < |s.received| ==> s.received[i] < |s.groups|
  {
    var n := Answered(s);
    && n <= |s.responses|
    && (forall k :: 0 <= k < n ==> IsResult(s, k) && if s.op.Mutation? then s.responses[k].hasNext == None else HasNextOk(s, k))
    && (forall k :: n <= k < |s.responses| ==> s.responses[k].Nil?)
    && (n < |s.responses| ==> s.handler.Idle? || s.handler.Checking?)
    && (s.op.Query? && n < |s.responses| ==> Quiet(s))
  }

  ghost predicate IsResult(s: State, k: nat)
    requires k < |s.responses|
    requires forall i :: 0 <= i < |s.received| ==> s.received[i] < |s.groups|
  {
    && s.responses[k].Response? && k <= |s.received|
    && s.responses[k].(hasNext := None) == if k == 0 then FirstResponse else ResultOf(s.groups, s.received[k - 1])
  }

  ghost predicate HasNextOk(s: State, k: nat)
    requires k < |s.responses| && s.responses[k].Response?
  {
    if s.responses[k].hasNext == Some(true) then
      k + 1 == Answered(s) && (s.handler.Idle? || s.handler.Checking?) ==> s.pending > 0
    else
      k + 1 == Answered(s) && Quiet(s)
  }

  ghost predicate Inv(root: seq<Object>, s: State)
  {
    WorkersOk(s) && ReceivedOk(s) && HandlerOk(s) && CountersOk(s) && Conserved(root, s) && LogOk(s)
  }

  // ----- every step keeps the invariant

  lemma InitInv(op: Operation, root: seq<Object>)
    requires Fresh(root)
    ensures Inv(root, Init(op, root))
  {
    var s := Init(op, root);
    SumZero(root, CountedObject);
    SumZero(root, OwedByObject);
    assert s.workers[1..] == [];
    forall o <- root ensures ObjectOk(o) { assert FreshObject(o); }
    assert AllToCome(s.workers) == ToCome(s.workers[0]) + AllToCome([]);
  }

  /** Replacing one object of one worker changes each sum by that object's share. */
  lemma PutSums(s: State, w: nat, o: nat, ob: Object)
    requires At(s, w, o)
    ensures Sum(Put(s.workers, w, o, ob), Outstanding) == Sum(s.workers, Outstanding)
    ensures Sum(Put(s.workers, w, o, ob), Counted) + CountedObject(ObjectAt(s, w, o)) == Sum(s.workers, Counted) + CountedObject(ob)
    ensures Sum(Put(s.workers, w, o, ob), Owed) + OwedByObject(ObjectAt(s, w, o)) == Sum(s.workers, Owed) + OwedByObject(ob)
    ensures AllToCome(Put(s.workers, w, o, ob)) + GroupsBag(ObjectAt(s, w, o).groups) == AllToCome(s.workers) + GroupsBag(ob.groups)
  {
    var t := s.workers[w];
    var t' := t.(objects := t.objects[o := ob]);
    SumUpdate(s.workers, w, t', Outstanding);
    SumUpdate(s.workers, w, t', Counted);
    SumUpdate(s.workers, w, t', Owed);
    SumUpdate(t.objects, o, ob, CountedObject);
    SumUpdate(t.objects, o, ob, OwedByObject);
    PutBag(s, w, o, ob);
  }

  lemma PutBag(s: State, w: nat, o: nat, ob: Object)
    requires At(s, w, o)
    ensures AllToCome(Put(s.workers, w, o, ob)) + GroupsBag(ObjectAt(s, w, o).groups) == AllToCome(s.workers) + GroupsBag(ob.groups)
  {
    var t := s.workers[w];
    var t' := t.(objects := t.objects[o := ob]);
    AllToComeUpdate(s.workers, w, t');
    ObjectsBagUpdate(t.objects, o, ob);
    var x, y := AllToCome(Put(s.workers, w, o, ob)), AllToCome(s.workers);
    var p, q := GroupsBag(ObjectAt(s, w, o).groups), GroupsBag(ob.groups);
    BagShift(OwnBag(t.group), ObjectsBag(t'.objects), p, ObjectsBag(t.objects), q);
    assert x + ToCome(t) == y + ToCome(t') && ToCome(t') + p == ToCome(t) + q;
    forall g ensures (x + p)[g] == (y + q)[g] {
      assert (x + ToCome(t))[g] == (y + ToCome(t'))[g];
      assert (ToCome(t') + p)[g] == (ToCome(t) + q)[g];
    }
  }

  /** Steps of a goroutine at one object leave everything the handler wrote as it was. */
  lemma PutKeepsWorkers(s: State, w: nat, o: nat, ob: Object)
    requires At(s, w, o) && ObjectOk(ob) && WorkersOk(s) && ReceivedOk(s)
    ensures WorkersOk(s.(workers := Put(s.workers, w, o, ob))) && ReceivedOk(s.(workers := Put(s.workers, w, o, ob)))
    ensures AllFinished(s.(workers := Put(s.workers, w, o, ob))) <==> AllFinished(s)
  {
    assert s.workers[w] in s.workers;
    var ws := Put(s.workers, w, o, ob);
    assert ws[w] in ws;
  }

  ghost predicate Indexed(s: State) { forall i :: 0 <= i < |s.received| ==> s.received[i] < |s.groups| }

  /** A goroutine that is not finished does not touch what the handler did. */
  lemma GoroutineKeepsLog(s: State, s': State)
    requires Indexed(s) && LogOk(s) && HandlerOk(s) && !AllFinished(s)
    requires (s'.op, s'.first, s'.handler, s'.received, s'.responses) == (s.op, s.first, s.handler, s.received, s.responses)
    requires s.groups <= s'.groups && s.pending <= s'.pending && s.deferred <= s'.deferred
    requires s.first ==> s'.groups == []
    ensures Indexed(s') && LogOk(s') && HandlerOk(s') && Delivered(s') == Delivered(s)
  {
    forall k | 0 <= k < Answered(s)
      ensures IsResult(s', k) && if s'.op.Mutation? then s'.responses[k].hasNext == None else HasNextOk(s', k)
    {
      assert IsResult(s, k) && if s.op.Mutation? then s.responses[k].hasNext == None else HasNextOk(s, k);
    }
  }

  /** A step that changes only the flags of an object. */
  lemma FlagsKeepStructure(root: seq<Object>, s: State, s': State, w: nat, o: nat, ob: Object)
    requires Inv(root, s) && At(s, w, o) && ObjectOk(ob) && ob.groups == ObjectAt(s, w, o).groups
    requires s' == s.(workers := Put(s.workers, w, o, ob), pending := s'.pending, deferred := s'.deferred)
    requires s.pending <= s'.pending && s.deferred <= s'.deferred
    ensures WorkersOk(s') && ReceivedOk(s') && HandlerOk(s') && Conserved(root, s') && LogOk(s')
  {
    PutKeepsWorkers(s, w, o, ob);
    FlagsKeepLog(s, s', w);
    SameGroupsSameBag(s, w, o, ob);
  }

  lemma FlagsKeepLog(s: State, s': State, w: nat)
    requires Indexed(s) && LogOk(s) && HandlerOk(s) && w < |s.workers| && s.workers[w].Dispatching?
    requires s' == s.(workers := s'.workers, pending := s'.pending, deferred := s'.deferred)
    requires s.pending <= s'.pending && s.deferred <= s'.deferred
    ensures Indexed(s') && LogOk(s') && HandlerOk(s') && Delivered(s') == Delivered(s)
  {
    assert s.workers[w] in s.workers;
    GoroutineKeepsLog(s, s');
  }

  lemma SameGroupsSameBag(s: State, w: nat, o: nat, ob: Object)
    requires At(s, w, o) && ob.groups == ObjectAt(s, w, o).groups
    ensures AllToCome(Put(s.workers, w, o, ob)) == AllToCome(s.workers)
  {
    PutBag(s, w, o, ob);
    BagCancel(AllToCome(Put(s.workers, w, o, ob)), multiset{}, GroupsBag(ob.groups), AllToCome(s.workers));
  }

  lemma AnnounceInv(root: seq<Object>, s: State, w: nat, o: nat)
    requires Inv(root, s) && Enabled(s, Announce(w, o))
    ensures Inv(root, Apply(s, Announce(w, o)))
  {
    var ob := ObjectAt(s, w, o).(announced := true);
    assert s.workers[w] in s.workers && ObjectAt(s, w, o) in s.workers[w].objects;
    FlagsKeepStructure(root, s, Apply(s, Announce(w, o)), w, o, ob);
    PutSums(s, w, o, ob);
  }

  lemma CountInv(root: seq<Object>, s: State, w: nat, o: nat)
    requires Inv(root, s) && Enabled(s, Count(w, o))
    ensures Inv(root, Apply(s, Count(w, o)))
  {
    var ob := ObjectAt(s, w, o).(counted := true);
    assert s.workers[w] in s.workers && ObjectAt(s, w, o) in s.workers[w].objects;
    FlagsKeepStructure(root, s, Apply(s, Count(w, o)), w, o, ob);
    PutSums(s, w, o, ob);
  }

  lemma FreshThread(g: Group)
    requires Fresh(g.objects)
    ensures ThreadOk(Dispatching(Some(g), g.objects))
    ensures Counted(Dispatching(Some(g), g.objects)) == 0 && Owed(Dispatching(Some(g), g.objects)) == 0
  {
    SumZero(g.objects, CountedObject);
    SumZero(g.objects, OwedByObject);
    forall o <- g.objects ensures ObjectOk(o) { assert FreshObject(o); }
  }

  lemma SpawnKeepsWorkers(s: State, s': State, put: seq<Thread>, t: Thread, g: Group)
    requires WorkersOk(s.(workers := put)) && ReceivedOk(s.(workers := put)) && ThreadOk(t)
    requires t == Dispatching(Some(g), g.objects)
    requires s'.workers == put + [t] && s'.groups == s.groups + [g] && s'.received == s.received
    requires s'.first == s.first && s'.handler == s.handler
    ensures WorkersOk(s') && ReceivedOk(s')
  {
  }

  lemma SpawnInv(root: seq<Object>, s: State, w: nat, o: nat)
    requires Inv(root, s) && Enabled(s, Spawn(w, o))
    ensures Inv(root, Apply(s, Spawn(w, o)))
  {
    var s' := Apply(s, Spawn(w, o));
    var ob := ObjectAt(s, w, o);
    assert s.workers[w] in s.workers && ob in s.workers[w].objects;
    var g := ob.groups[0];
    assert g in ob.groups;
    var rest := ob.(counted := false, groups := ob.groups[1..]);
    var put, t := Put(s.workers, w, o, rest), Dispatching(Some(g), g.objects);
    PutSums(s, w, o, rest);
    PutKeepsWorkers(s, w, o, rest);
    FreshThread(g);
    SumAppend(put, t, Outstanding);
    SumAppend(put, t, Counted);
    SumAppend(put, t, Owed);
    AllToComeAppend(put, t);
    GoroutineKeepsLog(s, s');
    assert WorkersOk(s') && ReceivedOk(s') by { SpawnKeepsWorkers(s, s', put, t, g); }
    assert Conserved(root, s') by {
      assert GroupsBag(ob.groups) == GroupBag(g) + GroupsBag(rest.groups);
      assert ToCome(t) == GroupBag(g);
      assert AllToCome(put) + (GroupBag(g) + GroupsBag(rest.groups)) == AllToCome(s.workers) + GroupsBag(rest.groups);
      BagCancel(AllToCome(put), GroupBag(g), GroupsBag(rest.groups), AllToCome(s.workers));
    }
  }

  lemma BagCancel<T>(a: multiset<T>, b: multiset<T>, c: multiset<T>, d: multiset<T>)
    requires a + (b + c) == d + c
    ensures a + b == d
  {
    forall x ensures (a + b)[x] == d[x] {
      assert (a + (b + c))[x] == (d + c)[x];
    }
  }

  lemma DoneObjects(os: seq<Object>)
    requires forall o <- os :: ObjectDone(o)
    ensures Sum(os, CountedObject) == 0 && Sum(os, OwedByObject) == 0 && ObjectsBag(os) == multiset{}
  {
    SumZero(os, CountedObject);
    SumZero(os, OwedByObject);
    ObjectsBagEmpty(os);
  }

  lemma FinishSums(s: State, w: nat, t: Thread)
    requires Enabled(s, Finish(w)) && !t.Dispatching?
    ensures Sum(s.workers[w := t], Outstanding) + 1 == Sum(s.workers, Outstanding) + Outstanding(t)
    ensures Sum(s.workers[w := t], Counted) == Sum(s.workers, Counted)
    ensures Sum(s.workers[w := t], Owed) == Sum(s.workers, Owed)
  {
    DoneObjects(s.workers[w].objects);
    SumUpdate(s.workers, w, t, Outstanding);
    SumUpdate(s.workers, w, t, Counted);
    SumUpdate(s.workers, w, t, Owed);
  }

  lemma FinishBag(s: State, w: nat, t: Thread)
    requires Enabled(s, Finish(w)) && ToCome(t) == OwnBag(s.workers[w].group)
    ensures AllToCome(s.workers[w := t]) == AllToCome(s.workers)
  {
    DoneObjects(s.workers[w].objects);
    AllToComeUpdate(s.workers, w, t);
    assert ToCome(s.workers[w]) == ToCome(t);
    BagCancel(AllToCome(s.workers[w := t]), multiset{}, ToCome(t), AllToCome(s.workers));
  }

  lemma FinishKeepsWorkers(s: State, w: nat)
    requires WorkersOk(s) && ReceivedOk(s) && HandlerOk(s) && Enabled(s, Finish(w))
    ensures WorkersOk(Apply(s, Finish(w))) && ReceivedOk(Apply(s, Finish(w)))
  {
    assert s.workers[w] in s.workers;
  }

  lemma FinishKeepsLog(s: State, w: nat)
    requires WorkersOk(s) && ReceivedOk(s) && HandlerOk(s) && LogOk(s) && Enabled(s, Finish(w))
    ensures LogOk(Apply(s, Finish(w))) && HandlerOk(Apply(s, Finish(w))) && Delivered(Apply(s, Finish(w))) == Delivered(s)
  {
    assert s.workers[w] in s.workers;
    if w > 0 {
      GoroutineKeepsLog(s, Apply(s, Finish(w)));
    }
  }

  lemma FinishKeepsCounters(s: State, w: nat)
    requires WorkersOk(s) && CountersOk(s) && Enabled(s, Finish(w))
    ensures CountersOk(Apply(s, Finish(w)))
  {
    FinishSums(s, w, Apply(s, Finish(w)).workers[w]);
  }

  lemma FinishInv(root: seq<Object>, s: State, w: nat)
    requires Inv(root, s) && Enabled(s, Finish(w))
    ensures Inv(root, Apply(s, Finish(w)))
  {
    FinishKeepsWorkers(s, w);
    FinishKeepsCounters(s, w);
    FinishKeepsLog(s, w);
    FinishBag(s, w, Apply(s, Finish(w)).workers[w]);
  }

  lemma ReceiveBag(s: State, g: nat)
    requires Indexed(s) && Enabled(s, Receive(g)) && s.workers[g + 1].group == Some(s.groups[g])
    ensures multiset(Delivered(Apply(s, Receive(g)))) + AllToCome(Apply(s, Receive(g)).workers)
         == multiset(Delivered(s)) + AllToCome(s.workers)
  {
    var s' := Apply(s, Receive(g));
    assert Delivered(s') == Delivered(s) + [s.groups[g]];
    AllToComeUpdate(s.workers, g + 1, Finished);
    assert AllToCome(s'.workers) + multiset{s.groups[g]} == AllToCome(s.workers);
  }

  lemma ReceiveKeepsLog(s: State, g: nat)
    requires Enabled(s, Receive(g)) && WorkersOk(s) && ReceivedOk(s) && LogOk(s)
    ensures Indexed(Apply(s, Receive(g))) && LogOk(Apply(s, Receive(g)))
  {
    var s' := Apply(s, Receive(g));
    assert s.workers[g + 1] in s.workers;
    forall k | 0 <= k < Answered(s)
      ensures IsResult(s', k) && if s'.op.Mutation? then s'.responses[k].hasNext == None else HasNextOk(s', k)
    {
      assert IsResult(s, k) && if s.op.Mutation? then s.responses[k].hasNext == None else HasNextOk(s, k);
    }
  }

  lemma ReceiveKeepsWorkers(s: State, g: nat)
    requires WorkersOk(s) && ReceivedOk(s) && HandlerOk(s) && CountersOk(s) && Enabled(s, Receive(g))
    ensures WorkersOk(Apply(s, Receive(g))) && ReceivedOk(Apply(s, Receive(g)))
    ensures CountersOk(Apply(s, Receive(g))) && HandlerOk(Apply(s, Receive(g)))
  {
    assert g !in s.received;
    SumUpdate(s.workers, g + 1, Finished, Outstanding);
    SumUpdate(s.workers, g + 1, Finished, Counted);
    SumUpdate(s.workers, g + 1, Finished, Owed);
  }

  lemma ReceiveInv(root: seq<Object>, s: State, g: nat)
    requires Inv(root, s) && Enabled(s, Receive(g))
    ensures Inv(root, Apply(s, Receive(g)))
  {
    ReceiveKeepsWorkers(s, g);
    ReceiveBag(s, g);
    ReceiveKeepsLog(s, g);
  }

  /** A counter at zero means that no goroutine is left. */
  lemma ZeroIsFinished(s: State)
    requires WorkersOk(s) && CountersOk(s) && s.workers[0].Finished? && !s.handler.Received? && s.pending <= 0
    ensures AllFinished(s) && s.pending == 0
  {
    forall t <- s.workers ensures t.Finished? {
      var i :| 0 <= i < |s.workers| && s.workers[i] == t;
      SumBound(s.workers, i, Outstanding);
    }
  }

  /** As long as `deferred` is zero nothing was ever registered. */
  lemma NothingDeferred(s: State)
    requires WorkersOk(s) && CountersOk(s) && s.workers[0].Finished? && s.deferred <= 0
    ensures s.groups == [] && AllFinished(s)
    ensures !s.handler.Received? ==> s.pending == 0
  {
    assert s.workers[1..] == [];
    assert Sum(s.workers, Outstanding) == 0 && Sum(s.workers, Counted) == 0;
  }

  lemma HandlerKeepsRest(root: seq<Object>, s: State, s': State)
    requires Inv(root, s) && s' == s.(first := s'.first, handler := s'.handler, pending := s'.pending, responses := s'.responses)
    requires (s'.first, s'.handler.Executing?) == (s.first, s.handler.Executing?) || (s.first && !s'.first && s'.handler.Executing?)
    requires s'.pending - (if s'.handler.Received? then 1 else 0) == s.pending - (if s.handler.Received? then 1 else 0)
    ensures WorkersOk(s') && ReceivedOk(s') && CountersOk(s') && Conserved(root, s') && Delivered(s') == Delivered(s)
  {
    assert Delivered(s') == Delivered(s);
  }

  lemma HandlerKeepsHandler(s: State, step: Step)
    requires WorkersOk(s) && ReceivedOk(s) && HandlerOk(s)
    requires Enabled(s, step) && (step.Call? || step.CheckPending? || step.Decrement? || step.LoadDeferred? || step.LoadPending?)
    ensures HandlerOk(Apply(s, step))
  {
  }

  lemma HandlerInv(root: seq<Object>, s: State, step: Step)
    requires Inv(root, s) && Enabled(s, step)
    requires step.Call? || step.CheckPending? || step.Decrement? || step.LoadDeferred? || step.LoadPending?
    ensures Inv(root, Apply(s, step))
  {
    HandlerKeepsRest(root, s, Apply(s, step));
    HandlerKeepsHandler(s, step);
    HandlerKeepsLog(s, step);
  }

  /** Whether an earlier answer still stands after a step of the handler. */
  ghost predicate AnswerOk(s: State, k: nat)
    requires k < |s.responses| && Indexed(s)
  {
    IsResult(s, k) && if s.op.Mutation? then s.responses[k].hasNext == None else HasNextOk(s, k)
  }

  lemma DecrementKeepsLog(s: State)
    requires WorkersOk(s) && ReceivedOk(s) && HandlerOk(s) && LogOk(s) && Enabled(s, Decrement)
    ensures LogOk(Apply(s, Decrement))
  {
    var s' := Apply(s, Decrement);
    forall k | 0 <= k < Answered(s') ensures AnswerOk(s', k) {
      assert AnswerOk(s, k);
    }
  }

  lemma StartKeepsLog(s: State, step: Step)
    requires WorkersOk(s) && ReceivedOk(s) && CountersOk(s) && HandlerOk(s) && LogOk(s)
    requires Enabled(s, step) && (step.Call? || step.CheckPending?)
    ensures LogOk(Apply(s, step))
  {
    var s' := Apply(s, step);
    if step.CheckPending? && s.pending <= 0 {
      ZeroIsFinished(s);
    }
    forall k | 0 <= k < Answered(s') ensures AnswerOk(s', k) {
      assert AnswerOk(s, k);
    }
  }

  lemma PeekKeepsLog(s: State)
    requires WorkersOk(s) && ReceivedOk(s) && CountersOk(s) && HandlerOk(s) && LogOk(s) && Enabled(s, LoadPending)
    ensures LogOk(Apply(s, LoadPending))
  {
    var s' := Apply(s, LoadPending);
    if s.pending <= 0 {
      ZeroIsFinished(s);
    }
    forall k | 0 <= k < Answered(s') ensures k < |s'.responses| && AnswerOk(s', k) {
      if k < Answered(s) {
        assert AnswerOk(s, k);
      }
    }
  }

  lemma AnswerKeepsLog(s: State)
    requires WorkersOk(s) && ReceivedOk(s) && CountersOk(s) && HandlerOk(s) && LogOk(s) && Enabled(s, LoadDeferred)
    ensures LogOk(Apply(s, LoadDeferred))
  {
    var s' := Apply(s, LoadDeferred);
    if s.deferred <= 0 {
      NothingDeferred(s);
    }
    forall k | 0 <= k < Answered(s') ensures k < |s'.responses| && AnswerOk(s', k) {
      if k < Answered(s) {
        assert AnswerOk(s, k);
      }
    }
  }

  lemma HandlerKeepsLog(s: State, step: Step)
    requires WorkersOk(s) && ReceivedOk(s) && CountersOk(s) && HandlerOk(s) && LogOk(s)
    requires Enabled(s, step) && (step.Call? || step.CheckPending? || step.Decrement? || step.LoadDeferred? || step.LoadPending?)
    ensures LogOk(Apply(s, step))
  {
    match step
    case Decrement => DecrementKeepsLog(s);
    case Call => StartKeepsLog(s, step);
    case CheckPending => StartKeepsLog(s, step);
    case LoadPending => PeekKeepsLog(s);
    case LoadDeferred => AnswerKeepsLog(s);
  }

  lemma StepInv(root: seq<Object>, s: State, step: Step)
    requires Inv(root, s) && Enabled(s, step)
    ensures Inv(root, Apply(s, step))
  {
    match step
    case Announce(w, o) => AnnounceInv(root, s, w, o);
    case Count(w, o) => CountInv(root, s, w, o);
    case Spawn(w, o) => SpawnInv(root, s, w, o);
    case Finish(w) => FinishInv(root, s, w);
    case Receive(g) => ReceiveInv(root, s, g);
    case _ => HandlerInv(root, s, step);
  }

  lemma NextInv(root: seq<Object>, s: State, s': State)
    requires Inv(root, s) && Next(s, s')
    ensures Inv(root, s') && s'.op == s.op
  {
    var step :| Enabled(s, step) && s' == Apply(s, step);
    StepInv(root, s, step);
  }

  lemma {:induction false} RunInv(op: Operation, root: seq<Object>, run: seq<State>, i: nat)
    requires Fresh(root) && IsRun(op, root, run) && i < |run|
    ensures Inv(root, run[i]) && run[i].op == op
  {
    if i == 0 {
      InitInv(op, root);
    } else {
      RunInv(op, root, run, i - 1);
      assert Next(run[i - 1], run[i - 1 + 1]);
      NextInv(root, run[i - 1], run[i]);
    }
  }

  // ----- what every run of a query guarantees

  /** Each group the handler received was registered, was received once, and every answer after
      the first is the result of the group received at that turn. */
  lemma DeliveredAtMostOnce(root: seq<Object>, run: seq<State>, i: nat, k: nat)
    requires Fresh(root) && IsRun(Query, root, run) && i < |run|
    requires 0 < k < |run[i].responses| && run[i].responses[k].Response?
    ensures var s := run[i];
      && k <= |s.received| && s.received[k - 1] < |s.groups|
      && s.received[k - 1] !in s.received[..k - 1] && s.received[k - 1] !in s.received[k..]
      && s.responses[k].(hasNext := None) == ResultOf(s.groups, s.received[k - 1])
  {
    RunInv(Query, root, run, i);
    assert k < Answered(run[i]);
    assert IsResult(run[i], k);
  }

  /** The handler returns nil only when the whole response tree was delivered: as multisets, the
      groups delivered are the groups that the executed operation registers, at any depth. */
  lemma NilMeansAllDelivered(root: seq<Object>, run: seq<State>, i: nat, k: nat)
    requires Fresh(root) && IsRun(Query, root, run) && i < |run|
    requires k < |run[i].responses| && run[i].responses[k].Nil?
    ensures Indexed(run[i]) && multiset(Delivered(run[i])) == ObjectsBag(root)
    ensures AllFinished(run[i]) && run[i].pending == 0
  {
    RunInv(Query, root, run, i);
    AllToComeEmpty(run[i].workers);
  }

  /** HasNext=false, or no HasNext at all, is never followed by a result. */
  lemma NoResultAfterLast(root: seq<Object>, run: seq<State>, i: nat, k: nat, l: nat)
    requires Fresh(root) && IsRun(Query, root, run) && i < |run|
    requires k < l < |run[i].responses|
    requires run[i].responses[k].Nil? || run[i].responses[k].hasNext != Some(true)
    ensures run[i].responses[l].Nil?
  {
    RunInv(Query, root, run, i);
    var s := run[i];
    if k < Answered(s) {
      assert IsResult(s, k) && HasNextOk(s, k);
    }
  }

  /** HasNext=true is followed by a result, never by nil. */
  lemma ResultAfterHasNext(root: seq<Object>, run: seq<State>, i: nat, k: nat)
    requires Fresh(root) && IsRun(Query, root, run) && i < |run|
    requires k + 1 < |run[i].responses|
    requires run[i].responses[k].Response? && run[i].responses[k].hasNext == Some(true)
    ensures run[i].responses[k + 1].Response?
  {
    RunInv(Query, root, run, i);
    var s := run[i];
    assert k < Answered(s);
    assert IsResult(s, k) && HasNextOk(s, k);
  }

  // ----- progress

  /** In every reachable state in which a handler call has not returned, some step other than a
      new call is possible: no schedule deadlocks. */
  lemma NoDeadlock(op: Operation, root: seq<Object>, run: seq<State>, i: nat) returns (step: Step)
    requires Fresh(root) && IsRun(op, root, run) && i < |run| && !run[i].handler.Idle?
    ensures Enabled(run[i], step) && !step.Call?
  {
    RunInv(op, root, run, i);
    var s := run[i];
    match s.handler
    case Executing => step := WorkerStep(s, 0);
    case Checking => step := CheckPending;
    case Received(g) => step := Decrement;
    case Encoding(r) => step := LoadDeferred;
    case Peeking(r) => step := LoadPending;
    case Receiving =>
      var w := UnfinishedWorker(s);
      step := if s.workers[w].Sending? then Receive(w - 1) else Announce(0, 0);
      if s.workers[w].Dispatching? {
        step := WorkerStep(s, w);
      }
  }

  lemma UnfinishedWorker(s: State) returns (w: nat)
    requires WorkersOk(s) && CountersOk(s) && s.handler.Receiving? && s.pending > 0 && !s.first
    ensures 0 < w < |s.workers| && !s.workers[w].Finished?
  {
    if AllFinished(s) {
      SumZero(s.workers, Outstanding);
      SumZero(s.workers, Counted);
      assert false;
    }
    var t :| t in s.workers && !t.Finished?;
    w :| 0 <= w < |s.workers| && s.workers[w] == t;
  }

  /** A goroutine that is dispatching can always move. */
  lemma WorkerStep(s: State, w: nat) returns (step: Step)
    requires w < |s.workers| && s.workers[w].Dispatching? && ThreadOk(s.workers[w])
    requires w == 0 ==> s.handler.Executing?
    ensures Enabled(s, step) && !step.Call?
  {
    if o: nat :| o < |s.workers[w].objects| && !ObjectDone(s.workers[w].objects[o]) {
      var ob := s.workers[w].objects[o];
      assert ob in s.workers[w].objects;
      step := if !ob.announced then Announce(w, o) else if !ob.counted then Count(w, o) else Spawn(w, o);
    } else {
      step := Finish(w);
    }
  }

  // ----- termination: the steps that the rest of a state can take

  function GroupCost(g: Group): nat { 4 + ObjectsCost(g.objects) }

  function GroupsCost(gs: seq<Group>): nat
  {
    if gs == [] then 0 else GroupCost(gs[0]) + GroupsCost(gs[1..])
  }

  function ObjectCost(o: Object): nat
  {
    (if o.announced then 0 else 1) + (if o.counted then 0 else 1) + GroupsCost(o.groups)
  }

  function ObjectsCost(os: seq<Object>): nat
  {
    if os == [] then 0 else ObjectCost(os[0]) + ObjectsCost(os[1..])
  }

  function ThreadCost(t: Thread): nat
  {
    match t
    case Dispatching(_, os) => 2 + ObjectsCost(os)
    case Sending(_) => 1
    case Finished => 0
  }

  function HandlerCost(h: Handler): nat
  {
    match h
    case Idle => 0
    case Peeking(_) => 1
    case Encoding(_) => 2
    case Received(_) => 3
    case Executing => 3
    case Receiving => 4
    case Checking => 5
  }

  function Cost(s: State): nat { Sum(s.workers, ThreadCost) + HandlerCost(s.handler) }

  lemma {:induction false} ObjectsCostUpdate(os: seq<Object>, i: nat, o: Object)
    requires i < |os|
    ensures ObjectsCost(os[i := o]) + ObjectCost(os[i]) == ObjectsCost(os) + ObjectCost(o)
  {
    if i == 0 {
      assert os[0 := o][1..] == os[1..];
    } else {
      ObjectsCostUpdate(os[1..], i - 1, o);
      assert os[i := o][1..] == os[1..][i - 1 := o];
    }
  }

  lemma PutCost(s: State, w: nat, o: nat, ob: Object)
    requires At(s, w, o)
    ensures Sum(Put(s.workers, w, o, ob), ThreadCost) + ObjectCost(ObjectAt(s, w, o)) == Sum(s.workers, ThreadCost) + ObjectCost(ob)
  {
    var t := s.workers[w];
    SumUpdate(s.workers, w, t.(objects := t.objects[o := ob]), ThreadCost);
    ObjectsCostUpdate(t.objects, o, ob);
  }

  lemma SpawnCost(s: State, w: nat, o: nat)
    requires Enabled(s, Spawn(w, o))
    ensures Cost(Apply(s, Spawn(w, o))) < Cost(s)
  {
    var ob := ObjectAt(s, w, o);
    var rest := ob.(counted := false, groups := ob.groups[1..]);
    PutCost(s, w, o, rest);
    SumAppend(Put(s.workers, w, o, rest), Dispatching(Some(ob.groups[0]), ob.groups[0].objects), ThreadCost);
    assert GroupsCost(ob.groups) == GroupCost(ob.groups[0]) + GroupsCost(rest.groups);
  }

  /** Every step but a new call lowers the cost, whatever the schedule. */
  lemma StepCosts(s: State, step: Step)
    requires Enabled(s, step) && !step.Call?
    ensures Cost(Apply(s, step)) < Cost(s)
  {
    match step
    case Announce(w, o) => PutCost(s, w, o, ObjectAt(s, w, o).(announced := true));
    case Count(w, o) => PutCost(s, w, o, ObjectAt(s, w, o).(counted := true));
    case Spawn(w, o) => SpawnCost(s, w, o);
    case Finish(w) => SumUpdate(s.workers, w, Apply(s, step).workers[w], ThreadCost);
    case Receive(g) => SumUpdate(s.workers, g + 1, Finished, ThreadCost);
    case _ =>
  }

  ghost predicate Works(s: State, s': State)
  {
    exists step: Step :: !step.Call? && Enabled(s, step) && s' == Apply(s, step)
  }

  ghost predicate IsWork(work: seq<State>)
  {
    work != [] && forall i :: 0 <= i < |work| - 1 ==> Works(work[i], work[i + 1])
  }

  /** Between two handler calls only boundedly many steps are possible, so with NoDeadlock every
      handler call returns. */
  lemma {:induction false} CallsReturn(work: seq<State>)
    requires IsWork(work)
    ensures |work| - 1 + Cost(work[|work| - 1]) <= Cost(work[0])
    decreases |work|
  {
    if |work| > 1 {
      var n := |work| - 1;
      assert Works(work[n - 1], work[n - 1 + 1]);
      var step: Step :| !step.Call? && Enabled(work[n - 1], step) && work[n] == Apply(work[n - 1], step);
      StepCosts(work[n - 1], step);
      CallsReturn(work[..n]);
    }
  }

  /** A handler call answers exactly once, when it returns. */
  lemma {:induction false} CallAnswersOnce(work: seq<State>)
    requires IsWork(work) && !work[0].handler.Idle?
    ensures var s := work[|work| - 1];
      if s.handler.Idle? then |s.responses| == |work[0].responses| + 1 && work[0].responses <= s.responses
      else s.responses == work[0].responses
    decreases |work|
  {
    if |work| > 1 {
      var n := |work| - 1;
      assert Works(work[n - 1], work[n - 1 + 1]);
      assert IsWork(work[..n]);
      CallAnswersOnce(work[..n]);
    }
  }

  /** HasNext=true is a promise kept: the next call of the handler, whenever it returns and
      whatever the goroutines do meanwhile, returns a further result. */
  lemma HasNextIsHonoured(root: seq<Object>, run: seq<State>, i: nat, j: nat)
    requires Fresh(root) && IsRun(Query, root, run) && i + 1 < j < |run|
    requires run[i].handler.Idle? && run[i].responses != [] && run[i + 1] == Apply(run[i], Call)
    requires run[i].responses[|run[i].responses| - 1].Response?
    requires run[i].responses[|run[i].responses| - 1].hasNext == Some(true)
    requires IsWork(run[i + 1..j + 1]) && run[j].handler.Idle?
    ensures |run[j].responses| == |run[i].responses| + 1 && run[i].responses <= run[j].responses
    ensures run[j].responses[|run[i].responses|].Response?
  {
    RunInv(Query, root, run, i);
    var work := run[i + 1..j + 1];
    assert work[0] == run[i + 1] && work[|work| - 1] == run[j];
    CallAnswersOnce(work);
    ResultAfterHasNext(root, run, j, |run[i].responses| - 1);
  }

  // ----- mutations

  /** The handler of a mutation never reads the channel. */
  lemma MutationDeliversNothing(root: seq<Object>, run: seq<State>, i: nat, k: nat)
    requires Fresh(root) && IsRun(Mutation, root, run) && i < |run| && k < |run[i].responses|
    ensures run[i].received == []
    ensures if k == 0 then run[i].responses[0] == FirstResponse else run[i].responses[k] == Nil
  {
    RunInv(Mutation, root, run, i);
    if k == 0 && 0 < Answered(run[i]) {
      assert IsResult(run[i], 0);
    }
  }

  /** Once the handler has returned nil, the whole tree was delivered exactly when the operation
      is a query or its tree has no deferred group at all. */
  lemma AllDeliveredIff(op: Operation, root: seq<Object>, run: seq<State>, i: nat, k: nat)
    requires Fresh(root) && IsRun(op, root, run) && i < |run|
    requires k < |run[i].responses| && run[i].responses[k].Nil?
    ensures Indexed(run[i])
    ensures multiset(Delivered(run[i])) == ObjectsBag(root) <==> op == Query || ObjectsBag(root) == multiset{}
  {
    RunInv(op, root, run, i);
    if op == Query {
      NilMeansAllDelivered(root, run, i, k);
    } else {
      MutationDeliversNothing(root, run, i, k);
      assert Delivered(run[i]) == [];
    }
  }

  const LostGroup: Group := Group([0, 0], "later", false, [])

  /** The state of a mutation with that one group: `main` and `late` are the two goroutines. */
  function LosingState(first: bool, handler: Handler, workers: seq<Thread>, deferred: int, pending: int, responses: seq<Response>): State
  {
    State(Mutation, first, handler, if |workers| > 1 then [LostGroup] else [], workers, deferred, pending, [], responses)
  }

  const Late: Thread := Dispatching(Some(LostGroup), [])
  const Blocked: Thread := Sending(Some(LostGroup))

  function FirstCall(announced: bool, counted: bool, groups: seq<Group>): Thread
  {
    Dispatching(None, [Object(announced, counted, groups)])
  }

  function LosingRun(): seq<State>
  {
    [LosingState(true, Idle, [FirstCall(false, false, [LostGroup])], 0, 0, []),
     LosingState(false, Executing, [FirstCall(false, false, [LostGroup])], 0, 0, []),
     LosingState(false, Executing, [FirstCall(true, false, [LostGroup])], 1, 0, []),
     LosingState(false, Executing, [FirstCall(true, true, [LostGroup])], 1, 1, []),
     LosingState(false, Executing, [FirstCall(true, false, []), Late], 1, 1, []),
     LosingState(false, Encoding(FirstResponse), [Finished, Late], 1, 1, []),
     LosingState(false, Idle, [Finished, Late], 1, 1, [FirstResponse]),
     LosingState(false, Idle, [Finished, Blocked], 1, 1, [FirstResponse]),
     LosingState(false, Idle, [Finished, Blocked], 1, 1, [FirstResponse, Nil])]
  }

  lemma FlagStep(s: State, s': State, step: Step, ob: Object)
    requires |s.workers| == 1 && |s'.workers| == 1 && s.workers[0].Dispatching? && |s.workers[0].objects| == 1
    requires || (step == Announce(0, 0) && ob == s.workers[0].objects[0].(announced := true))
             || (step == Count(0, 0) && ob == s.workers[0].objects[0].(counted := true))
    requires s'.workers[0] == s.workers[0].(objects := [ob])
    requires Enabled(s, step) && s' == Apply(s, step).(workers := s'.workers)
    ensures Next(s, s')
  {
    assert s.workers[0].objects[0 := ob] == [ob];
    assert s' == Apply(s, step);
  }

  lemma LosingSpawn()
    ensures Next(LosingRun()[3], LosingRun()[4])
  {
    var s, s' := LosingRun()[3], LosingRun()[4];
    var rest := FirstCall(true, false, []);
    assert s.workers[0].objects[0 := Object(true, false, [])] == rest.objects;
    assert Put(s.workers, 0, 0, Object(true, false, [])) == [rest];
    assert [LostGroup][1..] == [] && s.groups + [LostGroup] == s'.groups && [rest] + [Late] == s'.workers;
    assert Enabled(s, Spawn(0, 0)) && s' == Apply(s, Spawn(0, 0));
  }

  lemma LosingStart()
    ensures forall k :: 0 <= k < 3 ==> Next(LosingRun()[k], LosingRun()[k + 1])
  {
    var r := LosingRun();
    assert Enabled(r[0], Call) && r[1] == Apply(r[0], Call);
    FlagStep(r[1], r[2], Announce(0, 0), Object(true, false, [LostGroup]));
    FlagStep(r[2], r[3], Count(0, 0), Object(true, true, [LostGroup]));
  }

  lemma LosingEnd()
    ensures forall k :: 4 <= k < 8 ==> Next(LosingRun()[k], LosingRun()[k + 1])
  {
    var r := LosingRun();
    assert Enabled(r[4], Finish(0)) && r[5] == Apply(r[4], Finish(0));
    assert Enabled(r[5], LoadDeferred) && r[6] == Apply(r[5], LoadDeferred);
    assert Enabled(r[6], Finish(1)) && r[7] == Apply(r[6], Finish(1));
    assert Enabled(r[7], Call) && r[8] == Apply(r[7], Call);
  }

  /** A mutation with one deferred group: the handler has said nil while the goroutine of the
      group is blocked on the channel for good. */
  lemma MutationLosesDeferredGroup() returns (run: seq<State>)
    ensures IsRun(Mutation, [Object(false, false, [LostGroup])], run)
    ensures run[|run| - 1].responses == [FirstResponse, Nil]
    ensures run[|run| - 1].workers == [Finished, Blocked] && run[|run| - 1].received == []
    ensures forall step :: Enabled(run[|run| - 1], step) ==> step.Call?
  {
    run := LosingRun();
    LosingStart();
    LosingSpawn();
    LosingEnd();
  }
}
