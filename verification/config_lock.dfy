/** The in-memory configuration repository: a mutex, a flag that says the mutex is taken, and a
    pointer to the configuration, which LockAndLoad hands out as it is.  Unlock clears the flag
    only after it has released the mutex, and SaveAuth does not take the mutex at all. */
module ConfigLock {
  import opened Wrappers

  datatype Config = Config(migration: int, auth: string)

  /** Where a client stands; the comments name what it does next. */
  datatype Pc =
    | Outside
    | Acquired                       // set the flag
    | Flagged                        // load
    | Inside(view: Option<nat>, seen: Option<Config>, since: nat)  // save, change, or unlock
    | Testing                        // test the flag
    | Releasing                      // release the mutex
    | Clearing                       // clear the flag

  /** A change of the configuration.  A client inside makes it from what it had seen, which is what
      the first `since` changes left; otherwise it comes from SaveAuth. */
  datatype Write = ByClient(since: nat, before: Option<Config>, after: Option<Config>) | ByAuth(after: Option<Config>)

  /** `data` points into `objects`, the configurations made so far. */
  datatype State = State(
    holder: Option<nat>,
    locked: bool,
    objects: seq<Config>,
    data: Option<nat>,
    pcs: map<nat, Pc>,
    writes: seq<Write>)

  /** What a client saves: nil, the object that it holds, or a new one. */
  datatype Arg = Nil | Held | Fresh(config: Config)

  datatype Step =
    | Acquire(c: nat)
    | SetFlag(c: nat)
    | Load(c: nat)
    | Save(c: nat, arg: Arg)
    | Edit(c: nat, config: Config)   // changes the object that it holds in place
    | SaveAuth(c: nat, auth: string)
    | Unlock(c: nat)
    | Test(c: nat)
    | Release(c: nat)
    | Clear(c: nat)

  predicate Enabled(s: State, step: Step)
  {
    && step.c in s.pcs
    && match step
       case Acquire(c) => s.pcs[c].Outside? && s.holder.None?
       case SetFlag(c) => s.pcs[c].Acquired?
       case Load(c) => s.pcs[c].Flagged?
       case Save(c, _) => s.pcs[c].Inside?
       case Edit(c, _) => s.pcs[c].Inside? && s.pcs[c].view.Some? && s.pcs[c].view.value < |s.objects|
       case SaveAuth(_, _) => true
       case Unlock(c) => s.pcs[c].Inside?
       case Test(c) => s.pcs[c].Testing?
       case Release(c) => s.pcs[c].Releasing?
       case Clear(c) => s.pcs[c].Clearing?
  }

  function Content(s: State): Option<Config>
  {
    if s.data.Some? && s.data.value < |s.objects| then Some(s.objects[s.data.value]) else None
  }

  function At(s: State, c: nat, pc: Pc): State { s.(pcs := s.pcs[c := pc]) }

  function Next(s: State, step: Step): State
    requires Enabled(s, step)
  {
    match step
    case Acquire(c) => At(s, c, Acquired).(holder := Some(c))
    case SetFlag(c) => At(s, c, Flagged).(locked := true)
    case Load(c) => At(s, c, Inside(s.data, Content(s), |s.writes|))
    case Save(c, arg) =>
      var l := s.pcs[c];
      (match arg
       case Nil => s
       case Held => if l.view.Some? then s.(data := l.view) else s
       case Fresh(config) =>
         var p := Some(|s.objects|);
         s.(objects := s.objects + [config], data := p, writes := s.writes + [ByClient(l.since, l.seen, Some(config))],
            pcs := s.pcs[c := Inside(p, Some(config), |s.writes| + 1)]))
    case Edit(c, config) =>
      var l := s.pcs[c];
      s.(objects := s.objects[l.view.value := config], writes := s.writes + [ByClient(l.since, l.seen, Some(config))],
         pcs := s.pcs[c := Inside(l.view, Some(config), |s.writes| + 1)])
    case SaveAuth(_, auth) =>
      if Content(s).Some? then
        var config := Content(s).value.(auth := auth);
        s.(objects := s.objects[s.data.value := config], writes := s.writes + [ByAuth(Some(config))])
      else
        var config := Config(0, auth);
        s.(objects := s.objects + [config], data := Some(|s.objects|), writes := s.writes + [ByAuth(Some(config))])
    case Unlock(c) => At(s, c, Testing)
    case Test(c) => At(s, c, if s.locked then Releasing else Outside)
    case Release(c) => At(s, c, Clearing).(holder := None)
    case Clear(c) => At(s, c, Outside).(locked := false)
  }

  predicate IsInit(s: State)
  {
    && s.holder == None && !s.locked && s.writes == [] && (s.data.Some? ==> s.data.value < |s.objects|)
    && forall c :: c in s.pcs ==> s.pcs[c].Outside?
  }

  ghost predicate IsRun(run: seq<State>, steps: seq<Step>)
  {
    && |run| == |steps| + 1 && IsInit(run[0])
    && forall i :: 0 <= i < |steps| ==> Enabled(run[i], steps[i]) && run[i + 1] == Next(run[i], steps[i])
  }

  /** Between taking and releasing the mutex. */
  predicate Critical(pc: Pc) { !pc.Outside? && !pc.Clearing? }

  /** What the first k changes left. */
  function LeftBy(writes: seq<Write>, start: Option<Config>, k: nat): Option<Config>
    requires k <= |writes|
  {
    if k == 0 then start else writes[k - 1].after
  }

  /** Since the first k changes only SaveAuth changed something. */
  ghost predicate OnlyAuthSince(writes: seq<Write>, k: nat) { forall j :: k <= j < |writes| ==> writes[j].ByAuth? }

  ghost predicate Inv(s: State, start: Option<Config>)
  {
    && (s.data.Some? ==> s.data.value < |s.objects|)
    && (forall c :: c in s.pcs && Critical(s.pcs[c]) ==> s.holder == Some(c))
    && (forall c :: c in s.pcs && s.pcs[c].Inside? ==> ViewOk(s, start, s.pcs[c]))
    && Content(s) == LeftBy(s.writes, start, |s.writes|)
    && (forall k :: 0 <= k < |s.writes| ==> WriteOk(s.writes[..k], start, s.writes[k]))
  }

  /** What a client sees that has loaded: the current object, with what it contained then. */
  ghost predicate ViewOk(s: State, start: Option<Config>, pc: Pc)
    requires pc.Inside?
  {
    && pc.since <= |s.writes| && pc.seen == LeftBy(s.writes, start, pc.since) && OnlyAuthSince(s.writes, pc.since)
    && (pc.view.Some? ==> pc.view == s.data) && (pc.view.Some? <==> pc.seen.Some?)
  }

  ghost predicate WriteOk(before: seq<Write>, start: Option<Config>, w: Write)
  {
    match w
    case ByClient(since, seen, after) =>
      since <= |before| && seen == LeftBy(before, start, since) && OnlyAuthSince(before, since) && after.Some?
    case ByAuth(after) =>
      && after.Some?
      && var was := LeftBy(before, start, |before|);
      (was.Some? ==> after.value.migration == was.value.migration)
  }

  lemma StepInv(s: State, step: Step, start: Option<Config>)
    requires Inv(s, start) && Enabled(s, step)
    ensures Inv(Next(s, step), start)
  {
    var s' := Next(s, step);
    StepKeepsHolder(s, step, start);
    StepKeepsWrites(s, step, start);
    forall c | c in s'.pcs && s'.pcs[c].Inside? ensures ViewOk(s', start, s'.pcs[c]) {
      StepKeepsView(s, step, start, c);
    }
  }

  lemma StepKeepsHolder(s: State, step: Step, start: Option<Config>)
    requires Inv(s, start) && Enabled(s, step)
    ensures var s' := Next(s, step);
      && (s'.data.Some? ==> s'.data.value < |s'.objects|)
      && forall c :: c in s'.pcs && Critical(s'.pcs[c]) ==> s'.holder == Some(c)
  {
    var s' := Next(s, step);
    if step.Save? {
      assert ViewOk(s, start, s.pcs[step.c]);
    }
    forall c | c in s'.pcs && Critical(s'.pcs[c]) ensures s'.holder == Some(c) {
      assert c != step.c ==> s'.pcs[c] == s.pcs[c];
    }
  }

  /** The change that a step logs, if any. */
  function Logged(s: State, step: Step): Option<Write>
    requires Enabled(s, step)
  {
    match step
    case Save(c, Fresh(config)) => Some(ByClient(s.pcs[c].since, s.pcs[c].seen, Some(config)))
    case Edit(c, config) => Some(ByClient(s.pcs[c].since, s.pcs[c].seen, Some(config)))
    case SaveAuth(_, auth) => Some(ByAuth(Some(if Content(s).Some? then Content(s).value.(auth := auth) else Config(0, auth))))
    case _ => None
  }

  lemma LoggedIsOk(s: State, step: Step, start: Option<Config>)
    requires Inv(s, start) && Enabled(s, step)
    ensures Logged(s, step).Some? ==> WriteOk(s.writes, start, Logged(s, step).value)
  {
    if step.Save? || step.Edit? {
      assert ViewOk(s, start, s.pcs[step.c]);
    }
  }

  lemma StepContent(s: State, step: Step, start: Option<Config>)
    requires Inv(s, start) && Enabled(s, step)
    ensures var (s', w) := (Next(s, step), Logged(s, step));
      && s'.writes == (if w.Some? then s.writes + [w.value] else s.writes)
      && Content(s') == if w.Some? then w.value.after else Content(s)
  {
    if step.Save? || step.Edit? {
      assert ViewOk(s, start, s.pcs[step.c]);
    }
  }

  /** A step leaves the log of changes alone or adds one. */
  lemma StepKeepsWrites(s: State, step: Step, start: Option<Config>)
    requires Inv(s, start) && Enabled(s, step)
    ensures var s' := Next(s, step);
      && Content(s') == LeftBy(s'.writes, start, |s'.writes|)
      && forall k :: 0 <= k < |s'.writes| ==> WriteOk(s'.writes[..k], start, s'.writes[k])
  {
    StepContent(s, step, start);
    LoggedIsOk(s, step, start);
    var writes, n := Next(s, step).writes, |s.writes|;
    assert writes[..n] == s.writes;
    forall k | 0 <= k < |writes| ensures WriteOk(writes[..k], start, writes[k]) {
      if k < n {
        assert writes[..k] == s.writes[..k] && WriteOk(s.writes[..k], start, s.writes[k]);
      }
    }
  }

  lemma StepKeepsView(s: State, step: Step, start: Option<Config>, c: nat)
    requires Inv(s, start) && Enabled(s, step) && c in Next(s, step).pcs && Next(s, step).pcs[c].Inside?
    ensures ViewOk(Next(s, step), start, Next(s, step).pcs[c])
  {
    if step.SaveAuth? {
      AuthKeepsView(s, step, start, c);
    } else if c == step.c {
      OwnStepKeepsView(s, step, start);
    } else {
      // The others are not inside, so they change nothing.
      assert s.pcs[c].Inside? && Critical(s.pcs[c]) && ViewOk(s, start, s.pcs[c]);
      assert !s.pcs[step.c].Inside?;
      assert Next(s, step).writes == s.writes && Next(s, step).data == s.data;
    }
  }

  lemma AuthKeepsView(s: State, step: Step, start: Option<Config>, c: nat)
    requires Inv(s, start) && Enabled(s, step) && step.SaveAuth? && c in s.pcs && s.pcs[c].Inside?
    ensures ViewOk(Next(s, step), start, s.pcs[c])
  {
    assert ViewOk(s, start, s.pcs[c]);
    StepContent(s, step, start);
  }

  lemma OwnStepKeepsView(s: State, step: Step, start: Option<Config>)
    requires Inv(s, start) && Enabled(s, step) && !step.SaveAuth? && Next(s, step).pcs[step.c].Inside?
    ensures ViewOk(Next(s, step), start, Next(s, step).pcs[step.c])
  {
    if s.pcs[step.c].Inside? {
      assert ViewOk(s, start, s.pcs[step.c]);
    }
    StepContent(s, step, start);
  }

  lemma StepAt(run: seq<State>, steps: seq<Step>, k: nat)
    requires IsRun(run, steps) && k < |steps|
    ensures Enabled(run[k], steps[k]) && run[k + 1] == Next(run[k], steps[k])
  {
  }

  lemma {:induction false} RunInv(run: seq<State>, steps: seq<Step>, i: nat)
    requires IsRun(run, steps) && i < |run|
    ensures Inv(run[i], Content(run[0]))
  {
    if i > 0 {
      RunInv(run, steps, i - 1);
      StepAt(run, steps, i - 1);
      StepInv(run[i - 1], steps[i - 1], Content(run[0]));
    }
  }

  /** At most one client is between its LockAndLoad and its unlock, in every interleaving,
      although the flag is cleared after the mutex is free again. */
  lemma MutualExclusion(run: seq<State>, steps: seq<Step>, i: nat, c: nat, d: nat)
    requires IsRun(run, steps) && i < |run|
    requires c in run[i].pcs && d in run[i].pcs && Critical(run[i].pcs[c]) && Critical(run[i].pcs[d])
    ensures c == d
  {
    RunInv(run, steps, i);
  }

  /** The configuration is what the last change left, or the one at the start.  What a client has
      seen by loading or changing it is still so but for what SaveAuth changed since, and through
      its pointer it sees the current configuration, unless it has loaded none. */
  lemma LoadsSeeTheLastWrite(run: seq<State>, steps: seq<Step>, i: nat, c: nat)
    requires IsRun(run, steps) && i < |run|
    ensures var s := run[i];
      && Content(s) == LeftBy(s.writes, Content(run[0]), |s.writes|)
      && (c in s.pcs && s.pcs[c].Inside? ==>
           && s.pcs[c].since <= |s.writes| && s.pcs[c].seen == LeftBy(s.writes, Content(run[0]), s.pcs[c].since)
           && OnlyAuthSince(s.writes, s.pcs[c].since)
           && (s.pcs[c].view.Some? ==> s.pcs[c].view == s.data && Content(s).Some?))
  {
    RunInv(run, steps, i);
    if c in run[i].pcs && run[i].pcs[c].Inside? {
      assert ViewOk(run[i], Content(run[0]), run[i].pcs[c]);
    }
  }

  /** Only the holder of the mutex and SaveAuth change the configuration. */
  lemma OnlyHolderAndAuthChange(run: seq<State>, steps: seq<Step>, i: nat)
    requires IsRun(run, steps) && i < |steps| && Content(run[i + 1]) != Content(run[i])
    ensures steps[i].SaveAuth? || (run[i].holder == Some(steps[i].c) && (steps[i].Edit? || (steps[i].Save? && steps[i].arg.Fresh?)))
    ensures Content(run[i + 1]) ==
      match steps[i]
      case SaveAuth(_, auth) =>
        Some(Config(if Content(run[i]).Some? then Content(run[i]).value.migration else 0, auth))
      case Edit(_, config) => Some(config)
      case Save(_, Fresh(config)) => Some(config)
      case _ => Content(run[i])
  {
    if steps[i].Edit? {
      RunInv(run, steps, i);
      assert ViewOk(run[i], Content(run[0]), run[i].pcs[steps[i].c]);
    }
    RunInv(run, steps, i);
    StepAt(run, steps, i);
    if steps[i].Save? {
      assert ViewOk(run[i], Content(run[0]), run[i].pcs[steps[i].c]);
    }
  }

  /** Every change by a client starts from what the change before left, exactly when no SaveAuth came
      in between or the last one set what the client had seen.  The migration number is never
      stale. */
  lemma NoLostUpdatesIff(run: seq<State>, steps: seq<Step>, i: nat, k: nat)
    requires IsRun(run, steps) && i < |run| && k < |run[i].writes| && run[i].writes[k].ByClient?
    ensures var (w, left) := (run[i].writes[k], LeftBy(run[i].writes, Content(run[0]), k));
      && w.since <= k && OnlyAuthSince(run[i].writes[..k], w.since) && (w.since < k ==> left.Some?)
      && (w.before == left <==> w.since == k || (w.before.Some? && w.before.value.auth == left.value.auth))
      && (w.before.Some? ==> left.Some? && left.value.migration == w.before.value.migration)
  {
    RunInv(run, steps, i);
    var writes, start := run[i].writes, Content(run[0]);
    assert WriteOk(writes[..k], start, writes[k]);
    AuthKeepsMigration(writes, start, writes[k].since, k);
  }

  lemma {:induction false} AuthKeepsMigration(writes: seq<Write>, start: Option<Config>, j: nat, k: nat)
    requires j <= k <= |writes| && OnlyAuthSince(writes[..k], j)
    requires forall i :: 0 <= i < |writes| ==> WriteOk(writes[..i], start, writes[i])
    ensures j < k ==> LeftBy(writes, start, k).Some?
    ensures LeftBy(writes, start, j).Some? ==>
      LeftBy(writes, start, k).Some? && LeftBy(writes, start, k).value.migration == LeftBy(writes, start, j).value.migration
  {
    if j < k {
      assert writes[..k][..k - 1] == writes[..k - 1];
      assert forall i :: j <= i < k - 1 ==> writes[..k - 1][i] == writes[..k][i];
      AuthKeepsMigration(writes, start, j, k - 1);
      assert writes[..k][k - 1] == writes[k - 1];
      assert WriteOk(writes[..k - 1], start, writes[k - 1]);
    }
  }

  // ----- the late clear

  /** A step taken while c is in its critical section, past setting the flag, clears the flag when
      it is a late clear and leaves it alone otherwise. */
  lemma FlagStep(s: State, step: Step, start: Option<Config>, c: nat)
    requires Inv(s, start) && Enabled(s, step) && c in s.pcs && Critical(s.pcs[c]) && !s.pcs[c].Acquired?
    ensures Next(s, step).locked <==> s.locked && !step.Clear?
  {
  }

  ghost predicate NoClear(steps: seq<Step>, i: nat, j: nat)
    requires j <= |steps|
  {
    forall k :: i < k < j ==> !steps[k].Clear?
  }

  lemma NoClearUpTo(steps: seq<Step>, i: nat, j: nat)
    requires i + 1 < j <= |steps|
    ensures NoClear(steps, i, j) <==> NoClear(steps, i, j - 1) && !steps[j - 1].Clear?
  {
  }

  /** Client c is in its critical section in the states after i, up to j. */
  ghost predicate StaysIn(run: seq<State>, i: nat, j: nat, c: nat)
    requires j < |run|
  {
    forall k :: i < k <= j ==> c in run[k].pcs && Critical(run[k].pcs[c])
  }

  lemma FlagStepAt(run: seq<State>, steps: seq<Step>, k: nat, c: nat)
    requires IsRun(run, steps) && k < |steps|
    requires c in run[k].pcs && Critical(run[k].pcs[c]) && !run[k].pcs[c].Acquired?
    ensures run[k + 1].locked <==> run[k].locked && !steps[k].Clear?
  {
    RunInv(run, steps, k);
    StepAt(run, steps, k);
    FlagStep(run[k], steps[k], Content(run[0]), c);
  }

  /** From the moment client c sets the flag until it tests it, the flag stays set exactly when no
      late clear of an earlier holder comes in between. */
  lemma {:induction false} FlagAtTestIff(run: seq<State>, steps: seq<Step>, i: nat, j: nat, c: nat)
    requires IsRun(run, steps) && i < j < |run| && steps[i] == SetFlag(c) && StaysIn(run, i, j, c)
    ensures run[j].locked <==> NoClear(steps, i, j)
    decreases j
  {
    if i + 1 == j {
      StepAt(run, steps, i);
    } else {
      FlagAtTestIff(run, steps, i, j - 1, c);
      OnlyOneSetFlag(run, steps, i, j - 1, c);
      FlagStepAt(run, steps, j - 1, c);
      NoClearUpTo(steps, i, j);
    }
  }

  /** While c is in its critical section after setting the flag, it does not set it again. */
  lemma {:induction false} OnlyOneSetFlag(run: seq<State>, steps: seq<Step>, i: nat, j: nat, c: nat)
    requires IsRun(run, steps) && i < j < |run| && steps[i] == SetFlag(c) && StaysIn(run, i, j, c)
    ensures !run[j].pcs[c].Acquired?
    decreases j
  {
    StepAt(run, steps, j - 1);
    if i + 1 < j {
      OnlyOneSetFlag(run, steps, i, j - 1, c);
    }
  }

  /** An unlock whose flag was cleared leaves the mutex taken for good: nobody enters again. */
  lemma {:induction false} SwallowedUnlockIsForever(run: seq<State>, steps: seq<Step>, i: nat, j: nat, c: nat)
    requires IsRun(run, steps) && i < j < |run|
    requires steps[i] == Test(c) && !run[i].locked
    ensures run[j].holder == Some(c) && forall d :: d in run[j].pcs ==> !Critical(run[j].pcs[d])
    decreases j
  {
    var s, step := run[j - 1], steps[j - 1];
    assert Enabled(s, step) && run[j - 1 + 1] == Next(s, step);
    if i + 1 < j {
      SwallowedUnlockIsForever(run, steps, i, j - 1, c);
    } else {
      RunInv(run, steps, i);
    }
  }

  lemma Extend(run: seq<State>, steps: seq<Step>, step: Step) returns (run': seq<State>, steps': seq<Step>)
    requires IsRun(run, steps) && Enabled(run[|run| - 1], step)
    ensures steps' == steps + [step] && run' == run + [Next(run[|run| - 1], step)] && IsRun(run', steps')
  {
    run', steps' := run + [Next(run[|run| - 1], step)], steps + [step];
    forall i | 0 <= i < |steps'| ensures Enabled(run'[i], steps'[i]) && run'[i + 1] == Next(run'[i], steps'[i]) {
      if i < |steps| {
        assert Enabled(run[i], steps[i]) && run[i + 1] == Next(run[i], steps[i]);
      }
    }
  }

  ghost predicate Reaches(run: seq<State>, steps: seq<Step>, s: State) { IsRun(run, steps) && run[|run| - 1] == s }

  lemma Then(run: seq<State>, steps: seq<Step>, s: State, step: Step) returns (run': seq<State>, steps': seq<Step>, s': State)
    requires Reaches(run, steps, s) && Enabled(s, step)
    ensures s' == Next(s, step) && Reaches(run', steps', s') && run' == run + [s'] && steps' == steps + [step]
  {
    s' := Next(s, step);
    run', steps' := Extend(run, steps, step);
  }

  function TwoClients(holder: Option<nat>, locked: bool, first: Pc, second: Pc): State
  {
    State(holder, locked, [], None, map[0 := first, 1 := second], [])
  }

  lemma FirstHolderEnters() returns (run: seq<State>, steps: seq<Step>, s: State)
    ensures Reaches(run, steps, s) && s == TwoClients(Some(0), true, Inside(None, None, 0), Outside)
  {
    s := TwoClients(None, false, Outside, Outside);
    run, steps := [s], [];
    run, steps, s := Then(run, steps, s, Acquire(0));
    run, steps, s := Then(run, steps, s, SetFlag(0));
    run, steps, s := Then(run, steps, s, Load(0));
  }

  lemma FirstHolderReleases() returns (run: seq<State>, steps: seq<Step>, s: State)
    ensures Reaches(run, steps, s) && s == TwoClients(None, true, Clearing, Outside)
  {
    run, steps, s := FirstHolderEnters();
    run, steps, s := Then(run, steps, s, Unlock(0));
    run, steps, s := Then(run, steps, s, Test(0));
    run, steps, s := Then(run, steps, s, Release(0));
  }

  lemma SecondHolderEnters() returns (run: seq<State>, steps: seq<Step>, s: State)
    ensures Reaches(run, steps, s) && s == TwoClients(Some(1), false, Outside, Flagged)
  {
    run, steps, s := FirstHolderReleases();
    run, steps, s := Then(run, steps, s, Acquire(1));
    run, steps, s := Then(run, steps, s, SetFlag(1));
    run, steps, s := Then(run, steps, s, Clear(0));
  }

  /** Two clients suffice: the first releases, the second enters, and only then the first clears
      the flag. */
  lemma LateClearSwallowsUnlock() returns (run: seq<State>, steps: seq<Step>)
    ensures IsRun(run, steps)
    ensures exists i :: 0 <= i < |steps| && steps[i] == Test(1) && !run[i].locked
  {
    var s;
    run, steps, s := SecondHolderEnters();
    run, steps, s := Then(run, steps, s, Load(1));
    run, steps, s := Then(run, steps, s, Unlock(1));
    ghost var last := s;
    run, steps, s := Then(run, steps, s, Test(1));
    assert steps[|steps| - 1] == Test(1) && run[|steps| - 1] == last;
  }

  // ----- changes past the lock

  const Before: Config := Config(1, "a")

  /** Client 0 has loaded the configuration Before. */
  lemma FirstHolderLoads() returns (run: seq<State>, steps: seq<Step>, s: State)
    ensures Reaches(run, steps, s) && Content(run[0]) == Some(Before) && NoSaves(steps)
    ensures s == State(Some(0), true, [Before], Some(0), map[0 := Inside(Some(0), Some(Before), 0), 1 := Outside], [])
  {
    s := State(None, false, [Before], Some(0), map[0 := Outside, 1 := Outside], []);
    run, steps := [s], [];
    run, steps, s := Then(run, steps, s, Acquire(0));
    run, steps, s := Then(run, steps, s, SetFlag(0));
    run, steps, s := Then(run, steps, s, Load(0));
  }

  /** It changes it in place and begins to unlock. */
  lemma FirstHolderEdits(config: Config) returns (run: seq<State>, steps: seq<Step>, s: State)
    ensures Reaches(run, steps, s) && Content(run[0]) == Some(Before) && NoSaves(steps)
    ensures s == State(Some(0), true, [config], Some(0), map[0 := Testing, 1 := Outside], [ByClient(0, Some(Before), Some(config))])
  {
    run, steps, s := FirstHolderLoads();
    run, steps, s := Then(run, steps, s, Edit(0, config));
    run, steps, s := Then(run, steps, s, Unlock(0));
  }

  lemma FirstHolderLeaves(config: Config) returns (run: seq<State>, steps: seq<Step>, s: State)
    ensures Reaches(run, steps, s) && Content(run[0]) == Some(Before) && NoSaves(steps)
    ensures s == State(None, false, [config], Some(0), map[0 := Outside, 1 := Outside], [ByClient(0, Some(Before), Some(config))])
  {
    run, steps, s := FirstHolderEdits(config);
    run, steps, s := Then(run, steps, s, Test(0));
    run, steps, s := Then(run, steps, s, Release(0));
    run, steps, s := Then(run, steps, s, Clear(0));
  }

  ghost predicate NoSaves(steps: seq<Step>) { forall step <- steps :: !step.Save? && !step.SaveAuth? }

  /** A client that changes what it has loaded and unlocks without saving has changed the
      configuration all the same. */
  lemma UnsavedEditIsSeen(config: Config) returns (run: seq<State>, steps: seq<Step>, s: State)
    ensures Reaches(run, steps, s) && Content(run[0]) == Some(Before) && NoSaves(steps)
    ensures 1 in s.pcs && s.pcs[1] == Inside(Some(0), Some(config), 1)
  {
    run, steps, s := FirstHolderLeaves(config);
    run, steps, s := Then(run, steps, s, Acquire(1));
    run, steps, s := Then(run, steps, s, SetFlag(1));
    run, steps, s := Then(run, steps, s, Load(1));
  }

  /** What SaveAuth sets while another client is inside is lost when that client saves a new
      configuration made from what it had loaded. */
  lemma SaveAuthCanBeLost() returns (run: seq<State>, steps: seq<Step>, s: State)
    ensures Reaches(run, steps, s) && |steps| >= 2 && steps[|steps| - 2..] == [SaveAuth(1, "b"), Save(0, Fresh(Before.(migration := 2)))]
    ensures Content(s) == Some(Before.(migration := 2)) && Content(s).value.auth != "b"
  {
    run, steps, s := FirstHolderLoads();
    run, steps, s := Then(run, steps, s, SaveAuth(1, "b"));
    run, steps, s := Then(run, steps, s, Save(0, Fresh(Before.(migration := 2))));
    assert "a"[0] != "b"[0];
  }
}
