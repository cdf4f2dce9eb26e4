/** App's shutdown protocol: OnShutdown registrations under hookmu, supervised goroutines
    counted by a WaitGroup, and any number of Shutdown calls of which one performs the teardown. */
module AppShutdown {
  import opened Logs
  import opened Wire

  /** A supervised goroutine: running, its error recorded but the app not cancelled yet, about
      to call wg.Done, gone. */
  datatype Goroutine = Running | Recorded | Finishing(failed: bool) | Exited(failed: bool)
  {
    predicate HasFailed() { Recorded? || (Finishing? && failed) || (Exited? && failed) }
  }

  /** hookmu: who holds it, and whether the holder has already seen a live context. */
  datatype HookLock = Free | Registering(hook: int, checked: bool)

  /** The single teardown. left counts the hooks of the snapshot that have not ended. */
  datatype Teardown =
    | NotBegun | Begun | ContextCancelled | Waited
    | Hooks(snapshot: seq<int>, left: int, inHook: bool)
    | Joined | Done

  datatype AppError = GoroutineError(g: int) | HookError(hook: int)

  /** started, outcomes, waitedFor, waitedErrs, joinedErrs and results are histories: hook starts,
      whether each ended hook succeeded, the goroutines and errors there were when Wait returned,
      the errors there were at the join, what Shutdown calls returned. */
  datatype State = State(
    cancelled: bool,
    lock: HookLock, hooks: seq<int>,
    checkedGos: set<int>, gos: map<int, Goroutine>, counter: int, goErr: seq<int>,
    teardown: Teardown, hookErrs: seq<int>, shutdownErr: seq<AppError>,
    started: seq<int>, outcomes: seq<bool>,
    waitedFor: set<int>, waitedErrs: seq<int>, joinedErrs: seq<int>,
    results: seq<seq<AppError>>)

  datatype Action =
    | LockHooks(hook: int) | CheckHooks | AppendHook
    | GoCheck(g: int) | GoAdd(g: int)
    | GoFail(g: int) | GoCancel(g: int) | GoNil(g: int) | GoDone(g: int)
    | Begin | CancelContext | Wait | Snapshot | StartHook | EndHook(ok: bool) | Join | Finish | Return

  ghost function Initial(): State {
    State(false, Free, [], {}, map[], 0, [], NotBegun, [], [], [], [], {}, [], [], [])
  }

  ghost predicate Enabled(s: State, a: Action) {
    match a
    case LockHooks(_) => s.lock.Free?
    case CheckHooks => s.lock.Registering? && !s.lock.checked
    case AppendHook => s.lock.Registering? && s.lock.checked
    case GoCheck(g) => g !in s.checkedGos && g !in s.gos
    case GoAdd(g) => g in s.checkedGos && g !in s.gos
    case GoFail(g) => g in s.gos && s.gos[g].Running?
    case GoCancel(g) => g in s.gos && s.gos[g].Recorded?
    case GoNil(g) => g in s.gos && s.gos[g].Running?
    case GoDone(g) => g in s.gos && s.gos[g].Finishing?
    case Begin => s.teardown.NotBegun?
    case CancelContext => s.teardown.Begun?
    case Wait => s.teardown.ContextCancelled? && s.counter == 0
    case Snapshot => s.teardown.Waited? && s.lock.Free?
    case StartHook => s.teardown.Hooks? && 0 < s.teardown.left <= |s.teardown.snapshot| && !s.teardown.inHook
    case EndHook(_) => s.teardown.Hooks? && 0 < s.teardown.left <= |s.teardown.snapshot| && s.teardown.inHook
    case Join => s.teardown.Hooks? && s.teardown.left == 0
    case Finish => s.teardown.Joined?
    case Return => s.teardown.Done?
  }

  /** errors.Join's argument: goroutine errors in completion order, then hook errors in run order. */
  function Errors(goErrs: seq<int>, hookErrs: seq<int>): seq<AppError> {
    seq(|goErrs|, i requires 0 <= i < |goErrs| => GoroutineError(goErrs[i])) +
    seq(|hookErrs|, i requires 0 <= i < |hookErrs| => HookError(hookErrs[i]))
  }

  ghost function Fire(s: State, a: Action): State
    requires Enabled(s, a)
  {
    match a
    case LockHooks(h) => s.(lock := Registering(h, false))
    case CheckHooks => if s.cancelled then s.(lock := Free) else s.(lock := Registering(s.lock.hook, true))
    case AppendHook => s.(hooks := s.hooks + [s.lock.hook], lock := Free)
    case GoCheck(g) => if s.cancelled then s else s.(checkedGos := s.checkedGos + {g})
    case GoAdd(g) => s.(checkedGos := s.checkedGos - {g}, gos := s.gos[g := Running], counter := s.counter + 1)
    case GoFail(g) => s.(gos := s.gos[g := Recorded], goErr := s.goErr + [g])
    case GoCancel(g) => s.(gos := s.gos[g := Finishing(true)], cancelled := true)
    case GoNil(g) => s.(gos := s.gos[g := Finishing(false)])
    case GoDone(g) => s.(gos := s.gos[g := Exited(s.gos[g].failed)], counter := s.counter - 1)
    case Begin => s.(teardown := Begun)
    case CancelContext => s.(teardown := ContextCancelled, cancelled := true)
    case Wait => s.(teardown := Waited, waitedFor := s.gos.Keys, waitedErrs := s.goErr)
    case Snapshot => s.(teardown := Hooks(s.hooks, |s.hooks|, false))
    case StartHook =>
      s.(teardown := s.teardown.(inHook := true),
         started := s.started + [s.teardown.snapshot[s.teardown.left - 1]])
    case EndHook(ok) =>
      var h := s.teardown.snapshot[s.teardown.left - 1];
      s.(teardown := s.teardown.(left := s.teardown.left - 1, inHook := false),
         outcomes := s.outcomes + [ok],
         hookErrs := if ok then s.hookErrs else s.hookErrs + [h])
    case Join => s.(teardown := Joined, shutdownErr := Errors(s.goErr, s.hookErrs), joinedErrs := s.goErr)
    case Finish => s.(teardown := Done)
    case Return => s.(results := s.results + [s.shutdownErr])
  }

  ghost function Exec(acts: seq<Action>): Option<State> {
    if acts == [] then Some(Initial())
    else
      match Exec(Init(acts))
      case None => None
      case Some(s) => if Enabled(s, Last(acts)) then Some(Fire(s, Last(acts))) else None
  }

  // ---- Goroutines ----

  ghost function Live(s: State): set<int> {
    set g | g in s.gos && !s.gos[g].Exited?
  }

  ghost predicate Goroutines(s: State) {
    && s.counter == |Live(s)|
    && (forall g :: g in s.goErr <==> g in s.gos && s.gos[g].HasFailed())
    && (forall i, j | 0 <= i < j < |s.goErr| :: s.goErr[i] != s.goErr[j])
    && (forall g | g in s.gos && s.gos[g].HasFailed() && !s.gos[g].Recorded? :: s.cancelled)
  }

  lemma AddCounted(s: State, g: int)
    requires s.counter == |Live(s)| && Enabled(s, GoAdd(g))
    ensures Fire(s, GoAdd(g)).counter == |Live(Fire(s, GoAdd(g)))|
  {
    assert Live(Fire(s, GoAdd(g))) == Live(s) + {g};
  }

  lemma DoneCounted(s: State, g: int)
    requires s.counter == |Live(s)| && Enabled(s, GoDone(g))
    ensures Fire(s, GoDone(g)).counter == |Live(Fire(s, GoDone(g)))|
  {
    assert Live(Fire(s, GoDone(g))) == Live(s) - {g};
  }

  lemma OthersKeepLive(s: State, a: Action)
    requires Enabled(s, a) && !a.GoAdd? && !a.GoDone?
    ensures Fire(s, a).counter == s.counter && Live(Fire(s, a)) == Live(s)
  {}

  lemma CounterKept(s: State, a: Action)
    requires s.counter == |Live(s)| && Enabled(s, a)
    ensures Fire(s, a).counter == |Live(Fire(s, a))|
  {
    if a.GoAdd? {
      AddCounted(s, a.g);
    } else if a.GoDone? {
      DoneCounted(s, a.g);
    } else {
      OthersKeepLive(s, a);
    }
  }

  lemma GoroutinesKept(s: State, a: Action)
    requires Goroutines(s) && Enabled(s, a)
    ensures Goroutines(Fire(s, a))
  {
    CounterKept(s, a);
    assert a.GoFail? ==> a.g !in s.goErr;
  }

  // ---- The teardown ----

  function Reversed(s: seq<int>): (r: seq<int>)
    ensures |r| == |s|
  {
    if s == [] then [] else Reversed(s[1..]) + [s[0]]
  }

  /** The hooks of a run that did not succeed, in run order. */
  function FailedHooks(run: seq<int>, outcomes: seq<bool>): seq<int>
    requires |outcomes| <= |run|
    decreases |outcomes|
  {
    if outcomes == [] then []
    else
      var n := |outcomes| - 1;
      FailedHooks(run, outcomes[..n]) + if outcomes[n] then [] else [run[n]]
  }

  lemma {:induction false} ReversedAt(s: seq<int>)
    ensures forall i | 0 <= i < |s| :: Reversed(s)[i] == s[|s| - 1 - i]
  {
    if s == [] {
    } else {
      ReversedAt(s[1..]);
    }
  }

  ghost predicate AfterSnapshot(s: State) {
    s.teardown.Hooks? || s.teardown.Joined? || s.teardown.Done?
  }

  ghost predicate AfterWait(s: State) {
    s.teardown.Waited? || AfterSnapshot(s)
  }

  ghost predicate Ordered(s: State) {
    && (!s.teardown.NotBegun? && !s.teardown.Begun? ==> s.cancelled)
    && (AfterSnapshot(s) ==> !(s.lock.Registering? && s.lock.checked))
    && (!AfterSnapshot(s) ==> s.started == [] && s.outcomes == [] && s.hookErrs == [])
    && (s.teardown.Hooks? ==>
          && s.teardown.snapshot == s.hooks && 0 <= s.teardown.left <= |s.hooks|
          && (s.teardown.inHook ==> s.teardown.left > 0)
          && |s.outcomes| == |s.hooks| - s.teardown.left
          && |s.started| == |s.outcomes| + if s.teardown.inHook then 1 else 0)
    && (s.teardown.Joined? || s.teardown.Done? ==> |s.started| == |s.outcomes| == |s.hooks|)
    && |s.started| <= |s.hooks| && |s.outcomes| <= |s.started|
    && (forall i | 0 <= i < |s.started| :: s.started[i] == s.hooks[|s.hooks| - 1 - i])
    && s.hookErrs == FailedHooks(s.started, s.outcomes)
  }

  lemma FailedHooksSnoc(run: seq<int>, outcomes: seq<bool>, h: int, ok: bool)
    requires |outcomes| <= |run|
    ensures FailedHooks(run + [h], outcomes) == FailedHooks(run, outcomes)
    ensures |outcomes| < |run| ==>
              FailedHooks(run, outcomes + [ok]) ==
              FailedHooks(run, outcomes) + if ok then [] else [run[|outcomes|]]
    decreases |outcomes|
  {
    assert (outcomes + [ok])[..|outcomes|] == outcomes;
    if outcomes != [] {
      FailedHooksSnoc(run, outcomes[..|outcomes| - 1], h, ok);
    }
  }

  lemma OrderedKept(s: State, a: Action)
    requires Ordered(s) && Enabled(s, a)
    ensures Ordered(Fire(s, a))
  {
    if a.StartHook? { StartKeepsOrder(s); }
    else if a.EndHook? { EndKeepsOrder(s, a.ok); }
    else { assert Fire(s, a).hookErrs == s.hookErrs; }
  }

  lemma StartKeepsOrder(s: State)
    requires Ordered(s) && Enabled(s, StartHook)
    ensures Ordered(Fire(s, StartHook))
  {
    FailedHooksSnoc(s.started, s.outcomes, s.teardown.snapshot[s.teardown.left - 1], false);
  }

  lemma EndKeepsOrder(s: State, ok: bool)
    requires Ordered(s) && Enabled(s, EndHook(ok))
    ensures Ordered(Fire(s, EndHook(ok)))
  {
    FailedHooksSnoc(s.started, s.outcomes, 0, ok);
    assert s.started[|s.outcomes|] == s.teardown.snapshot[s.teardown.left - 1];
  }

  ghost predicate Collected(s: State) {
    && (AfterWait(s) ==>
          && s.waitedErrs <= s.goErr
          && (forall g | g in s.waitedFor :: g in s.gos && s.gos[g].Exited?)
          && (forall g :: g in s.waitedErrs <==> g in s.waitedFor && s.gos[g].HasFailed())
          && (forall i | |s.waitedErrs| <= i < |s.goErr| :: s.goErr[i] !in s.waitedFor))
    && (s.teardown.Joined? || s.teardown.Done? ==>
          && s.waitedErrs <= s.joinedErrs <= s.goErr
          && s.shutdownErr == Errors(s.joinedErrs, s.hookErrs))
    && (forall r | r in s.results :: s.teardown.Done? && r == s.shutdownErr)
  }

  lemma CollectedKept(s: State, a: Action)
    requires Goroutines(s) && Collected(s) && Enabled(s, a)
    ensures Collected(Fire(s, a))
  {
    if a.Wait? {
      WaitCollects(s);
    } else if a.GoCheck? || a.GoAdd? || a.GoFail? || a.GoCancel? || a.GoNil? || a.GoDone? {
      GoroutineKeepsCollected(s, a);
    } else {
      CallerKeepsCollected(s, a);
    }
  }

  lemma WaitCollects(s: State)
    requires Goroutines(s) && Collected(s) && Enabled(s, Wait)
    ensures Collected(Fire(s, Wait))
  {
    assert Live(s) == {};
    forall g | g in s.gos ensures s.gos[g].Exited? { assert g !in Live(s); }
  }

  lemma GoroutineKeepsCollected(s: State, a: Action)
    requires Goroutines(s) && Collected(s) && Enabled(s, a)
    requires a.GoCheck? || a.GoAdd? || a.GoFail? || a.GoCancel? || a.GoNil? || a.GoDone?
    ensures Collected(Fire(s, a))
  {}

  lemma CallerKeepsCollected(s: State, a: Action)
    requires Goroutines(s) && Collected(s) && Enabled(s, a)
    requires !a.GoCheck? && !a.GoAdd? && !a.GoFail? && !a.GoCancel? && !a.GoNil? && !a.GoDone? && !a.Wait?
    ensures Collected(Fire(s, a))
  {}

  // ---- Every run ----

  lemma {:induction false} RunKeepsInv(acts: seq<Action>)
    requires Exec(acts).Some?
    ensures Goroutines(Exec(acts).value) && Ordered(Exec(acts).value) && Collected(Exec(acts).value)
    decreases |acts|
  {
    if acts == [] {
      assert Live(Initial()) == {};
    } else {
      RunKeepsInv(Init(acts));
      var s := Exec(Init(acts)).value;
      GoroutinesKept(s, Last(acts));
      OrderedKept(s, Last(acts));
      CollectedKept(s, Last(acts));
    }
  }

  lemma {:induction false} ExecSnoc(acts: seq<Action>, a: Action)
    requires Exec(acts).Some? && Enabled(Exec(acts).value, a)
    ensures Exec(acts + [a]) == Some(Fire(Exec(acts).value, a))
  {
    assert Init(acts + [a]) == acts;
  }

  // ---- The histories are the schedule's ----

  /** The hook of the OnShutdown call that has locked last. */
  function Calling(acts: seq<Action>): int {
    if acts == [] then 0 else if Last(acts).LockHooks? then Last(acts).hook else Calling(Init(acts))
  }

  /** The hooks of the OnShutdown calls that were accepted, in the order of their registration. */
  function Registered(acts: seq<Action>): seq<int> {
    if acts == [] then []
    else Registered(Init(acts)) + if Last(acts).AppendHook? then [Calling(Init(acts))] else []
  }

  /** The goroutines that failed, in the order in which they did. */
  function FailedGoroutines(acts: seq<Action>): seq<int> {
    if acts == [] then [] else FailedGoroutines(Init(acts)) + if Last(acts).GoFail? then [Last(acts).g] else []
  }

  /** The goroutines that had failed when the errors were joined. */
  function FailedAtJoin(acts: seq<Action>): seq<int> {
    if acts == [] then [] else if Last(acts).Join? then FailedGoroutines(Init(acts)) else FailedAtJoin(Init(acts))
  }

  /** How the hooks that have run ended, in order. */
  function HookOutcomes(acts: seq<Action>): seq<bool> {
    if acts == [] then [] else HookOutcomes(Init(acts)) + if Last(acts).EndHook? then [Last(acts).ok] else []
  }

  lemma HistoryStep(s: State, a: Action)
    requires Enabled(s, a)
    ensures Fire(s, a).hooks == s.hooks + if a.AppendHook? then [s.lock.hook] else []
    ensures Fire(s, a).goErr == s.goErr + if a.GoFail? then [a.g] else []
    ensures Fire(s, a).outcomes == s.outcomes + if a.EndHook? then [a.ok] else []
    ensures Fire(s, a).joinedErrs == if a.Join? then s.goErr else s.joinedErrs
    ensures Fire(s, a).lock.Registering? ==>
              if a.LockHooks? then Fire(s, a).lock.hook == a.hook
              else s.lock.Registering? && Fire(s, a).lock.hook == s.lock.hook
  {}

  lemma {:induction false} HistoriesAreSchedule(acts: seq<Action>)
    requires Exec(acts).Some?
    ensures var s := Exec(acts).value;
            && s.hooks == Registered(acts) && s.goErr == FailedGoroutines(acts) && s.outcomes == HookOutcomes(acts)
            && s.joinedErrs == FailedAtJoin(acts)
            && (s.lock.Registering? ==> s.lock.hook == Calling(acts))
    decreases |acts|
  {
    if acts == [] {
    } else {
      HistoriesAreSchedule(Init(acts));
      HistoryStep(Exec(Init(acts)).value, Last(acts));
    }
  }

  /** An OnShutdown call that has the lock is accepted exactly when it looks at a live context: then its
      next step registers its hook last, and otherwise it leaves without registering. */
  lemma {:induction false} AcceptedIff(acts: seq<Action>)
    requires Exec(acts).Some? && Exec(acts).value.lock.Registering? && !Exec(acts).value.lock.checked
    ensures var s := Exec(acts).value;
            && Exec(acts + [CheckHooks]).Some?
            && (s.cancelled ==> Exec(acts + [CheckHooks]) == Some(s.(lock := Free)))
            && (!s.cancelled ==>
                  && Exec(acts + [CheckHooks] + [AppendHook]).Some?
                  && Registered(acts + [CheckHooks] + [AppendHook]) == Registered(acts) + [Calling(acts)]
                  && Exec(acts + [CheckHooks] + [AppendHook]).value.lock.Free?)
  {
    var s := Exec(acts).value;
    HistoriesAreSchedule(acts);
    ExecSnoc(acts, CheckHooks);
    if !s.cancelled {
      var checked := acts + [CheckHooks];
      ExecSnoc(checked, AppendHook);
      HistoriesAreSchedule(checked + [AppendHook]);
      assert Init(checked) == acts && Init(checked + [AppendHook]) == checked;
    }
  }

  /** So OnShutdown can be called whenever the lock is free, and registers its hook after all others exactly
      when the context lives. */
  lemma {:induction false} OnShutdownRegisters(acts: seq<Action>, h: int)
    requires Exec(acts).Some? && Exec(acts).value.lock.Free?
    ensures var called := acts + [LockHooks(h)] + [CheckHooks];
            && Exec(called).Some?
            && (Exec(acts).value.cancelled ==> Exec(called) == Exec(acts) && Registered(called) == Registered(acts))
            && (!Exec(acts).value.cancelled ==>
                  Exec(called + [AppendHook]).Some? && Registered(called + [AppendHook]) == Registered(acts) + [h])
  {
    var locked := acts + [LockHooks(h)];
    ExecSnoc(acts, LockHooks(h));
    AcceptedIff(locked);
    assert Init(locked) == acts && Init(locked + [CheckHooks]) == locked;
  }

  /** A Go call that looks at a live context starts its goroutine; after the cancellation it does not. */
  lemma {:induction false} StartedIff(acts: seq<Action>, g: int)
    requires Exec(acts).Some? && g !in Exec(acts).value.gos && g !in Exec(acts).value.checkedGos
    ensures var s := Exec(acts).value;
            && Exec(acts + [GoCheck(g)]).Some?
            && (s.cancelled ==> Exec(acts + [GoCheck(g)]) == Some(s) && !Enabled(s, GoAdd(g)))
            && (!s.cancelled ==>
                  && Exec(acts + [GoCheck(g)] + [GoAdd(g)]).Some?
                  && g in Exec(acts + [GoCheck(g)] + [GoAdd(g)]).value.gos
                  && Exec(acts + [GoCheck(g)] + [GoAdd(g)]).value.gos[g].Running?)
  {
    ExecSnoc(acts, GoCheck(g));
    if !Exec(acts).value.cancelled {
      ExecSnoc(acts + [GoCheck(g)], GoAdd(g));
    }
  }

  /** A running goroutine can fail at any time: its error is collected after all earlier ones, the app is
      cancelled, and it exits. */
  lemma {:induction false} FailureIsCollected(acts: seq<Action>, g: int)
    requires Exec(acts).Some? && g in Exec(acts).value.gos && Exec(acts).value.gos[g].Running?
    ensures var ended := acts + [GoFail(g)] + [GoCancel(g)] + [GoDone(g)];
            && Exec(ended).Some? && FailedGoroutines(ended) == FailedGoroutines(acts) + [g]
            && Exec(ended).value.cancelled && g in Exec(ended).value.gos && Exec(ended).value.gos[g] == Exited(true)
  {
    var failed := acts + [GoFail(g)];
    var cancelled := failed + [GoCancel(g)];
    ExecSnoc(acts, GoFail(g));
    ExecSnoc(failed, GoCancel(g));
    ExecSnoc(cancelled, GoDone(g));
    assert Init(failed) == acts && Init(cancelled) == failed && Init(cancelled + [GoDone(g)]) == cancelled;
    assert FailedGoroutines(cancelled) == FailedGoroutines(failed);
  }

  // ---- What Shutdown does ----

  /** Hooks start in reverse order of the accepted OnShutdown calls, each at most once, and only after
      Wait has returned with every goroutine added by then gone. */
  lemma {:induction false} HooksStartInReverse(acts: seq<Action>)
    requires Exec(acts).Some?
    ensures var s := Exec(acts).value;
            && s.started <= Reversed(Registered(acts))
            && (s.started != [] ==> AfterSnapshot(s) && forall g | g in s.waitedFor :: g in s.gos && s.gos[g].Exited?)
  {
    RunKeepsInv(acts);
    HistoriesAreSchedule(acts);
    ReversedAt(Exec(acts).value.hooks);
  }

  /** r lists the errors of the given goroutines, and after them those of the given hooks. */
  ghost predicate Lists(r: seq<AppError>, gs: seq<int>, hs: seq<int>) {
    && |r| == |gs| + |hs|
    && (forall i | 0 <= i < |gs| :: r[i] == GoroutineError(gs[i]))
    && (forall i | 0 <= i < |hs| :: r[|gs| + i] == HookError(hs[i]))
  }

  /** When the teardown is over, exactly the accepted hooks have run, and every Shutdown call
      returns the same errors: those of the goroutines waited for, in completion order, those of
      goroutines added too late for the wait that happened to fail by then, and those of the
      hooks that failed, in run order. */
  lemma {:induction false} ShutdownResult(acts: seq<Action>)
    requires Exec(acts).Some? && Exec(acts).value.teardown.Done?
    ensures var s := Exec(acts).value;
            && s.started == Reversed(Registered(acts)) && |HookOutcomes(acts)| == |s.started|
            && (forall r | r in s.results ::
                  Lists(r, FailedAtJoin(acts), FailedHooks(Reversed(Registered(acts)), HookOutcomes(acts))))
            && s.joinedErrs == FailedAtJoin(acts) && s.waitedErrs <= s.joinedErrs
            && (forall g :: g in s.waitedErrs <==> g in s.waitedFor && g in s.gos && s.gos[g].HasFailed())
            && (forall i | |s.waitedErrs| <= i < |s.joinedErrs| :: s.joinedErrs[i] !in s.waitedFor)
            && (forall i, j | 0 <= i < j < |s.joinedErrs| :: s.joinedErrs[i] != s.joinedErrs[j])
  {
    RunKeepsInv(acts);
    HistoriesAreSchedule(acts);
    var s := Exec(acts).value;
    AllHooksRan(s);
    forall i | |s.waitedErrs| <= i < |s.joinedErrs| ensures s.joinedErrs[i] !in s.waitedFor {
      assert s.joinedErrs[i] == s.goErr[i];
    }
  }

  lemma AllHooksRan(s: State)
    requires Ordered(s) && Collected(s) && s.teardown.Done?
    ensures s.started == Reversed(s.hooks) && |s.outcomes| == |s.started|
    ensures Lists(s.shutdownErr, s.joinedErrs, FailedHooks(Reversed(s.hooks), s.outcomes))
  {
    ReversedAt(s.hooks);
    assert s.started == Reversed(s.hooks);
  }

  /** A hook that OnShutdown accepted is never missed: once the hooks are snapshotted no more are
      accepted, so the snapshot has them all. */
  lemma {:induction false} NoHookIsMissed(before: seq<Action>, acts: seq<Action>)
    requires before <= acts && Exec(before).Some? && Exec(acts).Some? && AfterSnapshot(Exec(before).value)
    ensures AfterSnapshot(Exec(acts).value) && Exec(acts).value.hooks == Exec(before).value.hooks
    ensures Exec(acts).value.teardown.Hooks? ==> Exec(acts).value.teardown.snapshot == Exec(before).value.hooks
    decreases |acts|
  {
    RunKeepsInv(acts);
    if acts == before {
    } else {
      assert before <= Init(acts) && Exec(Init(acts)).Some?;
      NoHookIsMissed(before, Init(acts));
      RunKeepsInv(Init(acts));
      SnapshotIsFinal(Exec(Init(acts)).value, Last(acts));
    }
  }

  lemma SnapshotIsFinal(s: State, a: Action)
    requires Ordered(s) && AfterSnapshot(s) && Enabled(s, a)
    ensures AfterSnapshot(Fire(s, a)) && Fire(s, a).hooks == s.hooks
  {}

  /** A failing goroutine takes the whole app down. */
  lemma {:induction false} FailureCancels(acts: seq<Action>, g: int)
    requires Exec(acts).Some?
    requires var s := Exec(acts).value; g in s.goErr && g in s.gos && !s.gos[g].Recorded?
    ensures Exec(acts).value.cancelled
  {
    RunKeepsInv(acts);
  }

  // ---- Which goroutines the wait covers ----

  /** A Go call has added g at the end of this run, and the wait is not over yet. */
  ghost predicate AddedInTime(acts: seq<Action>, g: int) {
    Exec(acts).Some? && !AfterWait(Exec(acts).value) && g in Exec(acts).value.gos
  }

  lemma WaitStep(s: State, a: Action)
    requires Enabled(s, a)
    ensures s.gos.Keys <= Fire(s, a).gos.Keys
    ensures AfterWait(s) ==> AfterWait(Fire(s, a)) && Fire(s, a).waitedFor == s.waitedFor
    ensures !AfterWait(s) && AfterWait(Fire(s, a)) ==> Fire(s, a).waitedFor == s.gos.Keys
  {}

  lemma {:induction false} AddedIsCovered(before: seq<Action>, acts: seq<Action>, g: int)
    requires before <= acts && Exec(acts).Some? && AddedInTime(before, g)
    ensures g in Exec(acts).value.gos
    ensures AfterWait(Exec(acts).value) ==> g in Exec(acts).value.waitedFor
    decreases |acts|
  {
    if acts == before {
    } else {
      assert before <= Init(acts);
      AddedIsCovered(before, Init(acts), g);
      WaitStep(Exec(Init(acts)).value, Last(acts));
    }
  }

  /** What is waited for is gone before a hook starts and when a Shutdown call returns. */
  lemma {:induction false} WaitedGoroutineIsGone(acts: seq<Action>, g: int)
    requires Exec(acts).Some? && (Exec(acts).value.started != [] || Exec(acts).value.results != [])
    ensures AfterWait(Exec(acts).value)
    ensures g in Exec(acts).value.waitedFor ==> g in Exec(acts).value.gos && Exec(acts).value.gos[g].Exited?
  {
    RunKeepsInv(acts);
    var s := Exec(acts).value;
    if s.results != [] {
      assert s.results[0] in s.results;
    }
  }

  /** A goroutine that some Go call added at any moment before the wait was over is waited for: it
      is gone before any hook starts and when a Shutdown call returns, and ever after. */
  lemma {:induction false} AddedInTimeIsGone(before: seq<Action>, acts: seq<Action>, g: int)
    requires before <= acts && Exec(acts).Some? && AddedInTime(before, g)
    requires Exec(acts).value.started != [] || Exec(acts).value.results != []
    ensures g in Exec(acts).value.waitedFor && g in Exec(acts).value.gos && Exec(acts).value.gos[g].Exited?
  {
    WaitedGoroutineIsGone(acts, g);
    AddedIsCovered(before, acts, g);
  }

  /** One that no Go call has added when the wait is over is never waited for. */
  lemma {:induction false} AddedTooLateIsMissed(before: seq<Action>, acts: seq<Action>, g: int)
    requires before <= acts && Exec(before).Some? && Exec(acts).Some?
    requires AfterWait(Exec(before).value) && g !in Exec(before).value.gos
    ensures AfterWait(Exec(acts).value) && g !in Exec(acts).value.waitedFor
    decreases |acts|
  {
    RunKeepsInv(before);
    if acts == before {
    } else {
      assert before <= Init(acts) && Exec(Init(acts)).Some?;
      AddedTooLateIsMissed(before, Init(acts), g);
      WaitStep(Exec(Init(acts)).value, Last(acts));
    }
  }

  /** The goroutines that are waited for are exactly those added in time. */
  lemma {:induction false} WaitedForIff(acts: seq<Action>, g: int)
    requires Exec(acts).Some? && AfterWait(Exec(acts).value)
    ensures g in Exec(acts).value.waitedFor <==> exists n: nat :: n <= |acts| && AddedInTime(acts[..n], g)
    decreases |acts|
  {
    if n: nat :| n <= |acts| && AddedInTime(acts[..n], g) {
      AddedIsCovered(acts[..n], acts, g);
    }
    if acts == [] || g !in Exec(acts).value.waitedFor {
    } else {
      WaitStep(Exec(Init(acts)).value, Last(acts));
      if AfterWait(Exec(Init(acts)).value) {
        WaitedForIff(Init(acts), g);
        var n: nat :| n <= |Init(acts)| && AddedInTime(Init(acts)[..n], g);
        assert Init(acts)[..n] == acts[..n];
      } else {
        assert AddedInTime(acts[..|acts| - 1], g);
      }
    }
  }

  /** The wait does not cover every goroutine: Go looks at the context before it adds to the
      WaitGroup, so a Go caught between the two starts its goroutine after the wait is over, and
      that goroutine can still be running when Shutdown has returned. */
  lemma {:induction false} LateGoroutineOutlivesShutdown()
    ensures exists acts ::
      Exec(acts).Some? && Exec(acts).value.results == [[]] && 1 in Exec(acts).value.gos && Exec(acts).value.gos[1].Running?
  {
    GoCaughtBetweenCheckAndAdd();
    var joined := LateRun() + [Snapshot] + [Join];
    NoHooksToRun(LateRun());
    ReturnsErrors(joined);
    assert Exec(joined + [Finish] + [Return]).Some?;
  }

  ghost function LateRun(): seq<Action> {
    [GoCheck(1)] + [Begin] + [CancelContext] + [Wait] + [GoAdd(1)]
  }

  lemma {:induction false} GoCaughtBetweenCheckAndAdd()
    ensures Exec(LateRun()).Some?
    ensures var s := Exec(LateRun()).value;
            && s.teardown.Waited? && s.lock.Free? && s.hooks == [] && s.gos == map[1 := Running]
            && s.goErr == [] && s.hookErrs == [] && s.results == []
  {
    var a0 := [GoCheck(1)];
    assert [] + a0 == a0;
    ExecSnoc([], GoCheck(1));
    ExecSnoc(a0, Begin);
    ExecSnoc(a0 + [Begin], CancelContext);
    ExecSnoc(a0 + [Begin] + [CancelContext], Wait);
    ExecSnoc(a0 + [Begin] + [CancelContext] + [Wait], GoAdd(1));
  }

  /** From the end of the wait to the join, when no hook is registered and nothing has failed. */
  lemma {:induction false} NoHooksToRun(acts: seq<Action>)
    requires Exec(acts).Some?
    requires var s := Exec(acts).value;
             && s.teardown.Waited? && s.lock.Free? && s.hooks == [] && s.goErr == [] && s.hookErrs == []
    ensures Exec(acts + [Snapshot] + [Join]) ==
            Some(Exec(acts).value.(teardown := Joined, shutdownErr := [], joinedErrs := []))
  {
    ExecSnoc(acts, Snapshot);
    ExecSnoc(acts + [Snapshot], Join);
    assert Errors([], []) == [];
  }

  lemma {:induction false} ReturnsErrors(acts: seq<Action>)
    requires Exec(acts).Some? && Exec(acts).value.teardown.Joined?
    ensures Exec(acts + [Finish] + [Return]) ==
            Some(Exec(acts).value.(teardown := Done, results := Exec(acts).value.results + [Exec(acts).value.shutdownErr]))
  {
    ExecSnoc(acts, Finish);
    ExecSnoc(acts + [Finish], Return);
  }

  // ---- The hook loop ----

  /** The loop of Shutdown over the snapshot: last registered, first run; a failing hook does not
      stop the others. succeeds(i) tells whether the hook registered i-th ends without an error
      before its deadline. */
  method RunHooks(hooks: seq<int>, succeeds: int -> bool)
    returns (started: seq<int>, outcomes: seq<bool>, hookErrs: seq<int>)
    ensures started == Reversed(hooks) && |outcomes| == |hooks|
    ensures forall i | 0 <= i < |hooks| :: outcomes[i] == succeeds(|hooks| - 1 - i)
    ensures hookErrs == FailedHooks(Reversed(hooks), outcomes)
  {
    started, outcomes, hookErrs := [], [], [];
    var i := |hooks| - 1;
    while i >= 0
      invariant -1 <= i < |hooks|
      invariant |started| == |outcomes| == |hooks| - 1 - i
      invariant forall j | 0 <= j < |started| ::
                  started[j] == hooks[|hooks| - 1 - j] && outcomes[j] == succeeds(|hooks| - 1 - j)
      invariant hookErrs == FailedHooks(started, outcomes)
    {
      var h := hooks[i];
      var ok := succeeds(i);
      FailedHooksSnoc(started, outcomes, h, ok);
      FailedHooksSnoc(started + [h], outcomes, h, ok);
      started := started + [h];
      outcomes := outcomes + [ok];
      if !ok {
        hookErrs := hookErrs + [h];
      }
      i := i - 1;
    }
    ReversedAt(hooks);
  }
}
