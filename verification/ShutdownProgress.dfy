/** A Shutdown that has begun can always return, and what it can be waiting for until then. */
module ShutdownProgress {
  import opened Logs
  import opened AppShutdown
  import opened Wire

  // ---- What the teardown waits for ----

  ghost predicate TeardownStep(a: Action) {
    || a.CancelContext? || a.Wait? || a.Snapshot? || a.StartHook? || a.EndHook? || a.Join? || a.Finish? || a.Return?
  }

  ghost predicate Blocked(s: State) {
    forall a :: TeardownStep(a) ==> !Enabled(s, a)
  }

  /** A begun teardown has no step of its own exactly while it waits for goroutines to exit, or for an
      OnShutdown call that holds the hook lock. */
  lemma {:induction false} BlockedIff(acts: seq<Action>)
    requires Exec(acts).Some? && !Exec(acts).value.teardown.NotBegun?
    ensures var s := Exec(acts).value;
            Blocked(s) <==>
              || (s.teardown.ContextCancelled? && exists g :: g in s.gos && !s.gos[g].Exited?)
              || (s.teardown.Waited? && !s.lock.Free?)
  {
    RunKeepsInv(acts);
    var s := Exec(acts).value;
    NoneLiveIff(s);
    if !(s.teardown.ContextCancelled? && s.counter != 0) && !(s.teardown.Waited? && !s.lock.Free?) {
      var a := NextStep(s);
      assert TeardownStep(a) && Enabled(s, a);
    }
  }

  lemma NoneLiveIff(s: State)
    requires Goroutines(s)
    ensures s.counter == 0 <==> forall g :: g in s.gos ==> s.gos[g].Exited?
  {
    if s.counter == 0 {
      assert Live(s) == {};
      forall g | g in s.gos ensures s.gos[g].Exited? {
        assert g !in Live(s);
      }
    }
    if forall g :: g in s.gos ==> s.gos[g].Exited? {
      assert Live(s) == {};
    }
  }

  lemma NextStep(s: State) returns (a: Action)
    requires Ordered(s) && !s.teardown.NotBegun?
    requires !(s.teardown.ContextCancelled? && s.counter != 0) && !(s.teardown.Waited? && !s.lock.Free?)
    ensures TeardownStep(a) && Enabled(s, a)
  {
    match s.teardown
    case Begun => a := CancelContext;
    case ContextCancelled => a := Wait;
    case Waited => a := Snapshot;
    case Hooks(_, left, inHook) => a := if left == 0 then Join else if inHook then EndHook(true) else StartHook;
    case Joined => a := Finish;
    case Done => a := Return;
  }

  // ---- To the end ----

  /** Steps of the teardown, of goroutines that end, and of an OnShutdown call that has the lock. Nothing
      new is started or registered. */
  ghost predicate Ending(a: Action) {
    TeardownStep(a) || a.GoNil? || a.GoCancel? || a.GoDone? || a.CheckHooks? || a.AppendHook?
  }

  ghost predicate OnlyEnding(acts: seq<Action>, n: nat) {
    forall i | n <= i < |acts| :: Ending(acts[i])
  }

  /** One more step, if it is an ending one. */
  lemma Append(start: seq<Action>, acts: seq<Action>, a: Action) returns (longer: seq<Action>)
    requires start <= acts && OnlyEnding(acts, |start|) && Exec(acts).Some?
    requires Ending(a) && Enabled(Exec(acts).value, a)
    ensures longer == acts + [a] && start <= longer && OnlyEnding(longer, |start|)
    ensures Exec(longer) == Some(Fire(Exec(acts).value, a))
  {
    hide Ending, Enabled, Fire;
    longer := acts + [a];
    ExecSnoc(acts, a);
  }

  function StepsLeft(g: Goroutine): nat {
    match g case Running => 2 case Recorded => 2 case Finishing(_) => 1 case Exited(_) => 0
  }

  /** What a goroutine does next to end. */
  function EndStep(s: State, g: int): Action
    requires g in s.gos
  {
    if s.gos[g].Running? then GoNil(g) else if s.gos[g].Recorded? then GoCancel(g) else GoDone(g)
  }

  lemma EndStepEnds(s: State, g: int)
    requires g in s.gos && !s.gos[g].Exited?
    ensures var a := EndStep(s, g);
            && Ending(a) && Enabled(s, a)
            && g in Fire(s, a).gos && StepsLeft(Fire(s, a).gos[g]) < StepsLeft(s.gos[g])
            && Fire(s, a).teardown == s.teardown && Fire(s, a).results == s.results
            && Fire(s, a).counter == if s.gos[g].Finishing? then s.counter - 1 else s.counter
  {}

  /** One goroutine ends. */
  lemma {:induction false} ExitOne(start: seq<Action>, acts: seq<Action>, g: int) returns (acts': seq<Action>)
    requires start <= acts && OnlyEnding(acts, |start|) && Exec(acts).Some?
    requires g in Exec(acts).value.gos && !Exec(acts).value.gos[g].Exited?
    ensures start <= acts' && OnlyEnding(acts', |start|) && Exec(acts').Some?
    ensures var s, t := Exec(acts).value, Exec(acts').value;
            t.teardown == s.teardown && t.results == s.results && t.counter == s.counter - 1
    decreases StepsLeft(Exec(acts).value.gos[g])
  {
    hide Ending, Enabled, Fire, OnlyEnding;
    var s := Exec(acts).value;
    EndStepEnds(s, g);
    acts' := Append(start, acts, EndStep(s, g));
    if !s.gos[g].Finishing? {
      assert !Exec(acts').value.gos[g].Exited? by {
        StillThere(s, g);
      }
      acts' := ExitOne(start, acts', g);
    }
  }

  lemma StillThere(s: State, g: int)
    requires g in s.gos && (s.gos[g].Running? || s.gos[g].Recorded?)
    ensures Enabled(s, EndStep(s, g)) && Fire(s, EndStep(s, g)).gos[g].Finishing?
  {}

  lemma {:induction false} AllExit(start: seq<Action>, acts: seq<Action>) returns (acts': seq<Action>)
    requires start <= acts && OnlyEnding(acts, |start|) && Exec(acts).Some?
    ensures start <= acts' && OnlyEnding(acts', |start|) && Exec(acts').Some?
    ensures var s, t := Exec(acts).value, Exec(acts').value;
            t.teardown == s.teardown && t.results == s.results && t.counter == 0
    decreases Exec(acts).value.counter
  {
    hide Ending, Enabled, Fire, OnlyEnding;
    RunKeepsInv(acts);
    var s := Exec(acts).value;
    NoneLiveIff(s);
    acts' := acts;
    if s.counter != 0 {
      var g :| g in s.gos && !s.gos[g].Exited?;
      acts' := ExitOne(start, acts, g);
      acts' := AllExit(start, acts');
    }
  }

  /** An OnShutdown call under way ends. */
  lemma FreeLock(start: seq<Action>, acts: seq<Action>) returns (acts': seq<Action>)
    requires start <= acts && OnlyEnding(acts, |start|) && Exec(acts).Some? && Exec(acts).value.teardown.Waited?
    ensures start <= acts' && OnlyEnding(acts', |start|) && Exec(acts').Some?
    ensures var s, t := Exec(acts).value, Exec(acts').value;
            t.teardown == s.teardown && t.results == s.results && t.lock.Free?
  {
    hide OnlyEnding;
    RunKeepsInv(acts);
    acts' := acts;
    if !Exec(acts).value.lock.Free? {
      acts' := Append(start, acts, if Exec(acts).value.lock.checked then AppendHook else CheckHooks);
    }
  }

  lemma {:induction false} FinishHooks(start: seq<Action>, acts: seq<Action>) returns (acts': seq<Action>)
    requires start <= acts && OnlyEnding(acts, |start|) && Exec(acts).Some? && Exec(acts).value.teardown.Hooks?
    ensures start <= acts' && OnlyEnding(acts', |start|) && Exec(acts').Some?
    ensures Exec(acts').value.teardown.Joined? && Exec(acts').value.results == Exec(acts).value.results
    decreases Exec(acts).value.teardown.left, !Exec(acts).value.teardown.inHook
  {
    hide OnlyEnding;
    RunKeepsInv(acts);
    var s := Exec(acts).value;
    if s.teardown.left == 0 {
      acts' := Append(start, acts, Join);
    } else {
      acts' := Append(start, acts, if s.teardown.inHook then EndHook(true) else StartHook);
      acts' := FinishHooks(start, acts');
    }
  }

  /** From the beginning to the hooks. */
  lemma ToHooks(start: seq<Action>, acts: seq<Action>) returns (acts': seq<Action>)
    requires start <= acts && OnlyEnding(acts, |start|) && Exec(acts).Some?
    requires !Exec(acts).value.teardown.NotBegun?
    ensures start <= acts' && OnlyEnding(acts', |start|) && Exec(acts').Some?
    ensures AfterSnapshot(Exec(acts').value) && Exec(acts').value.results == Exec(acts).value.results
  {
    hide OnlyEnding;
    acts' := acts;
    if Exec(acts').value.teardown.Begun? {
      acts' := Append(start, acts', CancelContext);
    }
    if Exec(acts').value.teardown.ContextCancelled? {
      acts' := AllExit(start, acts');
      acts' := Append(start, acts', Wait);
    }
    if Exec(acts').value.teardown.Waited? {
      acts' := FreeLock(start, acts');
      acts' := Append(start, acts', Snapshot);
    }
  }

  /** From the hooks to a Shutdown call's return. */
  lemma FromHooks(start: seq<Action>, acts: seq<Action>) returns (acts': seq<Action>)
    requires start <= acts && OnlyEnding(acts, |start|) && Exec(acts).Some? && AfterSnapshot(Exec(acts).value)
    ensures start <= acts' && OnlyEnding(acts', |start|) && Exec(acts').Some?
    ensures var t := Exec(acts').value;
            t.teardown.Done? && t.results == Exec(acts).value.results + [t.shutdownErr]
  {
    hide OnlyEnding;
    acts' := acts;
    if Exec(acts').value.teardown.Hooks? {
      acts' := FinishHooks(start, acts');
    }
    if Exec(acts').value.teardown.Joined? {
      acts' := Append(start, acts', Finish);
    }
    acts' := Append(start, acts', Return);
  }

  lemma NoStepsYet(acts: seq<Action>)
    ensures OnlyEnding(acts, |acts|)
  {}

  /** From every state in which a Shutdown has begun the call can return: once the goroutines that are
      there end, and an OnShutdown call under way, the teardown goes on by itself. */
  lemma {:induction false} ShutdownCanReturn(acts: seq<Action>) returns (acts': seq<Action>)
    requires Exec(acts).Some? && !Exec(acts).value.teardown.NotBegun?
    ensures acts <= acts' && OnlyEnding(acts', |acts|) && Exec(acts').Some?
    ensures var s, t := Exec(acts).value, Exec(acts').value;
            t.teardown.Done? && t.results == s.results + [t.shutdownErr]
  {
    hide Enabled, Fire, OnlyEnding, AfterSnapshot;
    NoStepsYet(acts);
    acts' := ToHooks(acts, acts);
    acts' := FromHooks(acts, acts');
  }

  /** So Shutdown can be called at any time, whatever has happened, and return. */
  lemma {:induction false} ShutdownCanBeCalled(acts: seq<Action>) returns (acts': seq<Action>)
    requires Exec(acts).Some?
    ensures acts <= acts' && Exec(acts').Some?
    ensures if Exec(acts).value.teardown.NotBegun? then acts + [Begin] <= acts' && OnlyEnding(acts', |acts| + 1)
            else OnlyEnding(acts', |acts|)
    ensures var s, t := Exec(acts).value, Exec(acts').value;
            t.teardown.Done? && t.results == s.results + [t.shutdownErr]
  {
    hide OnlyEnding;
    if Exec(acts).value.teardown.NotBegun? {
      ExecSnoc(acts, Begin);
      acts' := ShutdownCanReturn(acts + [Begin]);
    } else {
      acts' := ShutdownCanReturn(acts);
    }
  }
}
