/** What a returned Close promises, and when a blocked Push can still move. */
module SinkClosing {
  import opened Logs
  import opened SinkPush
  import opened Wire

  lemma {:induction false} ExecSnoc(c: Config, acts: seq<Action>, a: Action)
    requires Exec(c, acts).Some? && Enabled(c, Exec(c, acts).value, a)
    ensures Exec(c, acts + [a]) == Some(Fire(c, Exec(c, acts).value, a))
  {
    assert Init(acts + [a]) == acts;
  }

  // ---- Close ----

  /** Every sink has consumed exactly the accepted pushes. */
  ghost predicate Delivered(s: State) {
    forall k | IsSink(s, k) :: s.sinks[k].consumed == s.accepted
  }

  /** Some Close call returned that had found this mode, with the drain finished or not by then. */
  ghost predicate Returned(s: State, found: Mode, drained: bool) {
    exists r :: r in s.closes && r.found == found && r.drained == drained
  }

  ghost predicate ClosesOk(s: State) {
    forall r :: r in s.closes ==> (r.drained ==> s.drain.Finished?) && (r.found == PushFed ==> r.drained)
  }

  lemma ClosesKept(c: Config, s: State, a: Action)
    requires ClosesOk(s) && Enabled(c, s, a)
    ensures ClosesOk(Fire(c, s, a))
  {
    var t := Fire(c, s, a);
    if s.drain.Finished? { FinishedStays(c, s, a); }
    forall r | r in t.closes ensures (r.drained ==> t.drain.Finished?) && (r.found == PushFed ==> r.drained) {
      if r !in s.closes { ReturnRecorded(c, s, a, r); }
    }
  }

  lemma FinishedStays(c: Config, s: State, a: Action)
    requires Enabled(c, s, a) && s.drain.Finished?
    ensures Fire(c, s, a).drain.Finished?
  {
    if CallerStep(a) { CallersLeaveDrain(c, s, a); }
    else if EndingStep(a) { EndingLeavesCloses(c, s, a); }
    else if RelayStep(a) { RelayLeavesCloses(c, s, a); }
    else { SendsLeaveCloses(c, s, a); }
  }

  lemma CallersLeaveDrain(c: Config, s: State, a: Action)
    requires Enabled(c, s, a) && CallerStep(a)
    ensures Fire(c, s, a).drain == s.drain
  {
    match a
    case Start =>
    case Enter(_, _) =>
    case Check(_) =>
    case Offer(_) =>
    case GiveUp(_) =>
    case CloseMark(_) =>
    case CloseChannel =>
    case CloseReturn(_) =>
    case _ =>
  }

  lemma EndingLeavesCloses(c: Config, s: State, a: Action)
    requires Enabled(c, s, a) && EndingStep(a)
    ensures Fire(c, s, a).closes == s.closes && (s.drain.Finished? ==> Fire(c, s, a).drain.Finished?)
  {
    if a.CloseSink? { ClosingSinkLeavesCloses(c, s, a); }
    else if a.SeeValuesEnd? || a.SeeErrorsEnd? || a.DrainExit? { LeavingLoopLeavesCloses(c, s, a); }
    else { AdaptersLeaveCloses(c, s, a); }
  }

  lemma ClosingSinkLeavesCloses(c: Config, s: State, a: Action)
    requires Enabled(c, s, a) && a.CloseSink?
    ensures Fire(c, s, a).closes == s.closes && (s.drain.Finished? ==> Fire(c, s, a).drain.Finished?)
  {
  }

  lemma LeavingLoopLeavesCloses(c: Config, s: State, a: Action)
    requires Enabled(c, s, a) && (a.SeeValuesEnd? || a.SeeErrorsEnd? || a.DrainExit?)
    ensures Fire(c, s, a).closes == s.closes && (s.drain.Finished? ==> Fire(c, s, a).drain.Finished?)
  {
  }

  lemma AdaptersLeaveCloses(c: Config, s: State, a: Action)
    requires Enabled(c, s, a) && (a.AdaptersDone? || a.AdapterExit?)
    ensures Fire(c, s, a).closes == s.closes && (s.drain.Finished? ==> Fire(c, s, a).drain.Finished?)
  {
  }

  lemma RelayLeavesCloses(c: Config, s: State, a: Action)
    requires Enabled(c, s, a) && RelayStep(a)
    ensures Fire(c, s, a).closes == s.closes && (s.drain.Finished? ==> Fire(c, s, a).drain.Finished?)
  {
    match a
    case RelayTake =>
    case RelayEnd =>
    case HandOver =>
    case HandPush(_) =>
    case _ =>
  }

  lemma SendsLeaveCloses(c: Config, s: State, a: Action)
    requires Enabled(c, s, a) && !CallerStep(a) && !EndingStep(a) && !RelayStep(a)
    ensures Fire(c, s, a).closes == s.closes && (s.drain.Finished? ==> Fire(c, s, a).drain.Finished?)
  {
    match a
    case SinkSend =>
    case SinkHand =>
    case SendEnd =>
    case SendAbort =>
    case Consume(_) =>
    case _ =>
  }

  lemma ReturnRecorded(c: Config, s: State, a: Action, r: CloseRecord)
    requires Enabled(c, s, a) && r in Fire(c, s, a).closes && r !in s.closes
    ensures r.drained == s.drain.Finished? && (r.found == PushFed ==> r.drained)
  {
    if CallerStep(a) { CloseRecorded(c, s, a, r); }
    else if EndingStep(a) { EndingLeavesCloses(c, s, a); }
    else if RelayStep(a) { RelayLeavesCloses(c, s, a); }
    else { SendsLeaveCloses(c, s, a); }
  }

  lemma CloseRecorded(c: Config, s: State, a: Action, r: CloseRecord)
    requires Enabled(c, s, a) && CallerStep(a) && r in Fire(c, s, a).closes && r !in s.closes
    ensures r.drained == s.drain.Finished? && (r.found == PushFed ==> r.drained)
  {
    match a
    case CloseMark(_) => assert r == Fire(c, s, a).closes[|s.closes|];
    case CloseReturn(_) => assert r == Fire(c, s, a).closes[|s.closes|];
    case CloseChannel =>
    case Start =>
    case Enter(_, _) =>
    case Check(_) =>
    case Offer(_) =>
    case GiveUp(_) =>
    case _ =>
  }

  lemma {:induction false} RunKeepsCloses(c: Config, acts: seq<Action>)
    requires Exec(c, acts).Some?
    ensures ClosesOk(Exec(c, acts).value)
    decreases |acts|
  {
    if acts == [] {
    } else {
      RunKeepsCloses(c, Init(acts));
      ClosesKept(c, Exec(c, Init(acts)).value, Last(acts));
    }
  }

  /** A drain that has finished in an uncancelled run has delivered everything. */
  lemma {:induction false} FinishedDelivers(c: Config, acts: seq<Action>)
    requires Exec(c, acts).Some? && !Exec(c, acts).value.cancelled && Exec(c, acts).value.drain.Finished?
    ensures Delivered(Exec(c, acts).value)
  {
    RunKeepsInv(c, acts);
    var s := Exec(c, acts).value;
    forall k | IsSink(s, k) ensures s.sinks[k].consumed == s.accepted {
      assert FlowAt(s, k) && s.sinks[k].gone;
    }
  }

  /** While the first Close waits, an item has been accepted and is still on its way; a second Close
      returns. */
  lemma {:induction false} SecondCloseReturnsEarly(c: Config, v: Item) returns (acts: seq<Action>)
    requires c.sinks > 0
    ensures Exec(c, acts).Some? && !Exec(c, acts).value.cancelled && Returned(Exec(c, acts).value, Closed, false)
    ensures var s := Exec(c, acts).value; IsSink(s, 0) && s.accepted == [v] && s.sinks[0].consumed == []
  {
    acts := OnePush(c, [], v);
    ExecSnoc(c, acts, CloseMark(2));
    acts := acts + [CloseMark(2)];
    ExecSnoc(c, acts, CloseChannel);
    acts := acts + [CloseChannel];
    ExecSnoc(c, acts, CloseMark(3));
    acts := acts + [CloseMark(3)];
    assert CloseRecord(3, Closed, false) in Exec(c, acts).value.closes;
  }

  /** A Close before Start returns and stops nothing. */
  lemma {:induction false} EarlyCloseStopsNothing(c: Config, v: Item) returns (acts: seq<Action>)
    requires c.sinks > 0
    ensures Exec(c, acts).Some? && !Exec(c, acts).value.cancelled && Returned(Exec(c, acts).value, Unfed, false)
    ensures var s := Exec(c, acts).value; IsSink(s, 0) && s.accepted == [v] && s.sinks[0].consumed == []
  {
    ExecSnoc(c, [], CloseMark(2));
    assert [] + [CloseMark(2)] == [CloseMark(2)];
    acts := OnePush(c, [CloseMark(2)], v);
    assert CloseRecord(2, Unfed, false) in Exec(c, acts).value.closes;
  }

  /** Start, and a push handed to the relay. */
  lemma {:induction false} OnePush(c: Config, before: seq<Action>, v: Item) returns (acts: seq<Action>)
    requires Exec(c, before).Some?
    requires var s := Exec(c, before).value; s == Initial(c).(closes := s.closes)
    ensures Exec(c, acts).Some?
    ensures var s := Exec(c, acts).value;
            s == Initial(c).(closes := Exec(c, before).value.closes, mode := PushFed, relay := Holding(v),
                             accepted := [v], taken := [v])
  {
    ExecSnoc(c, before, Start);
    acts := before + [Start];
    ExecSnoc(c, acts, Enter(1, v));
    acts := acts + [Enter(1, v)];
    ExecSnoc(c, acts, Check(1));
    acts := acts + [Check(1)];
    ExecSnoc(c, acts, HandPush(1));
    acts := acts + [HandPush(1)];
    assert Exec(c, acts).value.pushers == map[];
  }

  /** In every uncancelled run, such a return means that everything accepted has been delivered. */
  ghost predicate AlwaysDelivers(c: Config, found: Mode, drained: bool) {
    forall acts: seq<Action> ::
      Exec(c, acts).Some? && !Exec(c, acts).value.cancelled && Returned(Exec(c, acts).value, found, drained) ==>
        Delivered(Exec(c, acts).value)
  }

  /** A returned Close guarantees delivery exactly when it found the port in push mode, or the drain had
      already finished (or there is no sink to deliver to). */
  lemma CloseGuaranteesIff(c: Config, found: Mode, drained: bool, v: Item)
    ensures AlwaysDelivers(c, found, drained) <==> found == PushFed || drained || c.sinks == 0
  {
    if found == PushFed || drained || c.sinks == 0 {
      forall acts: seq<Action>
        | Exec(c, acts).Some? && !Exec(c, acts).value.cancelled && Returned(Exec(c, acts).value, found, drained)
        ensures Delivered(Exec(c, acts).value)
      {
        RunKeepsCloses(c, acts);
        RunKeepsInv(c, acts);
        if c.sinks > 0 {
          FinishedDelivers(c, acts);
        }
      }
    } else {
      var acts;
      if found == Closed { acts := SecondCloseReturnsEarly(c, v); } else { acts := EarlyCloseStopsNothing(c, v); }
      assert !Delivered(Exec(c, acts).value);
    }
  }

  // ---- Progress ----

  /** A step one of the port's own goroutines or adapters can take by itself. */
  ghost predicate Internal(a: Action) {
    || a.RelayTake? || a.RelayEnd? || a.HandOver? || a.SinkSend? || a.SinkHand? || a.SendEnd? || a.SendAbort?
    || a.SeeValuesEnd? || a.SeeErrorsEnd? || a.DrainExit? || a.CloseSink? || a.AdaptersDone?
    || a.Consume? || a.AdapterExit? || a.HandPush? || a.Offer? || a.CloseReturn?
  }

  /** A push that waits for room, or a Close that waits for the drain. */
  ghost predicate SomeoneWaits(s: State) {
    (exists t :: t in s.pushers && s.pushers[t].Offering?) || (exists t :: t in s.waiting)
  }

  /** Nobody will ever take from the open, full push channel again. */
  ghost predicate Abandoned(c: Config, s: State) {
    s.relay.Gone? && |s.pushQueue| >= c.buffer && !s.pushClosed && s.drain.Finished?
  }

  ghost predicate NothingMoves(c: Config, s: State) {
    forall a :: Internal(a) ==> !Enabled(c, s, a)
  }

  /** While someone waits, some goroutine of the port can move, except when the port's own context has
      ended the relay and the drain under a full push channel: then, and only then, nothing can. */
  lemma {:induction false} StuckIff(c: Config, acts: seq<Action>)
    requires Exec(c, acts).Some? && SomeoneWaits(Exec(c, acts).value)
    ensures NothingMoves(c, Exec(c, acts).value) <==> Abandoned(c, Exec(c, acts).value)
  {
    RunKeepsInv(c, acts);
    var s := Exec(c, acts).value;
    if Abandoned(c, s) {
      AbandonedIsStuck(c, s);
    } else {
      var a := NextMove(c, s);
      assert Internal(a) && Enabled(c, s, a);
    }
  }

  /** Only cancellation leads there. */
  lemma {:induction false} NeverStuck(c: Config, acts: seq<Action>)
    requires Exec(c, acts).Some? && !Exec(c, acts).value.cancelled && SomeoneWaits(Exec(c, acts).value)
    ensures !NothingMoves(c, Exec(c, acts).value)
  {
    RunKeepsInv(c, acts);
    StuckIff(c, acts);
  }

  lemma AbandonedIsStuck(c: Config, s: State)
    requires Shape(c, s) && EndsInOrder(s) && Abandoned(c, s)
    ensures NothingMoves(c, s)
  {
    forall a | Internal(a) ensures !Enabled(c, s, a) {
      if a.CloseReturn? { assert a.t !in s.waiting + s.returned; }
    }
  }

  lemma NextMove(c: Config, s: State) returns (a: Action)
    requires Shape(c, s) && EndsInOrder(s) && SomeoneWaits(s) && !Abandoned(c, s)
    ensures Internal(a) && Enabled(c, s, a)
  {
    RunsWhileWaiting(c, s);
    if s.drain.Sending? {
      a := MoveWhileSending(c, s);
    } else if s.drain.Selecting? {
      a := MoveWhileSelecting(c, s);
    } else if s.drain.ClosingSinks? {
      return CloseSink;
    } else if s.drain.WaitingAdapters? {
      a := MoveWhileWaiting(c, s);
    } else {
      a := MoveWhenFinished(c, s);
    }
  }

  lemma RunsWhileWaiting(c: Config, s: State)
    requires Shape(c, s) && SomeoneWaits(s)
    ensures Running(s)
  {
    if t :| t in s.waiting { assert t in s.waiting + s.returned; }
  }

  lemma MoveWhileSending(c: Config, s: State) returns (a: Action)
    requires Shape(c, s) && EndsInOrder(s) && s.drain.Sending?
    ensures Internal(a) && Enabled(c, s, a)
  {
    if s.cancelled { return SendAbort; }
    var k := s.drain.next;
    if k == |s.sinks| { return SendEnd; }
    assert !s.sinks[k].closed && !s.sinks[k].gone;
    return if s.sinks[k].queue != [] then Consume(k) else SinkHand;
  }

  lemma MoveWhileSelecting(c: Config, s: State) returns (a: Action)
    requires Shape(c, s) && EndsInOrder(s) && s.drain.Selecting? && Running(s) && SomeoneWaits(s)
    ensures Internal(a) && Enabled(c, s, a)
  {
    if s.cancelled { return DrainExit; }
    if s.relay.Holding? { return HandOver; }
    if s.relay.Gone? { return if s.valOpen then SeeValuesEnd else if s.errOpen then SeeErrorsEnd else DrainExit; }
    if s.pushQueue != [] { return RelayTake; }
    if s.pushClosed { return RelayEnd; }
    var t :| t in s.pushers && s.pushers[t].Offering?;
    return HandPush(t);
  }

  lemma MoveWhileWaiting(c: Config, s: State) returns (a: Action)
    requires Shape(c, s) && EndsInOrder(s) && s.drain.WaitingAdapters?
    ensures Internal(a) && Enabled(c, s, a)
  {
    if k :| IsSink(s, k) && !s.sinks[k].gone {
      assert s.sinks[k].closed <==> SinkClosedBy(s, k);
      return if s.sinks[k].queue != [] then Consume(k) else AdapterExit(k);
    }
    return AdaptersDone;
  }

  lemma MoveWhenFinished(c: Config, s: State) returns (a: Action)
    requires Shape(c, s) && EndsInOrder(s) && s.drain.Finished? && Running(s) && SomeoneWaits(s) && !Abandoned(c, s)
    ensures Internal(a) && Enabled(c, s, a)
  {
    if t :| t in s.waiting { return CloseReturn(t); }
    var t :| t in s.pushers && s.pushers[t].Offering?;
    if |s.pushQueue| < c.buffer { return Offer(t); }
    return RelayEnd;
  }

  /** The state of a port with one sink, without its histories. */
  ghost predicate Port(s: State, cancelled: bool, relay: Relay, drain: Drain, sink: Sink) {
    && s.mode == PushFed && s.pushers == map[] && s.closer == None && s.pushQueue == [] && !s.pushClosed
    && s.cancelled == cancelled && s.relay == relay && s.drain == drain && s.sinks == [sink] && s.valOpen
  }

  /** One sink and a buffer of one: the port's context ends before any push. */
  function ContextEnds(): seq<Action> {
    [Start] + [Cancel] + [RelayEnd] + [DrainExit]
  }

  function DrainEnds(): seq<Action> {
    ContextEnds() + [CloseSink] + [CloseSink] + [AdapterExit(0)] + [AdaptersDone]
  }

  lemma OneSinkStarts(c: Config, s: State)
    requires c == Config(1, 1) && s == Initial(c)
    ensures Enabled(c, s, Start)
    ensures Port(Fire(c, s, Start), false, Idle, Selecting, Sink([], false, [], false))
  {}

  lemma ContextCancelled(c: Config, s: State, k: Sink)
    requires Port(s, false, Idle, Selecting, k)
    ensures Enabled(c, s, Cancel) && Port(Fire(c, s, Cancel), true, Idle, Selecting, k)
  {}

  lemma RelayLeaves(c: Config, s: State, k: Sink)
    requires Port(s, true, Idle, Selecting, k)
    ensures Enabled(c, s, RelayEnd) && Port(Fire(c, s, RelayEnd), true, Gone, Selecting, k)
  {}

  lemma DrainLeaves(c: Config, s: State, k: Sink)
    requires Port(s, true, Gone, Selecting, k)
    ensures Enabled(c, s, DrainExit) && Port(Fire(c, s, DrainExit), true, Gone, ClosingSinks(0), k)
  {}

  lemma {:induction false} ContextEnded()
    ensures Exec(Config(1, 1), ContextEnds()).Some?
    ensures Port(Exec(Config(1, 1), ContextEnds()).value, true, Gone, ClosingSinks(0), Sink([], false, [], false))
  {
    hide Enabled, Fire, Port;
    var c, k := Config(1, 1), Sink([], false, [], false);
    OneSinkStarts(c, Exec(c, []).value);
    ExecSnoc(c, [], Start);
    assert [] + [Start] == [Start];
    ContextCancelled(c, Exec(c, [Start]).value, k);
    ExecSnoc(c, [Start], Cancel);
    RelayLeaves(c, Exec(c, [Start] + [Cancel]).value, k);
    ExecSnoc(c, [Start] + [Cancel], RelayEnd);
    DrainLeaves(c, Exec(c, [Start] + [Cancel] + [RelayEnd]).value, k);
    ExecSnoc(c, [Start] + [Cancel] + [RelayEnd], DrainExit);
  }

  lemma SinkCloses(c: Config, s: State)
    requires Port(s, true, Gone, ClosingSinks(0), Sink([], false, [], false))
    ensures Enabled(c, s, CloseSink)
    ensures Port(Fire(c, s, CloseSink), true, Gone, ClosingSinks(1), Sink([], true, [], false))
  {}

  lemma SinksAreClosed(c: Config, s: State, k: Sink)
    requires Port(s, true, Gone, ClosingSinks(1), k)
    ensures Enabled(c, s, CloseSink) && Port(Fire(c, s, CloseSink), true, Gone, WaitingAdapters, k)
  {}

  lemma AdapterLeaves(c: Config, s: State)
    requires Port(s, true, Gone, WaitingAdapters, Sink([], true, [], false))
    ensures Enabled(c, s, AdapterExit(0))
    ensures Port(Fire(c, s, AdapterExit(0)), true, Gone, WaitingAdapters, Sink([], true, [], true))
  {}

  lemma AdaptersGone(c: Config, s: State)
    requires Port(s, true, Gone, WaitingAdapters, Sink([], true, [], true))
    ensures Enabled(c, s, AdaptersDone)
    ensures Port(Fire(c, s, AdaptersDone), true, Gone, Finished, Sink([], true, [], true))
  {}

  lemma {:induction false} DrainEnded()
    ensures Exec(Config(1, 1), DrainEnds()).Some?
    ensures Port(Exec(Config(1, 1), DrainEnds()).value, true, Gone, Finished, Sink([], true, [], true))
  {
    hide Enabled, Fire, Port;
    var c, acts := Config(1, 1), ContextEnds();
    ContextEnded();
    SinkCloses(c, Exec(c, acts).value);
    ExecSnoc(c, acts, CloseSink);
    SinksAreClosed(c, Exec(c, acts + [CloseSink]).value, Sink([], true, [], false));
    ExecSnoc(c, acts + [CloseSink], CloseSink);
    AdapterLeaves(c, Exec(c, acts + [CloseSink] + [CloseSink]).value);
    ExecSnoc(c, acts + [CloseSink] + [CloseSink], AdapterExit(0));
    AdaptersGone(c, Exec(c, acts + [CloseSink] + [CloseSink] + [AdapterExit(0)]).value);
    ExecSnoc(c, acts + [CloseSink] + [CloseSink] + [AdapterExit(0)], AdaptersDone);
  }

  /** The first push's item stays in the buffer, the second push offers. */
  function TwoPushes(v: Item, w: Item): seq<Action> {
    DrainEnds() + [Enter(1, v)] + [Check(1)] + [Offer(1)] + [Enter(2, w)] + [Check(2)]
  }

  lemma {:induction false} FirstPushed(v: Item)
    ensures var run := Exec(Config(1, 1), DrainEnds() + [Enter(1, v)] + [Check(1)] + [Offer(1)]);
            && run.Some? && run.value.mode == PushFed && run.value.pushers == map[] && run.value.closer == None
            && Abandoned(Config(1, 1), run.value)
  {
    var c, acts := Config(1, 1), DrainEnds();
    DrainEnded();
    ExecSnoc(c, acts, Enter(1, v));
    ExecSnoc(c, acts + [Enter(1, v)], Check(1));
    ExecSnoc(c, acts + [Enter(1, v)] + [Check(1)], Offer(1));
  }

  lemma {:induction false} TwoPushed(v: Item, w: Item)
    ensures Exec(Config(1, 1), TwoPushes(v, w)).Some?
    ensures var s := Exec(Config(1, 1), TwoPushes(v, w)).value;
            && s.pushers == map[2 := Offering(w)] && s.closer == None && Abandoned(Config(1, 1), s)
  {
    var c, acts := Config(1, 1), DrainEnds() + [Enter(1, v)] + [Check(1)] + [Offer(1)];
    FirstPushed(v);
    ExecSnoc(c, acts, Enter(2, w));
    ExecSnoc(c, acts + [Enter(2, w)], Check(2));
  }

  /** The second push has a context of its own. It waits for room that nobody makes, and holds the lock
      that Close needs: nothing can move until that push gives up. */
  lemma {:induction false} PushOutlivesDrain(v: Item, w: Item)
    ensures var c, acts := Config(1, 1), TwoPushes(v, w);
            && Exec(c, acts).Some? && 2 in Exec(c, acts).value.pushers && NothingMoves(c, Exec(c, acts).value)
            && (forall t :: !Enabled(c, Exec(c, acts).value, CloseMark(t))) && Enabled(c, Exec(c, acts).value, GiveUp(2))
  {
    TwoPushed(v, w);
    assert Exec(Config(1, 1), TwoPushes(v, w)).value.pushers[2].Offering?;
    StuckIff(Config(1, 1), TwoPushes(v, w));
  }
}
