/** SinkPort's Start/Push/Close lifecycle as a protocol: pushers under the read lock, the From
    relay, the Drain loop that broadcasts to the bound sinks, and the adapters consuming them.
    A channel of capacity 0 only passes items hand to hand. Any interleaving is a run. */
module SinkPush {
  import opened Logs
  import opened Wire

  datatype Config = Config(sinks: nat, buffer: nat)

  /** feedMode; Feed's stream mode is never mixed with this lifecycle. */
  datatype Mode = Unfed | PushFed | Closed

  /** A Push call that holds the read lock: before and after it looked at the mode. */
  datatype Pusher = Entered(v: Item) | Offering(v: Item)

  datatype Relay = Idle | Holding(v: Item) | Gone

  datatype Drain = Selecting | Sending(v: Item, next: int) | ClosingSinks(next: int) | WaitingAdapters | Finished

  /** consumed is what the adapter has taken; gone means its Activate returned. */
  datatype Sink = Sink(queue: seq<Item>, closed: bool, consumed: seq<Item>, gone: bool)

  /** A Close call that returned: what mode it found, and whether the drain had finished by then. */
  datatype CloseRecord = CloseRecord(caller: int, found: Mode, drained: bool)

  /** accepted, taken and closes are histories: Pushes that returned nil, items the relay received, Close
      calls that returned. */
  datatype State = State(
    mode: Mode, pushers: map<int, Pusher>, closer: Option<int>,
    pushQueue: seq<Item>, pushClosed: bool,
    relay: Relay, drain: Drain, valOpen: bool, errOpen: bool,
    sinks: seq<Sink>,
    waiting: set<int>, returned: set<int>,
    cancelled: bool, panicked: bool,
    accepted: seq<Item>, taken: seq<Item>, closes: seq<CloseRecord>)

  datatype Action =
    | Start | Cancel
    | Enter(t: int, v: Item) | Check(t: int) | Offer(t: int) | HandPush(t: int) | GiveUp(t: int)
    | CloseMark(t: int) | CloseChannel | CloseReturn(t: int)
    | RelayTake | RelayEnd | HandOver
    | SinkSend | SinkHand | SendEnd | SendAbort | SeeValuesEnd | SeeErrorsEnd | DrainExit
    | CloseSink | AdaptersDone
    | Consume(k: int) | AdapterExit(k: int)

  ghost function Initial(c: Config): State {
    State(Unfed, map[], None, [], false, Idle, Selecting, true, true,
          seq(c.sinks, _ => Sink([], false, [], false)), {}, {}, false, false, [], [], [])
  }

  ghost predicate IsSink(s: State, k: int) { 0 <= k < |s.sinks| }

  ghost predicate Running(s: State) { s.mode != Unfed }

  ghost predicate SendingTo(s: State) { s.drain.Sending? && IsSink(s, s.drain.next) }

  /** feedMu: any number of pushers, or one writer. */
  ghost predicate Unlocked(s: State) { s.pushers == map[] && s.closer.None? }

  ghost predicate Enabled(c: Config, s: State, a: Action) {
    match a
    case Start => Unlocked(s)
    case Cancel => true
    case Enter(t, _) => t !in s.pushers && s.closer.None?
    case Check(t) => t in s.pushers && s.pushers[t].Entered?
    case Offer(t) => t in s.pushers && s.pushers[t].Offering? && (s.pushClosed || |s.pushQueue| < c.buffer)
    case HandPush(t) =>
      t in s.pushers && s.pushers[t].Offering? && !s.pushClosed && s.pushQueue == [] && Running(s) && s.relay.Idle?
    case GiveUp(t) => t in s.pushers && s.pushers[t].Offering?
    case CloseMark(_) => Unlocked(s)
    case CloseChannel => s.closer.Some?
    case CloseReturn(t) => t in s.waiting && s.drain.Finished?
    case RelayTake => Running(s) && s.relay.Idle? && s.pushQueue != []
    case RelayEnd =>
      && Running(s)
      && ((s.relay.Idle? && (s.cancelled || (s.pushClosed && s.pushQueue == []))) || (s.relay.Holding? && s.cancelled))
    case HandOver => Running(s) && s.relay.Holding? && s.drain.Selecting? && s.valOpen
    case SinkSend => SendingTo(s) && (s.sinks[s.drain.next].closed || |s.sinks[s.drain.next].queue| < c.buffer)
    case SinkHand =>
      SendingTo(s) && var k := s.sinks[s.drain.next]; !k.closed && !k.gone && k.queue == []
    case SendEnd => s.drain.Sending? && s.drain.next == |s.sinks|
    case SendAbort => s.drain.Sending? && s.cancelled
    case SeeValuesEnd => s.drain.Selecting? && s.valOpen && s.relay.Gone?
    case SeeErrorsEnd => s.drain.Selecting? && s.errOpen && s.relay.Gone?
    case DrainExit => Running(s) && s.drain.Selecting? && (s.cancelled || (!s.valOpen && !s.errOpen))
    case CloseSink => s.drain.ClosingSinks? && 0 <= s.drain.next <= |s.sinks|
    case AdaptersDone => s.drain.WaitingAdapters? && forall k | IsSink(s, k) :: s.sinks[k].gone
    case Consume(k) => IsSink(s, k) && !s.sinks[k].gone && s.sinks[k].queue != []
    case AdapterExit(k) =>
      IsSink(s, k) && !s.sinks[k].gone && (s.cancelled || (s.sinks[k].closed && s.sinks[k].queue == []))
  }

  ghost function Fire(c: Config, s: State, a: Action): State
    requires Enabled(c, s, a)
  {
    match a
    case Start => if s.mode == Unfed then s.(mode := PushFed) else s
    case Cancel => s.(cancelled := true)
    case Enter(t, v) => s.(pushers := s.pushers[t := Entered(v)])
    case Check(t) =>
      // any mode but push is PortNotStartedError
      if s.mode == PushFed then s.(pushers := s.pushers[t := Offering(s.pushers[t].v)])
      else s.(pushers := s.pushers - {t})
    case Offer(t) =>
      var v := s.pushers[t].v;
      if s.pushClosed then s.(panicked := true)
      else s.(pushers := s.pushers - {t}, pushQueue := s.pushQueue + [v], accepted := s.accepted + [v])
    case HandPush(t) =>
      var v := s.pushers[t].v;
      s.(pushers := s.pushers - {t}, relay := Holding(v), accepted := s.accepted + [v], taken := s.taken + [v])
    case GiveUp(t) => s.(pushers := s.pushers - {t})
    case CloseMark(t) =>
      // in any other mode Close returns at once
      if s.mode == PushFed then s.(mode := Closed, closer := Some(t))
      else s.(closes := s.closes + [CloseRecord(t, s.mode, s.drain.Finished?)])
    case CloseChannel =>
      if s.pushClosed then s.(panicked := true)
      else s.(pushClosed := true, closer := None, waiting := s.waiting + {s.closer.value})
    case CloseReturn(t) =>
      s.(waiting := s.waiting - {t}, returned := s.returned + {t},
         closes := s.closes + [CloseRecord(t, PushFed, s.drain.Finished?)])
    case RelayTake =>
      s.(relay := Holding(s.pushQueue[0]), pushQueue := s.pushQueue[1..], taken := s.taken + [s.pushQueue[0]])
    case RelayEnd => s.(relay := Gone)
    case HandOver => s.(relay := Idle, drain := Sending(s.relay.v, 0))
    case SinkSend =>
      var Sending(v, k) := s.drain;
      if s.sinks[k].closed then s.(panicked := true)
      else s.(drain := Sending(v, k + 1), sinks := s.sinks[k := s.sinks[k].(queue := s.sinks[k].queue + [v])])
    case SinkHand =>
      var Sending(v, k) := s.drain;
      s.(drain := Sending(v, k + 1), sinks := s.sinks[k := s.sinks[k].(consumed := s.sinks[k].consumed + [v])])
    case SendEnd => s.(drain := Selecting)
    case SendAbort =>
      // onError offers the context's error to every sink's error channel
      if exists k :: IsSink(s, k) && s.sinks[k].closed then s.(panicked := true) else s.(drain := Selecting)
    case SeeValuesEnd => s.(valOpen := false)
    case SeeErrorsEnd => s.(errOpen := false)
    case DrainExit => s.(drain := ClosingSinks(0))
    case CloseSink =>
      var k := s.drain.next;
      if k == |s.sinks| then s.(drain := WaitingAdapters)
      else if s.sinks[k].closed then s.(panicked := true)
      else s.(drain := ClosingSinks(k + 1), sinks := s.sinks[k := s.sinks[k].(closed := true)])
    case AdaptersDone => s.(drain := Finished)
    case Consume(k) =>
      var n := s.sinks[k];
      s.(sinks := s.sinks[k := n.(queue := n.queue[1..], consumed := n.consumed + [n.queue[0]])])
    case AdapterExit(k) => s.(sinks := s.sinks[k := s.sinks[k].(gone := true)])
  }

  ghost function Exec(c: Config, acts: seq<Action>): Option<State> {
    if acts == [] then Some(Initial(c))
    else
      match Exec(c, Init(acts))
      case None => None
      case Some(s) => if Enabled(c, s, Last(acts)) then Some(Fire(c, s, Last(acts))) else None
  }

  // ---- Locking and closing ----

  ghost predicate SinkClosedBy(s: State, k: int) {
    match s.drain
    case ClosingSinks(n) => k < n
    case WaitingAdapters => true
    case Finished => true
    case _ => false
  }

  ghost predicate Shape(c: Config, s: State) {
    && !s.panicked && |s.sinks| == c.sinks
    && (s.closer.Some? ==> s.pushers == map[] && s.mode == Closed && !s.pushClosed)
    && (s.mode == Closed && s.closer.None? ==> s.pushClosed)
    && (s.pushClosed ==> s.mode == Closed)
    && (forall t | t in s.pushers && s.pushers[t].Offering? :: s.mode == PushFed)
    && (s.mode == Unfed ==> s.relay.Idle? && s.drain.Selecting? && s.valOpen && s.errOpen)
    && (s.drain.Sending? ==> 0 <= s.drain.next <= |s.sinks|)
    && (s.drain.ClosingSinks? ==> 0 <= s.drain.next <= |s.sinks|)
    && (forall k | IsSink(s, k) :: s.sinks[k].closed <==> SinkClosedBy(s, k))
    && (s.waiting + s.returned != {} ==> s.pushClosed)
    && (s.returned != {} ==> s.drain.Finished?)
  }

  ghost predicate CallerStep(a: Action) {
    a.Start? || a.Enter? || a.Check? || a.Offer? || a.GiveUp? || a.CloseMark? || a.CloseChannel? || a.CloseReturn?
  }

  ghost predicate EndingStep(a: Action) {
    a.SeeValuesEnd? || a.SeeErrorsEnd? || a.DrainExit? || a.CloseSink? || a.AdaptersDone? || a.AdapterExit?
  }

  lemma CallersKeepShape(c: Config, s: State, a: Action)
    requires Shape(c, s) && Enabled(c, s, a) && CallerStep(a)
    ensures Shape(c, Fire(c, s, a))
  {
    var t := Fire(c, s, a);
    assert t.sinks == s.sinks && t.drain == s.drain;
    if a.CloseReturn? { assert t.waiting + t.returned == s.waiting + s.returned; }
  }

  lemma EndingKeepsShape(c: Config, s: State, a: Action)
    requires Shape(c, s) && Enabled(c, s, a) && EndingStep(a)
    ensures Shape(c, Fire(c, s, a))
  {
    if a.CloseSink? || a.AdapterExit? { SinkEndKeepsShape(c, s, a); } else { DrainEndKeepsShape(c, s, a); }
  }

  lemma SinkEndKeepsShape(c: Config, s: State, a: Action)
    requires Shape(c, s) && Enabled(c, s, a) && (a.CloseSink? || a.AdapterExit?)
    ensures Shape(c, Fire(c, s, a))
  {
    var t := Fire(c, s, a);
    forall k | IsSink(t, k) ensures t.sinks[k].closed <==> SinkClosedBy(t, k) {
      assert s.sinks[k].closed <==> SinkClosedBy(s, k);
    }
  }

  lemma DrainEndKeepsShape(c: Config, s: State, a: Action)
    requires Shape(c, s) && Enabled(c, s, a) && EndingStep(a) && !a.CloseSink? && !a.AdapterExit?
    ensures Shape(c, Fire(c, s, a))
  {
    var t := Fire(c, s, a);
    forall k | IsSink(t, k) ensures t.sinks[k].closed <==> SinkClosedBy(t, k) {
      assert s.sinks[k].closed <==> SinkClosedBy(s, k);
    }
  }

  ghost predicate RelayStep(a: Action) {
    a.Cancel? || a.HandPush? || a.RelayTake? || a.RelayEnd? || a.HandOver?
  }

  lemma RelayKeepsShape(c: Config, s: State, a: Action)
    requires Shape(c, s) && Enabled(c, s, a) && RelayStep(a)
    ensures Shape(c, Fire(c, s, a))
  {
    var t := Fire(c, s, a);
    assert t.sinks == s.sinks;
    forall k | IsSink(t, k) ensures t.sinks[k].closed <==> SinkClosedBy(t, k) {
      assert s.sinks[k].closed <==> SinkClosedBy(s, k);
    }
  }

  lemma SendsKeepShape(c: Config, s: State, a: Action)
    requires Shape(c, s) && Enabled(c, s, a) && !CallerStep(a) && !EndingStep(a) && !RelayStep(a)
    ensures Shape(c, Fire(c, s, a))
  {
    if a.SendEnd? || a.SendAbort? { SendEndKeepsShape(c, s, a); } else { SinkMoveKeepsShape(c, s, a); }
  }

  lemma SendEndKeepsShape(c: Config, s: State, a: Action)
    requires Shape(c, s) && Enabled(c, s, a) && (a.SendEnd? || a.SendAbort?)
    ensures Shape(c, Fire(c, s, a))
  {
    forall k | IsSink(s, k) ensures !s.sinks[k].closed {
      assert s.sinks[k].closed <==> SinkClosedBy(s, k);
    }
  }

  lemma SinkMoveKeepsShape(c: Config, s: State, a: Action)
    requires Shape(c, s) && Enabled(c, s, a) && (a.SinkSend? || a.SinkHand? || a.Consume?)
    ensures Shape(c, Fire(c, s, a))
  {
    var t := Fire(c, s, a);
    forall k | IsSink(s, k) ensures !a.Consume? ==> !s.sinks[k].closed {
      assert s.sinks[k].closed <==> SinkClosedBy(s, k);
    }
    forall k | IsSink(t, k) ensures t.sinks[k].closed <==> SinkClosedBy(t, k) {
      assert s.sinks[k].closed <==> SinkClosedBy(s, k);
    }
  }

  lemma ShapeKept(c: Config, s: State, a: Action)
    requires Shape(c, s) && Enabled(c, s, a)
    ensures Shape(c, Fire(c, s, a))
  {
    if CallerStep(a) { CallersKeepShape(c, s, a); }
    else if EndingStep(a) { EndingKeepsShape(c, s, a); }
    else if RelayStep(a) { RelayKeepsShape(c, s, a); }
    else { SendsKeepShape(c, s, a); }
  }

  // ---- Flow ----

  ghost function Held(s: State): seq<Item> {
    if s.relay.Holding? then [s.relay.v] else []
  }

  /** The item being broadcast, as long as sink k has not got it. */
  ghost function Current(s: State, k: int): seq<Item> {
    if s.drain.Sending? && s.drain.next <= k then [s.drain.v] else []
  }

  ghost function Pipeline(s: State, k: int): seq<Item>
    requires IsSink(s, k)
  {
    s.sinks[k].consumed + s.sinks[k].queue + Current(s, k) + Held(s)
  }

  ghost predicate FlowAt(s: State, k: int)
    requires IsSink(s, k)
  {
    if s.cancelled then Subseq(Pipeline(s, k), s.taken) else Pipeline(s, k) == s.taken
  }

  ghost predicate Flow(s: State) {
    && s.accepted == s.taken + s.pushQueue
    && forall k | IsSink(s, k) :: FlowAt(s, k)
  }

  /** In a run that is not cancelled the stages end one after the other, each one empty. */
  ghost predicate EndsInOrder(s: State) {
    && (!s.valOpen ==> s.relay.Gone?)
    && (!s.cancelled && s.relay.Gone? ==> s.pushClosed && s.pushQueue == [])
    && (!s.cancelled && !s.drain.Selecting? && !s.drain.Sending? ==> !s.valOpen)
    && (s.drain.Finished? ==> forall k | IsSink(s, k) :: s.sinks[k].gone)
    && (!s.cancelled ==> forall k | IsSink(s, k) && s.sinks[k].gone :: s.sinks[k].closed && s.sinks[k].queue == [])
  }

  lemma CallersKeepEnds(c: Config, s: State, a: Action)
    requires Shape(c, s) && EndsInOrder(s) && Enabled(c, s, a) && (CallerStep(a) || RelayStep(a))
    ensures EndsInOrder(Fire(c, s, a))
  {
    assert Fire(c, s, a).sinks == s.sinks;
  }

  lemma EndingKeepsEnds(c: Config, s: State, a: Action)
    requires Shape(c, s) && EndsInOrder(s) && Enabled(c, s, a) && EndingStep(a)
    ensures EndsInOrder(Fire(c, s, a))
  {
  }

  lemma SendsKeepEnds(c: Config, s: State, a: Action)
    requires Shape(c, s) && EndsInOrder(s) && Enabled(c, s, a) && !CallerStep(a) && !EndingStep(a) && !RelayStep(a)
    ensures EndsInOrder(Fire(c, s, a))
  {
  }

  lemma EndsKept(c: Config, s: State, a: Action)
    requires Shape(c, s) && EndsInOrder(s) && Enabled(c, s, a)
    ensures EndsInOrder(Fire(c, s, a))
  {
    if CallerStep(a) || RelayStep(a) { CallersKeepEnds(c, s, a); }
    else if EndingStep(a) { EndingKeepsEnds(c, s, a); }
    else { SendsKeepEnds(c, s, a); }
  }

  ghost predicate SameQueues(s: State, t: State) {
    t.accepted == s.accepted && t.taken == s.taken && t.pushQueue == s.pushQueue
  }

  lemma DrainLeavesQueues(c: Config, s: State, a: Action)
    requires Enabled(c, s, a) && !CallerStep(a) && !RelayStep(a)
    ensures SameQueues(s, Fire(c, s, a))
  {
    match a
    case SinkSend =>
    case SinkHand =>
    case SendEnd =>
    case SendAbort =>
    case SeeValuesEnd =>
    case SeeErrorsEnd =>
    case DrainExit =>
    case CloseSink =>
    case AdaptersDone =>
    case Consume(_) =>
    case AdapterExit(_) =>
    case _ =>
  }

  lemma QueuesKept(c: Config, s: State, a: Action)
    requires Shape(c, s) && s.accepted == s.taken + s.pushQueue && Enabled(c, s, a)
    ensures var t := Fire(c, s, a); t.accepted == t.taken + t.pushQueue
  {
    if CallerStep(a) {
      CallersKeepQueues(c, s, a);
    } else if RelayStep(a) {
      RelayKeepsQueues(c, s, a);
    } else {
      DrainLeavesQueues(c, s, a);
    }
  }

  lemma CallersKeepQueues(c: Config, s: State, a: Action)
    requires Shape(c, s) && s.accepted == s.taken + s.pushQueue && Enabled(c, s, a) && CallerStep(a)
    ensures var t := Fire(c, s, a); t.accepted == t.taken + t.pushQueue
  {
    match a
    case Start =>
    case Enter(_, _) =>
    case Check(_) =>
    case Offer(_) =>
    case GiveUp(_) =>
    case CloseMark(_) =>
    case CloseChannel =>
    case CloseReturn(_) =>
    case _ =>
  }

  lemma RelayKeepsQueues(c: Config, s: State, a: Action)
    requires Shape(c, s) && s.accepted == s.taken + s.pushQueue && Enabled(c, s, a) && RelayStep(a)
    ensures var t := Fire(c, s, a); t.accepted == t.taken + t.pushQueue
  {
    match a
    case Cancel =>
    case HandPush(_) =>
    case RelayTake => assert s.pushQueue == [s.pushQueue[0]] + s.pushQueue[1..];
    case RelayEnd =>
    case HandOver =>
    case _ =>
  }

  lemma HandOverKeepsPipeline(c: Config, s: State, a: Action, k: int)
    requires Shape(c, s) && Enabled(c, s, a) && IsSink(s, k) && a.HandOver?
    ensures IsSink(Fire(c, s, a), k) && Pipeline(Fire(c, s, a), k) == Pipeline(s, k)
  {
    var t := Fire(c, s, a);
    assert Current(t, k) + Held(t) == Current(s, k) + Held(s);
  }

  lemma SendKeepsPipeline(c: Config, s: State, a: Action, k: int)
    requires Shape(c, s) && Enabled(c, s, a) && IsSink(s, k) && (a.SinkSend? || a.SinkHand?)
    ensures IsSink(Fire(c, s, a), k) && Pipeline(Fire(c, s, a), k) == Pipeline(s, k)
  {
    var t := Fire(c, s, a);
    if s.drain.next == k {
      assert !s.sinks[k].closed;
      assert t.sinks[k].consumed + t.sinks[k].queue == s.sinks[k].consumed + s.sinks[k].queue + [s.drain.v];
    }
  }

  lemma ConsumeKeepsPipeline(c: Config, s: State, a: Action, k: int)
    requires Enabled(c, s, a) && IsSink(s, k) && a.Consume?
    ensures IsSink(Fire(c, s, a), k) && Pipeline(Fire(c, s, a), k) == Pipeline(s, k)
  {
    var n := s.sinks[k];
    if a == Consume(k) { assert n.consumed + n.queue == n.consumed + [n.queue[0]] + n.queue[1..]; }
  }

  /** Moving an item along the pipeline leaves its contents as they are. */
  lemma MoveKeepsFlow(c: Config, s: State, a: Action, k: int)
    requires Shape(c, s) && Enabled(c, s, a) && IsSink(s, k) && FlowAt(s, k)
    requires a.HandOver? || a.SinkSend? || a.SinkHand? || a.Consume?
    ensures FlowAt(Fire(c, s, a), k)
  {
    if a.HandOver? { HandOverKeepsPipeline(c, s, a, k); }
    else if a.Consume? { ConsumeKeepsPipeline(c, s, a, k); }
    else { SendKeepsPipeline(c, s, a, k); }
  }

  lemma TakeKeepsFlow(c: Config, s: State, a: Action, k: int)
    requires Enabled(c, s, a) && IsSink(s, k) && FlowAt(s, k) && (a.RelayTake? || a.HandPush?)
    ensures FlowAt(Fire(c, s, a), k)
  {
    var t := Fire(c, s, a);
    assert Pipeline(t, k) == Pipeline(s, k) + Held(t);
    if s.cancelled { SubseqSnoc(Pipeline(s, k), s.taken, t.relay.v); }
  }

  /** Cancellation lets the relay and the broadcast drop what they hold. */
  lemma DropKeepsFlow(c: Config, s: State, a: Action, k: int)
    requires Shape(c, s) && Enabled(c, s, a) && IsSink(s, k) && FlowAt(s, k)
    requires a.RelayEnd? || a.SendAbort? || a.Cancel? || a.SendEnd?
    ensures FlowAt(Fire(c, s, a), k)
  {
    if a.Cancel? {
      SubseqRefl(s.taken);
    } else if a.RelayEnd? {
      RelayEndKeepsFlow(c, s, k);
    } else {
      SendEndKeepsFlow(c, s, a, k);
    }
  }

  lemma RelayEndKeepsFlow(c: Config, s: State, k: int)
    requires Enabled(c, s, RelayEnd) && IsSink(s, k) && FlowAt(s, k)
    ensures FlowAt(Fire(c, s, RelayEnd), k)
  {
    var got, cur := s.sinks[k].consumed + s.sinks[k].queue, Current(s, k);
    assert Pipeline(Fire(c, s, RelayEnd), k) == got + cur + [] == got + cur;
    DropHeld(s, k);
  }

  lemma SendEndKeepsFlow(c: Config, s: State, a: Action, k: int)
    requires Shape(c, s) && Enabled(c, s, a) && IsSink(s, k) && FlowAt(s, k) && (a.SendAbort? || a.SendEnd?)
    ensures FlowAt(Fire(c, s, a), k)
  {
    var got, held := s.sinks[k].consumed + s.sinks[k].queue, Held(s);
    assert s.sinks[k].closed <==> SinkClosedBy(s, k);
    SendEndKeepsShape(c, s, a);
    assert Pipeline(Fire(c, s, a), k) == got + [] + held == got + held;
    DropCurrent(s, k);
  }

  lemma DropHeld(s: State, k: int)
    requires IsSink(s, k) && FlowAt(s, k) && (s.cancelled || Held(s) == [])
    ensures var rest := s.sinks[k].consumed + s.sinks[k].queue + Current(s, k);
            if s.cancelled then Subseq(rest, s.taken) else rest == s.taken
  {
    var rest := s.sinks[k].consumed + s.sinks[k].queue + Current(s, k);
    if s.cancelled {
      SubseqPrefix(rest, Held(s));
      SubseqTrans(rest, Pipeline(s, k), s.taken);
    }
  }

  lemma DropCurrent(s: State, k: int)
    requires IsSink(s, k) && FlowAt(s, k) && (s.cancelled || Current(s, k) == [])
    ensures var rest := s.sinks[k].consumed + s.sinks[k].queue + Held(s);
            if s.cancelled then Subseq(rest, s.taken) else rest == s.taken
  {
    var got := s.sinks[k].consumed + s.sinks[k].queue;
    if s.cancelled {
      SubseqDrop(got, Current(s, k), Held(s));
      SubseqTrans(got + Held(s), Pipeline(s, k), s.taken);
    } else {
      assert got + Current(s, k) == got;
    }
  }

  ghost predicate SamePipeline(s: State, t: State) {
    && |t.sinks| == |s.sinks| && t.taken == s.taken && t.cancelled == s.cancelled && Held(t) == Held(s)
    && forall k | IsSink(s, k) ::
         && t.sinks[k].consumed == s.sinks[k].consumed && t.sinks[k].queue == s.sinks[k].queue
         && Current(t, k) == Current(s, k)
  }

  lemma CallersKeepPipeline(c: Config, s: State, a: Action)
    requires Enabled(c, s, a) && CallerStep(a)
    ensures SamePipeline(s, Fire(c, s, a))
  {
    hide Enabled, Fire;
    if a.Start? || a.Enter? || a.Check? || a.Offer? { EntryKeepsPipeline(c, s, a); } else { ExitKeepsPipeline(c, s, a); }
  }

  ghost predicate SameDownstream(s: State, t: State) {
    t.sinks == s.sinks && t.drain == s.drain && t.relay == s.relay && t.taken == s.taken && t.cancelled == s.cancelled
  }

  lemma EntryKeepsPipeline(c: Config, s: State, a: Action)
    requires Enabled(c, s, a) && (a.Start? || a.Enter? || a.Check? || a.Offer?)
    ensures SameDownstream(s, Fire(c, s, a))
  {
    match a
    case Start =>
    case Enter(_, _) =>
    case Check(_) =>
    case Offer(_) =>
    case _ =>
  }

  lemma ExitKeepsPipeline(c: Config, s: State, a: Action)
    requires Enabled(c, s, a) && (a.GiveUp? || a.CloseMark? || a.CloseChannel? || a.CloseReturn?)
    ensures SameDownstream(s, Fire(c, s, a))
  {
    match a
    case GiveUp(_) =>
    case CloseMark(_) =>
    case CloseChannel =>
    case CloseReturn(_) =>
    case _ =>
  }

  lemma EndingKeepsPipeline(c: Config, s: State, a: Action)
    requires Enabled(c, s, a) && EndingStep(a)
    ensures SamePipeline(s, Fire(c, s, a))
  {
    if a.CloseSink? {
      SinkClosingKeepsPipeline(c, s);
    } else if a.AdapterExit? {
      AdapterExitKeepsPipeline(c, s, a.k);
    } else {
      DrainEndKeepsPipeline(c, s, a);
    }
  }

  lemma SinkClosingKeepsPipeline(c: Config, s: State)
    requires Enabled(c, s, CloseSink)
    ensures SamePipeline(s, Fire(c, s, CloseSink))
  {}

  lemma AdapterExitKeepsPipeline(c: Config, s: State, k: int)
    requires Enabled(c, s, AdapterExit(k))
    ensures SamePipeline(s, Fire(c, s, AdapterExit(k)))
  {}

  lemma DrainEndKeepsPipeline(c: Config, s: State, a: Action)
    requires Enabled(c, s, a) && (a.SeeValuesEnd? || a.SeeErrorsEnd? || a.DrainExit? || a.AdaptersDone?)
    ensures SamePipeline(s, Fire(c, s, a))
  {
    assert Fire(c, s, a).sinks == s.sinks;
  }

  lemma SamePipelineSameFlow(s: State, t: State, k: int)
    requires IsSink(s, k) && SamePipeline(s, t) && FlowAt(s, k)
    ensures FlowAt(t, k)
  {
    assert Pipeline(t, k) == Pipeline(s, k);
  }

  lemma FlowAtKept(c: Config, s: State, a: Action, k: int)
    requires Shape(c, s) && Enabled(c, s, a) && IsSink(s, k) && FlowAt(s, k)
    ensures IsSink(Fire(c, s, a), k) && FlowAt(Fire(c, s, a), k)
  {
    if a.HandOver? || a.SinkSend? || a.SinkHand? || a.Consume? {
      MoveKeepsFlow(c, s, a, k);
    } else if a.RelayTake? || a.HandPush? {
      TakeKeepsFlow(c, s, a, k);
    } else if a.RelayEnd? || a.SendAbort? || a.Cancel? || a.SendEnd? {
      DropKeepsFlow(c, s, a, k);
    } else {
      if CallerStep(a) { CallersKeepPipeline(c, s, a); } else { EndingKeepsPipeline(c, s, a); }
      SamePipelineSameFlow(s, Fire(c, s, a), k);
    }
  }

  lemma FlowKept(c: Config, s: State, a: Action)
    requires Shape(c, s) && Flow(s) && Enabled(c, s, a)
    ensures Flow(Fire(c, s, a))
  {
    QueuesKept(c, s, a);
    ShapeKept(c, s, a);
    forall k | IsSink(Fire(c, s, a), k) ensures FlowAt(Fire(c, s, a), k) { FlowAtKept(c, s, a, k); }
  }

  // ---- Every run ----

  ghost predicate Inv(c: Config, s: State) {
    Shape(c, s) && EndsInOrder(s) && Flow(s)
  }

  lemma {:induction false} RunKeepsInv(c: Config, acts: seq<Action>)
    requires Exec(c, acts).Some?
    ensures Inv(c, Exec(c, acts).value)
    decreases |acts|
  {
    if acts == [] {
    } else {
      RunKeepsInv(c, Init(acts));
      var s := Exec(c, Init(acts)).value;
      ShapeKept(c, s, Last(acts));
      EndsKept(c, s, Last(acts));
      FlowKept(c, s, Last(acts));
    }
  }

  /** No Push ever sends on the closed channel, and no channel is closed twice: in every run,
      however pushes, closes and cancellation overlap. */
  lemma {:induction false} NeverPanics(c: Config, acts: seq<Action>)
    requires Exec(c, acts).Some?
    ensures !Exec(c, acts).value.panicked
  {
    RunKeepsInv(c, acts);
  }

  /** Without cancellation every sink's share of the pipeline is the accepted sequence, in order. */
  lemma {:induction false} NothingLost(c: Config, acts: seq<Action>, k: int)
    requires Exec(c, acts).Some? && !Exec(c, acts).value.cancelled && IsSink(Exec(c, acts).value, k)
    ensures var s := Exec(c, acts).value;
            s.sinks[k].consumed + s.sinks[k].queue + Current(s, k) + Held(s) + s.pushQueue == s.accepted
  {
    RunKeepsInv(c, acts);
    assert FlowAt(Exec(c, acts).value, k);
  }

  /** Once the Close that ended the lifecycle has returned, every sink has consumed exactly the
      accepted pushes, in the order they were accepted. */
  lemma {:induction false} CloseDelivers(c: Config, acts: seq<Action>, k: int)
    requires Exec(c, acts).Some? && !Exec(c, acts).value.cancelled && IsSink(Exec(c, acts).value, k)
    requires Exec(c, acts).value.returned != {}
    ensures Exec(c, acts).value.sinks[k].consumed == Exec(c, acts).value.accepted
  {
    RunKeepsInv(c, acts);
    var s := Exec(c, acts).value;
    assert FlowAt(s, k) && s.sinks[k].gone;
  }

  /** With cancellation items may be lost, never duplicated, reordered or invented. */
  lemma {:induction false} CancelledDelivery(c: Config, acts: seq<Action>, k: int)
    requires Exec(c, acts).Some? && IsSink(Exec(c, acts).value, k)
    ensures Subseq(Exec(c, acts).value.sinks[k].consumed, Exec(c, acts).value.accepted)
  {
    RunKeepsInv(c, acts);
    var s := Exec(c, acts).value;
    var n := s.sinks[k];
    assert FlowAt(s, k);
    if !s.cancelled { SubseqRefl(s.taken); }
    SubseqPrefix(n.consumed, n.queue + Current(s, k) + Held(s));
    assert n.consumed + (n.queue + Current(s, k) + Held(s)) == Pipeline(s, k);
    SubseqTrans(n.consumed, Pipeline(s, k), s.taken);
    SubseqPrefix(s.taken, s.pushQueue);
    SubseqTrans(n.consumed, s.taken, s.accepted);
  }

  /** After Close no Push is accepted any more. */
  lemma {:induction false} ClosedIsFinal(c: Config, before: seq<Action>, acts: seq<Action>)
    requires before <= acts && Exec(c, acts).Some?
    requires Exec(c, before).Some? && Exec(c, before).value.mode == Closed
    ensures Exec(c, acts).value.mode == Closed && Exec(c, acts).value.accepted == Exec(c, before).value.accepted
    decreases |acts|
  {
    if acts == before {
    } else {
      assert before <= Init(acts) && Exec(c, Init(acts)).Some?;
      ClosedIsFinal(c, before, Init(acts));
      RunKeepsInv(c, Init(acts));
      ClosedStep(c, Exec(c, Init(acts)).value, Last(acts));
    }
  }

  lemma ClosedStep(c: Config, s: State, a: Action)
    requires Shape(c, s) && s.mode == Closed && Enabled(c, s, a)
    ensures Fire(c, s, a).mode == Closed && Fire(c, s, a).accepted == s.accepted
  {
    if !CallerStep(a) { OthersLeaveCallers(c, s, a); }
  }

  /** What the callers see changes only by their own steps, and by the hand-over of a push. */
  lemma OthersLeaveCallers(c: Config, s: State, a: Action)
    requires Shape(c, s) && Enabled(c, s, a) && !CallerStep(a)
    ensures var t := Fire(c, s, a);
            && t.mode == s.mode && t.pushClosed == s.pushClosed
            && (!a.HandPush? ==> t.accepted == s.accepted && t.pushers == s.pushers)
            && (a.HandPush? ==> s.mode == PushFed)
  {
    if RelayStep(a) { RelayLeavesCallers(c, s, a); } else { DrainLeavesCallers(c, s, a); }
  }

  lemma RelayLeavesCallers(c: Config, s: State, a: Action)
    requires Shape(c, s) && Enabled(c, s, a) && RelayStep(a)
    ensures var t := Fire(c, s, a);
            && t.mode == s.mode && t.pushClosed == s.pushClosed
            && (!a.HandPush? ==> t.accepted == s.accepted && t.pushers == s.pushers)
            && (a.HandPush? ==> s.mode == PushFed)
  {
    match a
    case Cancel =>
    case HandPush(_) =>
    case RelayTake =>
    case RelayEnd =>
    case HandOver =>
    case _ =>
  }

  lemma DrainLeavesCallers(c: Config, s: State, a: Action)
    requires Enabled(c, s, a) && !CallerStep(a) && !RelayStep(a)
    ensures var t := Fire(c, s, a);
            t.mode == s.mode && t.pushClosed == s.pushClosed && t.accepted == s.accepted && t.pushers == s.pushers
  {
    match a
    case SinkSend =>
    case SinkHand =>
    case SendEnd =>
    case SendAbort =>
    case SeeValuesEnd =>
    case SeeErrorsEnd =>
    case DrainExit =>
    case CloseSink =>
    case AdaptersDone =>
    case Consume(_) =>
    case AdapterExit(_) =>
    case _ =>
  }
}
