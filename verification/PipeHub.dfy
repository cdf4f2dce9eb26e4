/** PipePort.Connect as a protocol: producer goroutines fan items out to bounded channels,
    one after the other, until the context is cancelled; a closing goroutine waits for them
    and then closes every output and the done channel. Any interleaving is a run. */
module PipeHub {
  import opened Logs
  import opened Wire

  /** Outputs are numbered sinks first, then Stream() consumers. Producer 0 listens for
      Push, the others read one InputPort each. */
  datatype Config = Config(sinks: nat, streams: nat, inputs: nat, buffer: nat)
  {
    /** NewPipePort replaces a buffer size that is not positive by 8. */
    predicate Valid() { buffer > 0 }
    function Outs(): nat { sinks + streams }
  }

  /** Where a producer goroutine is: in its select, inside fanOut with the next output to
      serve, inside fanOutErr, or gone. */
  datatype Pc = Selecting | FanOut(v: Item, next: int) | FanOutErr(next: int) | Exited

  /** ingested and, for each output, sent are histories. */
  datatype Producer = Producer(pc: Pc, valOpen: bool, errOpen: bool, ingested: seq<Item>, sent: seq<seq<Item>>)

  /** A sink's output has an error channel, a stream consumer's has none. log and received are
      histories; queue is the channel's buffer. */
  datatype Output = Output(
    queue: seq<Item>, closed: bool, errQueued: nat, errClosed: bool, log: seq<Sent>, received: seq<Item>)

  /** closing is the output the closing goroutine has come to, closingErr whether it has
      already closed that output's value channel. */
  datatype State = State(
    connected: bool, cancelled: bool,
    pushQueue: seq<Item>, pushed: seq<Item>,
    producers: seq<Producer>, outs: seq<Output>,
    closing: int, closingErr: bool, done: bool,
    panicked: bool)

  datatype Action =
    | Push(v: Item) | Connect | Cancel
    | Take(p: int, v: Item) | EndValues(p: int) | TakeErr(p: int) | EndErrors(p: int)
    | Deliver(p: int) | DeliverErr(p: int) | Abort(p: int) | Finish(p: int) | Exit(p: int)
    | Receive(k: int) | ReceiveErr(k: int) | CloseNext

  ghost function Start(c: Config): State {
    State(false, false, [], [],
          seq(1 + c.inputs, i => Producer(Selecting, true, i != 0, [], seq(c.Outs(), _ => []))),
          seq(c.Outs(), i => Output([], false, 0, false, [], [])),
          0, false, false, false)
  }

  ghost predicate IsProducer(s: State, p: int) { 0 <= p < |s.producers| }
  ghost predicate IsOut(s: State, k: int) { 0 <= k < |s.outs| }

  ghost predicate At(s: State, p: int, sel: bool) {
    s.connected && IsProducer(s, p) && (sel ==> s.producers[p].pc.Selecting?)
  }

  /** When the scheduler may let the action happen. Sending on or closing a closed channel is
      possible, and panics. */
  ghost predicate Enabled(c: Config, s: State, a: Action) {
    match a
    case Push(_) => |s.pushQueue| < c.buffer
    case Connect => true
    case Cancel => true
    case Take(p, v) => At(s, p, true) && s.producers[p].valOpen && (p == 0 ==> s.pushQueue != [] && s.pushQueue[0] == v)
    case EndValues(p) => At(s, p, true) && s.producers[p].valOpen && p != 0
    case TakeErr(p) => At(s, p, true) && s.producers[p].errOpen
    case EndErrors(p) => At(s, p, true) && s.producers[p].errOpen
    case Deliver(p) =>
      && At(s, p, false) && s.producers[p].pc.FanOut? && IsOut(s, s.producers[p].pc.next)
      && (s.outs[s.producers[p].pc.next].closed || |s.outs[s.producers[p].pc.next].queue| < c.buffer)
    case DeliverErr(p) => At(s, p, false) && s.producers[p].pc.FanOutErr? && IsOut(s, s.producers[p].pc.next)
    case Abort(p) => At(s, p, false) && s.producers[p].pc.FanOut? && s.cancelled
    case Finish(p) =>
      && At(s, p, false) && (s.producers[p].pc.FanOut? || s.producers[p].pc.FanOutErr?)
      && s.producers[p].pc.next == c.Outs()
    case Exit(p) => At(s, p, true) && (s.cancelled || (!s.producers[p].valOpen && !s.producers[p].errOpen))
    case Receive(k) => IsOut(s, k) && s.outs[k].queue != []
    case ReceiveErr(k) => IsOut(s, k) && s.outs[k].errQueued > 0
    case CloseNext =>
      && s.connected && !s.done && 0 <= s.closing <= |s.outs|
      && (forall p | IsProducer(s, p) :: s.producers[p].pc.Exited?)
  }

  ghost function WithPc(s: State, p: int, pc: Pc): State
    requires IsProducer(s, p)
  {
    s.(producers := s.producers[p := s.producers[p].(pc := pc)])
  }

  ghost function Sending(pr: Producer, v: Item, k: int): Producer {
    pr.(pc := FanOut(v, k + 1), sent := if 0 <= k < |pr.sent| then pr.sent[k := pr.sent[k] + [v]] else pr.sent)
  }

  /** What the action does. */
  ghost function Fire(c: Config, s: State, a: Action): State
    requires Enabled(c, s, a)
  {
    match a
    case Push(v) => s.(pushQueue := s.pushQueue + [v], pushed := s.pushed + [v])
    case Connect => s.(connected := true)  // a second Connect returns at once
    case Cancel => s.(cancelled := true)
    case Take(p, v) =>
      var pr := s.producers[p];
      s.(producers := s.producers[p := pr.(pc := FanOut(v, 0), ingested := pr.ingested + [v])],
         pushQueue := if p == 0 then s.pushQueue[1..] else s.pushQueue)
    case EndValues(p) => s.(producers := s.producers[p := s.producers[p].(valOpen := false)])
    case TakeErr(p) => WithPc(s, p, FanOutErr(0))
    case EndErrors(p) => s.(producers := s.producers[p := s.producers[p].(errOpen := false)])
    case Deliver(p) =>
      var FanOut(v, k) := s.producers[p].pc;
      var o := s.outs[k];
      if o.closed then s.(panicked := true)
      else
        s.(producers := s.producers[p := Sending(s.producers[p], v, k)],
           outs := s.outs[k := o.(queue := o.queue + [v], log := o.log + [Sent(p, v)])])
    case DeliverErr(p) =>
      var k := s.producers[p].pc.next;
      var o := s.outs[k];
      var s' := WithPc(s, p, FanOutErr(k + 1));
      if k >= c.sinks then s'
      else if o.errClosed then s.(panicked := true)
      else if o.errQueued < c.buffer then s'.(outs := s.outs[k := o.(errQueued := o.errQueued + 1)])
      else s'
    case Abort(p) => WithPc(s, p, Selecting)
    case Finish(p) => WithPc(s, p, Selecting)
    case Exit(p) => WithPc(s, p, Exited)
    case Receive(k) =>
      var o := s.outs[k];
      s.(outs := s.outs[k := o.(queue := o.queue[1..], received := o.received + [o.queue[0]])])
    case ReceiveErr(k) => s.(outs := s.outs[k := s.outs[k].(errQueued := s.outs[k].errQueued - 1)])
    case CloseNext =>
      var k := s.closing;
      if k == |s.outs| then s.(done := true)
      else
        var o := s.outs[k];
        if s.closingErr then
          if o.errClosed then s.(panicked := true)
          else s.(outs := s.outs[k := o.(errClosed := true)], closing := k + 1, closingErr := false)
        else
          if o.closed then s.(panicked := true)
          else if k < c.sinks then s.(outs := s.outs[k := o.(closed := true)], closingErr := true)
          else s.(outs := s.outs[k := o.(closed := true)], closing := k + 1)
  }

  /** The state after a schedule, if every action was possible when its turn came. */
  ghost function Exec(c: Config, acts: seq<Action>): Option<State> {
    if acts == [] then Some(Start(c))
    else
      match Exec(c, Init(acts))
      case None => None
      case Some(s) => if Enabled(c, s, Last(acts)) then Some(Fire(c, s, Last(acts))) else None
  }

  // ---- Closing: no channel is used after it is closed ----

  ghost predicate Shape(c: Config, s: State) {
    && !s.panicked
    && |s.producers| == 1 + c.inputs && |s.outs| == c.Outs() && |s.pushQueue| <= c.buffer
    && 0 <= s.closing <= |s.outs| && (s.closingErr ==> s.closing < c.sinks) && (s.done ==> s.closing == |s.outs|)
    && (s.closing > 0 || s.closingErr || s.done ==> forall p | IsProducer(s, p) :: s.producers[p].pc.Exited?)
    && (forall k | IsOut(s, k) ::
          && (s.outs[k].closed <==> k < s.closing || (k == s.closing && s.closingErr))
          && (s.outs[k].errClosed <==> k < c.sinks && k < s.closing)
          && |s.outs[k].queue| <= c.buffer && s.outs[k].errQueued <= c.buffer)
    && (forall p | IsProducer(s, p) && s.producers[p].pc.FanOut? :: 0 <= s.producers[p].pc.next <= c.Outs())
    && (forall p | IsProducer(s, p) && s.producers[p].pc.FanOutErr? :: 0 <= s.producers[p].pc.next <= c.Outs())
    && (forall p | IsProducer(s, p) :: |s.producers[p].sent| == c.Outs())
    && (!s.connected ==> forall p | IsProducer(s, p) :: s.producers[p].pc.Selecting? && s.producers[p].ingested == [])
  }

  lemma ShapeKept(c: Config, s: State, a: Action)
    requires c.Valid() && Shape(c, s) && Enabled(c, s, a)
    ensures Shape(c, Fire(c, s, a))
  {
    if a.CloseNext? { ClosingKeepsShape(c, s); }
    else if a.Deliver? { DeliverKeepsShape(c, s, a.p); }
    else if a.DeliverErr? { DeliverErrKeepsShape(c, s, a.p); }
    else { OthersKeepShape(c, s, a); }
  }

  lemma ClosingKeepsShape(c: Config, s: State)
    requires Shape(c, s) && Enabled(c, s, CloseNext)
    ensures Shape(c, Fire(c, s, CloseNext))
  {}

  lemma DeliverKeepsShape(c: Config, s: State, p: int)
    requires c.Valid() && Shape(c, s) && Enabled(c, s, Deliver(p))
    ensures Shape(c, Fire(c, s, Deliver(p)))
  {
    assert !s.producers[p].pc.Exited?;
  }

  lemma DeliverErrKeepsShape(c: Config, s: State, p: int)
    requires c.Valid() && Shape(c, s) && Enabled(c, s, DeliverErr(p))
    ensures Shape(c, Fire(c, s, DeliverErr(p)))
  {
    assert !s.producers[p].pc.Exited?;
  }

  lemma OthersKeepShape(c: Config, s: State, a: Action)
    requires c.Valid() && Shape(c, s) && Enabled(c, s, a) && !a.Deliver? && !a.DeliverErr? && !a.CloseNext?
    ensures Shape(c, Fire(c, s, a))
  {
    if OwnStep(a) { OwnStepKeepsShape(c, s, a); } else { OutsideKeepsShape(c, s, a); }
  }

  /** A producer goroutine moving on without touching an output. */
  ghost predicate OwnStep(a: Action) {
    a.Take? || a.EndValues? || a.TakeErr? || a.EndErrors? || a.Abort? || a.Finish? || a.Exit?
  }

  lemma OwnStepKeepsShape(c: Config, s: State, a: Action)
    requires Shape(c, s) && Enabled(c, s, a) && OwnStep(a)
    ensures Shape(c, Fire(c, s, a))
  {
    var t := Fire(c, s, a);
    assert t.outs == s.outs && t.connected;
    assert a.Exit? || !s.producers[a.p].pc.Exited?;
    forall q | IsProducer(t, q) && q != a.p ensures t.producers[q] == s.producers[q] { }
  }

  lemma OutsideKeepsShape(c: Config, s: State, a: Action)
    requires Shape(c, s) && Enabled(c, s, a)
    requires a.Push? || a.Connect? || a.Cancel? || a.Receive? || a.ReceiveErr?
    ensures Shape(c, Fire(c, s, a))
  {
    assert Fire(c, s, a).producers == s.producers;
    if a.Receive? {
      ReceiveKeepsShape(c, s, a.k);
    } else if !a.ReceiveErr? {
      CallKeepsShape(c, s, a);
    }
  }

  lemma CallKeepsShape(c: Config, s: State, a: Action)
    requires Shape(c, s) && Enabled(c, s, a) && (a.Push? || a.Connect? || a.Cancel?)
    ensures Shape(c, Fire(c, s, a))
  {
    match a
    case Push(_) =>
    case Connect =>
    case Cancel =>
    case _ =>
  }

  lemma ReceiveKeepsShape(c: Config, s: State, k: int)
    requires Shape(c, s) && Enabled(c, s, Receive(k))
    ensures Shape(c, Fire(c, s, Receive(k)))
  {
    assert Fire(c, s, Receive(k)).producers == s.producers;
  }

  // ---- Flow: what each producer has sent to each output ----

  /** What the producer had ingested, and what it had sent to output k, before the fan-out it is in. */
  ghost function Before(pr: Producer): seq<Item> {
    if pr.pc.FanOut? && pr.ingested != [] then Init(pr.ingested) else pr.ingested
  }

  ghost function Settled(pr: Producer, k: int): seq<Item>
    requires 0 <= k < |pr.sent|
  {
    if pr.pc.FanOut? && k < pr.pc.next && pr.sent[k] != [] then Init(pr.sent[k]) else pr.sent[k]
  }

  ghost predicate FlowOf(pr: Producer, cancelled: bool) {
    && (pr.pc.FanOut? ==> pr.ingested == Before(pr) + [pr.pc.v])
    && (forall k | 0 <= k < |pr.sent| :: pr.pc.FanOut? && k < pr.pc.next ==> pr.sent[k] == Settled(pr, k) + [pr.pc.v])
    && (forall k | 0 <= k < |pr.sent| ::
          if cancelled then Subseq(Settled(pr, k), Before(pr)) else Settled(pr, k) == Before(pr))
    && (forall j, k | 0 <= j <= k < |pr.sent| :: Subseq(Settled(pr, k), Settled(pr, j)))
  }

  ghost predicate Flow(s: State) {
    forall p | IsProducer(s, p) :: FlowOf(s.producers[p], s.cancelled)
  }

  lemma CancelKeepsFlow(pr: Producer)
    requires FlowOf(pr, false)
    ensures FlowOf(pr, true)
  {
    SubseqRefl(Before(pr));
  }

  lemma TakeKeepsFlow(pr: Producer, v: Item, cancelled: bool)
    requires FlowOf(pr, cancelled) && pr.pc.Selecting?
    ensures FlowOf(pr.(pc := FanOut(v, 0), ingested := pr.ingested + [v]), cancelled)
  {
    var qr := pr.(pc := FanOut(v, 0), ingested := pr.ingested + [v]);
    assert Before(qr) == Before(pr);
    assert forall k | 0 <= k < |pr.sent| :: Settled(qr, k) == Settled(pr, k);
  }

  lemma DeliverKeepsFlow(pr: Producer, cancelled: bool)
    requires FlowOf(pr, cancelled) && pr.pc.FanOut? && 0 <= pr.pc.next < |pr.sent|
    ensures FlowOf(Sending(pr, pr.pc.v, pr.pc.next), cancelled)
  {
    var qr := Sending(pr, pr.pc.v, pr.pc.next);
    assert Before(qr) == Before(pr);
    forall k | 0 <= k < |pr.sent| ensures Settled(qr, k) == Settled(pr, k) {
      assert k == pr.pc.next ==> Init(qr.sent[k]) == pr.sent[k];
    }
  }

  /** Leaving a fan-out, finished or aborted, settles the value at the outputs it reached. */
  lemma LeaveKeepsFlow(pr: Producer, cancelled: bool)
    requires FlowOf(pr, cancelled) && (pr.pc.FanOut? ==> cancelled || pr.pc.next >= |pr.sent|)
    ensures FlowOf(pr.(pc := Selecting), cancelled)
  {
    var qr := pr.(pc := Selecting);
    if pr.pc.FanOut? {
      var v := pr.pc.v;
      forall k | 0 <= k < |pr.sent|
        ensures if cancelled then Subseq(Settled(qr, k), Before(qr)) else Settled(qr, k) == Before(qr)
      {
        if cancelled { SubseqSnoc(Settled(pr, k), Before(pr), v); }
      }
      forall j, k | 0 <= j <= k < |pr.sent| ensures Subseq(Settled(qr, k), Settled(qr, j)) {
        assert Subseq(Settled(pr, k), Settled(pr, j));
        SubseqSnoc(Settled(pr, k), Settled(pr, j), v);
      }
    } else {
      assert Before(qr) == Before(pr);
      assert forall k | 0 <= k < |pr.sent| :: Settled(qr, k) == Settled(pr, k);
    }
  }

  lemma IdleKeepsFlow(pr: Producer, qr: Producer, cancelled: bool)
    requires FlowOf(pr, cancelled) && qr.ingested == pr.ingested && qr.sent == pr.sent
    requires qr.pc == pr.pc || !(pr.pc.FanOut? || qr.pc.FanOut?)
    ensures FlowOf(qr, cancelled)
  {
    assert Before(qr) == Before(pr);
    assert forall k | 0 <= k < |pr.sent| :: Settled(qr, k) == Settled(pr, k);
  }

  lemma FlowKept(c: Config, s: State, a: Action)
    requires Shape(c, s) && Flow(s) && Enabled(c, s, a)
    ensures Flow(Fire(c, s, a))
  {
    var t := Fire(c, s, a);
    forall p | IsProducer(t, p) ensures FlowOf(t.producers[p], t.cancelled) {
      assert FlowOf(s.producers[p], s.cancelled);
      if a.Cancel? {
        if !s.cancelled { CancelKeepsFlow(s.producers[p]); }
      } else {
        ProducerStep(c, s, a, p);
      }
    }
  }

  lemma ProducerStep(c: Config, s: State, a: Action, p: int)
    requires Shape(c, s) && Enabled(c, s, a) && IsProducer(s, p) && FlowOf(s.producers[p], s.cancelled)
    ensures FlowOf(Fire(c, s, a).producers[p], s.cancelled)
  {
    hide FlowOf;
    var pr, qr := s.producers[p], Fire(c, s, a).producers[p];
    if a.Take? && a.p == p { TakeKeepsFlow(pr, a.v, s.cancelled); }
    else if a == Deliver(p) { DeliverKeepsFlow(pr, s.cancelled); }
    else if a == Abort(p) || a == Finish(p) { LeaveKeepsFlow(pr, s.cancelled); }
    else { IdleKeepsFlow(pr, qr, s.cancelled); }
  }

  // ---- Channels: nothing is lost or reordered inside one ----

  ghost predicate ChannelOk(s: State, k: int)
    requires IsOut(s, k)
  {
    && Items(s.outs[k].log) == s.outs[k].received + s.outs[k].queue
    && (forall p | IsProducer(s, p) :: k < |s.producers[p].sent| && s.producers[p].sent[k] == By(s.outs[k].log, p))
    && (forall p | !IsProducer(s, p) :: By(s.outs[k].log, p) == [])
  }

  ghost predicate Channels(s: State) {
    && |s.producers| > 0 && s.pushed == s.producers[0].ingested + s.pushQueue
    && (forall k | IsOut(s, k) :: ChannelOk(s, k))
  }

  lemma ChannelsKept(c: Config, s: State, a: Action)
    requires Shape(c, s) && Channels(s) && Enabled(c, s, a)
    ensures Channels(Fire(c, s, a))
  {
    var t := Fire(c, s, a);
    PushedKept(c, s, a);
    forall k | IsOut(t, k) ensures ChannelOk(t, k) { ChannelStep(c, s, a, k); }
  }

  lemma ChannelStep(c: Config, s: State, a: Action, k: int)
    requires Shape(c, s) && Enabled(c, s, a) && IsOut(s, k) && ChannelOk(s, k)
    ensures ChannelOk(Fire(c, s, a), k)
  {
    if a.Deliver? { DeliverKeepsChannel(c, s, a.p, k); }
    else if a.Receive? { ReceiveKeepsChannel(c, s, a.k, k); }
    else { OtherKeepsChannel(c, s, a, k); }
  }

  /** An output that nothing was sent to. */
  lemma SameChannel(s: State, t: State, k: int)
    requires IsOut(s, k) && IsOut(t, k) && ChannelOk(s, k) && |t.producers| == |s.producers|
    requires t.outs[k].log == s.outs[k].log && t.outs[k].queue == s.outs[k].queue && t.outs[k].received == s.outs[k].received
    requires forall p | IsProducer(s, p) :: k < |t.producers[p].sent| && t.producers[p].sent[k] == s.producers[p].sent[k]
    ensures ChannelOk(t, k)
  {
  }

  /** An output that producer p has sent v to. */
  lemma GrownChannel(s: State, t: State, p: int, v: Item, k: int)
    requires IsOut(s, k) && IsOut(t, k) && ChannelOk(s, k) && |t.producers| == |s.producers| && IsProducer(s, p)
    requires t.outs[k].log == s.outs[k].log + [Sent(p, v)]
    requires t.outs[k].queue == s.outs[k].queue + [v] && t.outs[k].received == s.outs[k].received
    requires forall q | IsProducer(s, q) :: k < |t.producers[q].sent| &&
               t.producers[q].sent[k] == s.producers[q].sent[k] + if q == p then [v] else []
    ensures ChannelOk(t, k)
  {
    LogSnoc(s.outs[k].log, Sent(p, v));
    assert s.outs[k].received + (s.outs[k].queue + [v]) == s.outs[k].received + s.outs[k].queue + [v];
  }

  lemma DeliverKeepsChannel(c: Config, s: State, p: int, k: int)
    requires Shape(c, s) && Enabled(c, s, Deliver(p)) && IsOut(s, k) && ChannelOk(s, k)
    ensures ChannelOk(Fire(c, s, Deliver(p)), k)
  {
    var t := Fire(c, s, Deliver(p));
    var v, n := s.producers[p].pc.v, s.producers[p].pc.next;
    assert !s.outs[n].closed;
    assert t.producers == s.producers[p := Sending(s.producers[p], v, n)];
    if n == k { GrownChannel(s, t, p, v, k); } else { SameChannel(s, t, k); }
  }

  lemma ReceiveKeepsChannel(c: Config, s: State, j: int, k: int)
    requires Enabled(c, s, Receive(j)) && IsOut(s, k) && ChannelOk(s, k)
    ensures ChannelOk(Fire(c, s, Receive(j)), k)
  {
    var o := s.outs[j];
    assert o.received + o.queue == (o.received + [o.queue[0]]) + o.queue[1..];
  }

  lemma OtherKeepsSent(c: Config, s: State, a: Action, p: int)
    requires Enabled(c, s, a) && !a.Deliver?
    ensures |Fire(c, s, a).producers| == |s.producers|
    ensures IsProducer(s, p) ==> Fire(c, s, a).producers[p].sent == s.producers[p].sent
  {
    match a
    case Take(_, _) =>
    case EndValues(_) =>
    case TakeErr(_) =>
    case EndErrors(_) =>
    case DeliverErr(_) =>
    case Abort(_) =>
    case Finish(_) =>
    case Exit(_) =>
    case CloseNext =>
    case _ =>
  }

  lemma OtherKeepsQueues(c: Config, s: State, a: Action, k: int)
    requires Enabled(c, s, a) && IsOut(s, k) && !a.Deliver? && !a.Receive?
    ensures IsOut(Fire(c, s, a), k)
    ensures var o, o' := s.outs[k], Fire(c, s, a).outs[k];
            o'.log == o.log && o'.queue == o.queue && o'.received == o.received
  {}

  lemma OtherKeepsChannel(c: Config, s: State, a: Action, k: int)
    requires Shape(c, s) && Enabled(c, s, a) && IsOut(s, k) && ChannelOk(s, k) && !a.Deliver? && !a.Receive?
    ensures ChannelOk(Fire(c, s, a), k)
  {
    hide Enabled, Fire, Shape;
    forall p ensures |Fire(c, s, a).producers| == |s.producers|
      ensures IsProducer(s, p) ==> Fire(c, s, a).producers[p].sent == s.producers[p].sent
    {
      OtherKeepsSent(c, s, a, p);
    }
    OtherKeepsQueues(c, s, a, k);
    SameChannel(s, Fire(c, s, a), k);
  }

  lemma PushedKept(c: Config, s: State, a: Action)
    requires Shape(c, s) && s.pushed == s.producers[0].ingested + s.pushQueue && Enabled(c, s, a)
    ensures var t := Fire(c, s, a); t.pushed == t.producers[0].ingested + t.pushQueue
  {
    if a.Take? && a.p == 0 {
      assert s.pushQueue == [a.v] + s.pushQueue[1..];
    }
  }

  // ---- Every run ----

  ghost predicate Inv(c: Config, s: State) {
    Shape(c, s) && Flow(s) && Channels(s)
  }

  lemma {:induction false} RunKeepsInv(c: Config, acts: seq<Action>)
    requires c.Valid() && Exec(c, acts).Some?
    ensures Inv(c, Exec(c, acts).value)
    decreases |acts|
  {
    if acts == [] {
      var s := Start(c);
      assert forall k | IsOut(s, k) :: ChannelOk(s, k);
      assert forall p | IsProducer(s, p) :: FlowOf(s.producers[p], false);
    } else {
      RunKeepsInv(c, Init(acts));
      var s := Exec(c, Init(acts)).value;
      ShapeKept(c, s, Last(acts));
      FlowKept(c, s, Last(acts));
      ChannelsKept(c, s, Last(acts));
    }
  }

  ghost predicate MidFanOut(s: State, p: int)
    requires IsProducer(s, p)
  {
    s.producers[p].pc.FanOut?
  }

  /** In every run, cancelled or not: no goroutine ever sends on or closes a closed channel, and
      once the done channel is closed every producer has exited and every output is closed. */
  lemma {:induction false} NeverPanics(c: Config, acts: seq<Action>)
    requires c.Valid() && Exec(c, acts).Some?
    ensures var s := Exec(c, acts).value;
            && !s.panicked
            && (forall k | IsOut(s, k) && s.outs[k].closed :: forall p | IsProducer(s, p) :: s.producers[p].pc.Exited?)
            && (s.done ==>
                  && (forall p | IsProducer(s, p) :: s.producers[p].pc.Exited?)
                  && (forall k | IsOut(s, k) :: s.outs[k].closed && (k < c.sinks ==> s.outs[k].errClosed)))
  {
    RunKeepsInv(c, acts);
  }

  lemma SentExactly(pr: Producer, k: int)
    requires FlowOf(pr, false) && 0 <= k < |pr.sent|
    ensures pr.sent[k] == if pr.pc.FanOut? && pr.pc.next <= k then Before(pr) else pr.ingested
    ensures Before(pr) <= pr.ingested && |pr.ingested| <= |Before(pr)| + 1
  {
    assert Settled(pr, k) == Before(pr);
  }

  /** While the context is not cancelled, every output got from producer p exactly what p
      ingested, except that the value p is fanning out has only reached the first outputs. */
  lemma {:induction false} ExactDelivery(c: Config, acts: seq<Action>, p: int, k: int)
    requires c.Valid() && Exec(c, acts).Some? && !Exec(c, acts).value.cancelled
    requires IsProducer(Exec(c, acts).value, p) && IsOut(Exec(c, acts).value, k)
    ensures var s := Exec(c, acts).value;
            var pr := s.producers[p];
            && By(s.outs[k].log, p) == (if pr.pc.FanOut? && pr.pc.next <= k then Before(pr) else pr.ingested)
            && (pr.pc.FanOut? ==> pr.ingested == Before(pr) + [pr.pc.v])
  {
    RunKeepsInv(c, acts);
    var s := Exec(c, acts).value;
    assert ChannelOk(s, k);
    assert FlowOf(s.producers[p], s.cancelled);
    SentExactly(s.producers[p], k);
  }

  /** So an earlier output is ahead of a later one by at most one item per producer. */
  lemma {:induction false} LeadsByAtMostOne(c: Config, acts: seq<Action>, p: int, j: int, k: int)
    requires c.Valid() && Exec(c, acts).Some? && !Exec(c, acts).value.cancelled
    requires var s := Exec(c, acts).value; IsProducer(s, p) && IsOut(s, j) && IsOut(s, k) && j <= k
    ensures var s := Exec(c, acts).value;
            var ahead, behind := By(s.outs[j].log, p), By(s.outs[k].log, p);
            behind <= ahead <= s.producers[p].ingested && |ahead| <= |behind| + 1
  {
    ExactDelivery(c, acts, p, j);
    ExactDelivery(c, acts, p, k);
  }

  /** And when no producer is in the middle of a fan-out, all outputs have been sent the same items. */
  lemma {:induction false} OutputsAgree(c: Config, acts: seq<Action>, j: int, k: int)
    requires c.Valid() && Exec(c, acts).Some? && !Exec(c, acts).value.cancelled
    requires var s := Exec(c, acts).value;
             IsOut(s, j) && IsOut(s, k) && forall p | IsProducer(s, p) :: !MidFanOut(s, p)
    ensures var s := Exec(c, acts).value;
            multiset(s.outs[j].received + s.outs[j].queue) == multiset(s.outs[k].received + s.outs[k].queue)
  {
    RunKeepsInv(c, acts);
    var s := Exec(c, acts).value;
    assert ChannelOk(s, j) && ChannelOk(s, k);
    forall p ensures By(s.outs[j].log, p) == By(s.outs[k].log, p) {
      if IsProducer(s, p) {
        ExactDelivery(c, acts, p, j);
        ExactDelivery(c, acts, p, k);
      }
    }
    SameContributions(s.outs[j].log, s.outs[k].log);
    SameItems(s.outs[j].log, s.outs[k].log);
  }

  /** In every run, cancelled ones included, an output gets from each producer a subsequence of
      what the producer ingested, and a later output a subsequence of what an earlier one gets. */
  lemma {:induction false} DeliveryInOrder(c: Config, acts: seq<Action>, p: int, j: int, k: int)
    requires c.Valid() && Exec(c, acts).Some?
    requires var s := Exec(c, acts).value; IsProducer(s, p) && IsOut(s, j) && IsOut(s, k) && j <= k
    ensures var s := Exec(c, acts).value;
            && Subseq(By(s.outs[k].log, p), s.producers[p].ingested)
            && Subseq(By(s.outs[k].log, p), By(s.outs[j].log, p))
  {
    RunKeepsInv(c, acts);
    var s := Exec(c, acts).value;
    var pr := s.producers[p];
    assert ChannelOk(s, j) && ChannelOk(s, k) && FlowOf(pr, s.cancelled);
    if !s.cancelled { SubseqRefl(Before(pr)); }
    assert Subseq(Settled(pr, k), Settled(pr, j));
    if pr.pc.FanOut? {
      SubseqSnoc(Settled(pr, k), Before(pr), pr.pc.v);
      SubseqSnoc(Settled(pr, k), Settled(pr, j), pr.pc.v);
    }
  }

  /** Push: what was accepted is what the hub has ingested plus what still waits, in order. */
  lemma {:induction false} PushIsFifo(c: Config, acts: seq<Action>)
    requires c.Valid() && Exec(c, acts).Some?
    ensures var s := Exec(c, acts).value;
            |s.producers| > 0 && s.pushed == s.producers[0].ingested + s.pushQueue && |s.pushQueue| <= c.buffer
    decreases |acts|
  {
    RunKeepsInv(c, acts);
  }

  /** The values of the Push calls in a schedule, and those that producer p took, in order. */
  function PushedIn(acts: seq<Action>): seq<Item> {
    if acts == [] then [] else PushedIn(Init(acts)) + if Last(acts).Push? then [Last(acts).v] else []
  }

  function TakenIn(acts: seq<Action>, p: int): seq<Item> {
    if acts == [] then []
    else TakenIn(Init(acts), p) + if Last(acts).Take? && Last(acts).p == p then [Last(acts).v] else []
  }

  lemma HistoryStep(c: Config, s: State, a: Action, p: int)
    requires Enabled(c, s, a)
    ensures Fire(c, s, a).pushed == s.pushed + if a.Push? then [a.v] else []
    ensures |Fire(c, s, a).producers| == |s.producers|
    ensures IsProducer(s, p) ==>
              Fire(c, s, a).producers[p].ingested ==
              s.producers[p].ingested + if a.Take? && a.p == p then [a.v] else []
  {
    if !a.Push? && !a.Take? { OthersKeepHistories(c, s, a, p); }
  }

  ghost predicate SameHistories(s: State, t: State, p: int) {
    && t.pushed == s.pushed && |t.producers| == |s.producers|
    && (IsProducer(s, p) ==> t.producers[p].ingested == s.producers[p].ingested)
  }

  lemma OthersKeepHistories(c: Config, s: State, a: Action, p: int)
    requires Enabled(c, s, a) && !a.Push? && !a.Take?
    ensures SameHistories(s, Fire(c, s, a), p)
  {
    if OwnStep(a) {
      OwnStepKeepsHistories(c, s, a, p);
    } else if a.Deliver? || a.DeliverErr? {
      DeliveryKeepsHistories(c, s, a, p);
    } else {
      RestKeepsHistories(c, s, a, p);
    }
  }

  lemma OwnStepKeepsHistories(c: Config, s: State, a: Action, p: int)
    requires Enabled(c, s, a) && OwnStep(a) && !a.Take?
    ensures SameHistories(s, Fire(c, s, a), p)
  {}

  lemma DeliveryKeepsHistories(c: Config, s: State, a: Action, p: int)
    requires Enabled(c, s, a) && (a.Deliver? || a.DeliverErr?)
    ensures SameHistories(s, Fire(c, s, a), p)
  {}

  lemma RestKeepsHistories(c: Config, s: State, a: Action, p: int)
    requires Enabled(c, s, a) && !OwnStep(a) && !a.Push? && !a.Deliver? && !a.DeliverErr?
    ensures SameHistories(s, Fire(c, s, a), p)
  {}

  /** The items the delivery theorems speak of are the ones that were pushed and taken. */
  lemma {:induction false} HistoriesAreSchedule(c: Config, acts: seq<Action>, p: int)
    requires Exec(c, acts).Some? && IsProducer(Exec(c, acts).value, p)
    ensures Exec(c, acts).value.pushed == PushedIn(acts)
    ensures Exec(c, acts).value.producers[p].ingested == TakenIn(acts, p)
    decreases |acts|
  {
    if acts == [] {
    } else {
      HistoryStep(c, Exec(c, Init(acts)).value, Last(acts), p);
      HistoriesAreSchedule(c, Init(acts), p);
    }
  }

  // ---- Shutdown is always possible ----

  lemma {:induction false} ExecSnoc(c: Config, acts: seq<Action>, a: Action)
    requires Exec(c, acts).Some? && Enabled(c, Exec(c, acts).value, a)
    ensures Exec(c, acts + [a]) == Some(Fire(c, Exec(c, acts).value, a))
  {
    assert Init(acts + [a]) == acts;
  }

  lemma {:induction false} NextIffEnabled(c: Config, acts: seq<Action>, a: Action)
    requires Exec(c, acts).Some?
    ensures Exec(c, acts + [a]).Some? <==> Enabled(c, Exec(c, acts).value, a)
  {
    hide Enabled, Fire;
    assert Init(acts + [a]) == acts;
  }

  /** Backpressure, in terms of the histories: a Push is accepted exactly while fewer than buffer accepted
      items have not been taken yet, connected or not. */
  lemma {:induction false} PushAcceptedIff(c: Config, acts: seq<Action>, v: Item)
    requires c.Valid() && Exec(c, acts).Some?
    ensures |Exec(c, acts).value.producers| > 0
    ensures Exec(c, acts + [Push(v)]).Some? <==> |PushedIn(acts)| - |TakenIn(acts, 0)| < c.buffer
  {
    PushIsFifo(c, acts);
    HistoriesAreSchedule(c, acts, 0);
    NextIffEnabled(c, acts, Push(v));
  }

  /** And a producer that has come to output k is held up there exactly while buffer items sent to it have
      not been received. */
  lemma {:induction false} DeliveryBlockedIff(c: Config, acts: seq<Action>, p: int, k: int)
    requires c.Valid() && Exec(c, acts).Some? && IsProducer(Exec(c, acts).value, p) && IsOut(Exec(c, acts).value, k)
    requires var s := Exec(c, acts).value; s.connected && s.producers[p].pc.FanOut? && s.producers[p].pc.next == k
    ensures var o := Exec(c, acts).value.outs[k];
            Exec(c, acts + [Deliver(p)]).None? <==> |Items(o.log)| - |o.received| >= c.buffer
  {
    RunKeepsInv(c, acts);
    NextIffEnabled(c, acts, Deliver(p));
  }

  ghost predicate Stopping(s: State) {
    s.connected && s.cancelled
  }

  ghost function StepsToExit(c: Config, pc: Pc): int {
    match pc case Exited => 0 case Selecting => 1 case FanOut(_, _) => 2 case FanOutErr(n) => 2 + c.Outs() - n
  }

  /** A producer's next step on its way out. */
  lemma ExitStep(c: Config, s: State, p: int) returns (a: Action)
    requires c.Valid() && Shape(c, s) && Stopping(s) && IsProducer(s, p) && !s.producers[p].pc.Exited?
    ensures Enabled(c, s, a) && Stopping(Fire(c, s, a)) && |Fire(c, s, a).producers| == |s.producers|
    ensures 0 <= StepsToExit(c, Fire(c, s, a).producers[p].pc) < StepsToExit(c, s.producers[p].pc)
    ensures forall q | IsProducer(s, q) && q != p :: Fire(c, s, a).producers[q] == s.producers[q]
  {
    a := match s.producers[p].pc
      case FanOut(_, _) => Abort(p)
      case FanOutErr(n) => if n == c.Outs() then Finish(p) else DeliverErr(p)
      case _ => Exit(p);
    ShapeKept(c, s, a);
  }

  /** Once cancelled, a goroutine in any position can be brought to its end by its own steps alone. */
  lemma {:induction false} ExitProducer(c: Config, acts: seq<Action>, p: int) returns (acts': seq<Action>)
    requires c.Valid() && Exec(c, acts).Some? && Stopping(Exec(c, acts).value) && IsProducer(Exec(c, acts).value, p)
    ensures acts <= acts' && Exec(c, acts').Some?
    ensures var s, t := Exec(c, acts).value, Exec(c, acts').value;
            && Stopping(t) && |t.producers| == |s.producers| && t.producers[p].pc.Exited?
            && (forall q | IsProducer(s, q) && q != p :: t.producers[q] == s.producers[q])
    decreases StepsToExit(c, Exec(c, acts).value.producers[p].pc)
  {
    hide Enabled, Fire, Shape, Stopping;
    RunKeepsInv(c, acts);
    var s := Exec(c, acts).value;
    acts' := acts;
    if s.producers[p].pc.Exited? {
    } else {
      var a := ExitStep(c, s, p);
      ExecSnoc(c, acts, a);
      acts' := ExitProducer(c, acts + [a], p);
    }
  }

  lemma {:induction false} ExitAll(c: Config, acts: seq<Action>, n: int) returns (acts': seq<Action>)
    requires c.Valid() && Exec(c, acts).Some? && Stopping(Exec(c, acts).value)
    requires 0 <= n <= |Exec(c, acts).value.producers|
    ensures acts <= acts' && Exec(c, acts').Some? && Stopping(Exec(c, acts').value)
    ensures |Exec(c, acts').value.producers| == |Exec(c, acts).value.producers|
    ensures forall p | 0 <= p < n :: Exec(c, acts').value.producers[p].pc.Exited?
    decreases n
  {
    acts' := acts;
    if n == 0 {
    } else {
      acts' := ExitAll(c, acts, n - 1);
      acts' := ExitProducer(c, acts', n - 1);
    }
  }

  ghost function ClosingsLeft(s: State): int {
    2 * (|s.outs| - s.closing) - (if s.closingErr then 1 else 0) + (if s.done then 0 else 1)
  }

  lemma {:induction false} CloseAll(c: Config, acts: seq<Action>) returns (acts': seq<Action>)
    requires c.Valid() && Exec(c, acts).Some? && Stopping(Exec(c, acts).value)
    requires forall p | IsProducer(Exec(c, acts).value, p) :: Exec(c, acts).value.producers[p].pc.Exited?
    ensures acts <= acts' && Exec(c, acts').Some? && Exec(c, acts').value.done
    decreases ClosingsLeft(Exec(c, acts).value)
  {
    RunKeepsInv(c, acts);
    acts' := acts;
    if Exec(c, acts).value.done {
    } else {
      ClosingKeepsShape(c, Exec(c, acts).value);
      ExecSnoc(c, acts, CloseNext);
      acts' := CloseAll(c, acts + [CloseNext]);
    }
  }

  /** From every state a run can reach after cancellation, the goroutines can go on to close the
      done channel, even if no consumer ever receives another item. */
  lemma {:induction false} CancelledPipeCanFinish(c: Config, acts: seq<Action>)
    requires c.Valid() && Exec(c, acts).Some? && Stopping(Exec(c, acts).value)
    ensures exists acts' :: acts <= acts' && Exec(c, acts').Some? && Exec(c, acts').value.done
  {
    var acts1 := ExitAll(c, acts, |Exec(c, acts).value.producers|);
    var acts2 := CloseAll(c, acts1);
  }
}
