/** A connected pipe whose context lives goes on: whatever is pushed or offered can be brought to every
    output, item after item. */
module PipeProgress {
  import opened Logs
  import opened PipeHub
  import opened Wire

  ghost predicate Working(s: State) {
    s.connected && !s.cancelled
  }

  /** Steps of the producers and of the consumers. */
  ghost predicate Moves(a: Action) {
    a.Take? || a.Deliver? || a.DeliverErr? || a.Finish? || a.Receive?
  }

  ghost predicate OnlyMoves(acts: seq<Action>, n: nat) {
    forall i | n <= i < |acts| :: Moves(acts[i])
  }

  /** A working pipe after further moves only. */
  ghost predicate Onward(c: Config, start: seq<Action>, acts: seq<Action>) {
    && c.Valid() && start <= acts && OnlyMoves(acts, |start|)
    && Exec(c, acts).Some? && Working(Exec(c, acts).value)
  }

  lemma Move(c: Config, start: seq<Action>, acts: seq<Action>, a: Action) returns (longer: seq<Action>)
    requires Onward(c, start, acts) && Moves(a) && Enabled(c, Exec(c, acts).value, a)
    ensures longer == acts + [a] && Onward(c, start, longer)
    ensures Exec(c, longer) == Some(Fire(c, Exec(c, acts).value, a))
  {
    hide Enabled;
    longer := acts + [a];
    ExecSnoc(c, acts, a);
    MovesKeepWorking(c, Exec(c, acts).value, a);
  }

  lemma MovesKeepWorking(c: Config, s: State, a: Action)
    requires Working(s) && Moves(a) && Enabled(c, s, a)
    ensures Working(Fire(c, s, a)) && Fire(c, s, a).pushed == s.pushed
  {}

  // ---- One fan-out to its end ----

  ghost function OutputsLeft(c: Config, pc: Pc): int {
    match pc
    case FanOut(_, k) => c.Outs() - k + 1
    case FanOutErr(k) => c.Outs() - k + 1
    case _ => 0
  }

  /** Whether the output that producer p has come to has no room. */
  ghost predicate Blocked(c: Config, s: State, p: int)
    requires IsProducer(s, p)
  {
    var pc := s.producers[p].pc;
    pc.FanOut? && IsOut(s, pc.next) && |s.outs[pc.next].queue| >= c.buffer
  }

  /** Only producer p moved, inside its fan-out. */
  ghost predicate Elsewhere(s: State, t: State, p: int) {
    && |t.producers| == |s.producers| && t.pushQueue == s.pushQueue && t.pushed == s.pushed
    && (forall q | IsProducer(s, q) && q != p :: t.producers[q] == s.producers[q])
    && (IsProducer(s, p) ==>
          && t.producers[p].ingested == s.producers[p].ingested
          && t.producers[p].valOpen == s.producers[p].valOpen && t.producers[p].errOpen == s.producers[p].errOpen)
  }

  ghost predicate InFanOut(s: State, p: int)
    requires IsProducer(s, p)
  {
    s.producers[p].pc.FanOut? || s.producers[p].pc.FanOutErr?
  }

  /** The next move of a fan-out: to the output that is next, or of the consumer that makes room there. */
  lemma FanOutMove(c: Config, s: State, p: int) returns (a: Action)
    requires c.Valid() && Shape(c, s) && Working(s) && IsProducer(s, p) && InFanOut(s, p)
    ensures Moves(a) && Enabled(c, s, a) && Elsewhere(s, Fire(c, s, a), p)
    ensures var t := Fire(c, s, a);
            && (InFanOut(t, p) || t.producers[p].pc.Selecting?)
            && (if Blocked(c, s, p) then t.producers == s.producers && !Blocked(c, t, p)
                else 0 <= OutputsLeft(c, t.producers[p].pc) < OutputsLeft(c, s.producers[p].pc))
  {
    var pc := s.producers[p].pc;
    if pc.next == c.Outs() {
      a := Finish(p);
    } else if pc.FanOutErr? {
      a := DeliverErr(p);
    } else if Blocked(c, s, p) {
      a := Receive(pc.next);
    } else {
      a := Deliver(p);
    }
    ShapeKept(c, s, a);
  }

  lemma {:induction false} EndFanOut(c: Config, start: seq<Action>, acts: seq<Action>, p: int) returns (acts': seq<Action>)
    requires Onward(c, start, acts) && IsProducer(Exec(c, acts).value, p) && InFanOut(Exec(c, acts).value, p)
    ensures Onward(c, start, acts') && Elsewhere(Exec(c, acts).value, Exec(c, acts').value, p)
    ensures Exec(c, acts').value.producers[p].pc.Selecting?
    decreases OutputsLeft(c, Exec(c, acts).value.producers[p].pc), Blocked(c, Exec(c, acts).value, p)
  {
    hide Enabled, Fire, Shape, Moves, OnlyMoves, Blocked;
    RunKeepsInv(c, acts);
    var s := Exec(c, acts).value;
    FanOutLeft(c, s, p);
    var a := FanOutMove(c, s, p);
    acts' := Move(c, start, acts, a);
    if InFanOut(Exec(c, acts').value, p) {
      acts' := EndFanOut(c, start, acts', p);
    }
  }

  lemma FanOutLeft(c: Config, s: State, p: int)
    requires Shape(c, s) && IsProducer(s, p)
    ensures OutputsLeft(c, s.producers[p].pc) >= 0
  {}

  /** The first n producers come out of whatever they are sending. */
  lemma {:induction false} EndFanOuts(c: Config, start: seq<Action>, acts: seq<Action>, n: int) returns (acts': seq<Action>)
    requires Onward(c, start, acts) && 0 <= n <= |Exec(c, acts).value.producers|
    ensures Onward(c, start, acts') && SameWork(Exec(c, acts).value, Exec(c, acts').value)
    ensures forall p | 0 <= p < n :: !InFanOut(Exec(c, acts').value, p)
    decreases n
  {
    hide Exec, Enabled, Fire, Shape, OnlyMoves, Working;
    acts' := acts;
    if n == 0 {
    } else {
      var before := EndFanOuts(c, start, acts, n - 1);
      acts' := before;
      if InFanOut(Exec(c, before).value, n - 1) {
        acts' := EndFanOut(c, start, before, n - 1);
      }
      forall p | 0 <= p < n ensures !InFanOut(Exec(c, acts').value, p) {
        assert p < n - 1 ==> !InFanOut(Exec(c, before).value, p);
      }
    }
  }

  ghost predicate SameWork(s: State, t: State) {
    && |t.producers| == |s.producers| && t.pushQueue == s.pushQueue && t.pushed == s.pushed
    && forall p | IsProducer(s, p) ::
         t.producers[p].ingested == s.producers[p].ingested && t.producers[p].valOpen == s.producers[p].valOpen
  }

  // ---- The pushed items ----

  /** Push's producer listens as long as the context lives. */
  lemma {:induction false} PushIsHeard(c: Config, acts: seq<Action>)
    requires c.Valid() && Exec(c, acts).Some?
    ensures var s := Exec(c, acts).value;
            IsProducer(s, 0) && s.producers[0].valOpen && (s.producers[0].pc.Exited? ==> s.cancelled)
    decreases |acts|
  {
    RunKeepsInv(c, acts);
    if acts == [] {
    } else {
      PushIsHeard(c, Init(acts));
      RunKeepsInv(c, Init(acts));
      HeardOn(c, Exec(c, Init(acts)).value, Last(acts));
    }
  }

  lemma HeardOn(c: Config, s: State, a: Action)
    requires Shape(c, s) && Enabled(c, s, a) && IsProducer(s, 0)
    requires s.producers[0].valOpen && (s.producers[0].pc.Exited? ==> s.cancelled)
    ensures var t := Fire(c, s, a);
            IsProducer(t, 0) && t.producers[0].valOpen && (t.producers[0].pc.Exited? ==> t.cancelled)
  {
    match a
    case Take(_, _) =>
    case EndValues(_) =>
    case Exit(_) =>
    case _ =>
  }

  lemma PushTaken(c: Config, s: State)
    requires c.Valid() && Shape(c, s) && Working(s) && IsProducer(s, 0) && s.pushQueue != []
    requires s.producers[0].valOpen && s.producers[0].pc.Selecting?
    ensures var a := Take(0, s.pushQueue[0]);
            && Enabled(c, s, a) && InFanOut(Fire(c, s, a), 0) && |Fire(c, s, a).pushQueue| < |s.pushQueue|
            && |Fire(c, s, a).producers| == |s.producers|
            && (forall p | IsProducer(s, p) && p != 0 :: Fire(c, s, a).producers[p] == s.producers[p])
  {}

  lemma {:induction false} DrainPushes(c: Config, start: seq<Action>, acts: seq<Action>) returns (acts': seq<Action>)
    requires Onward(c, start, acts)
    requires forall p | IsProducer(Exec(c, acts).value, p) :: !InFanOut(Exec(c, acts).value, p)
    ensures Onward(c, start, acts')
    ensures var s, t := Exec(c, acts).value, Exec(c, acts').value;
            && t.pushQueue == [] && t.pushed == s.pushed
            && (forall p | IsProducer(t, p) :: !InFanOut(t, p))
    decreases |Exec(c, acts).value.pushQueue|
  {
    hide Enabled, Fire, Shape, OnlyMoves;
    RunKeepsInv(c, acts);
    PushIsHeard(c, acts);
    var s := Exec(c, acts).value;
    acts' := acts;
    if s.pushQueue == [] {
    } else {
      assert !InFanOut(s, 0);
      PushTaken(c, s);
      var taken := Move(c, start, acts, Take(0, s.pushQueue[0]));
      MovesKeepWorking(c, s, Take(0, s.pushQueue[0]));
      var done := EndFanOut(c, start, taken, 0);
      forall p | IsProducer(Exec(c, done).value, p) ensures !InFanOut(Exec(c, done).value, p) {
        assert p != 0 ==> !InFanOut(s, p);
      }
      acts' := DrainPushes(c, start, done);
    }
  }

  // ---- The consumers ----

  ghost predicate QueuesOnly(s: State, t: State) {
    && t == s.(outs := t.outs) && |t.outs| == |s.outs|
    && forall k | IsOut(s, k) :: t.outs[k].log == s.outs[k].log && |t.outs[k].queue| <= |s.outs[k].queue|
  }

  lemma ReceiveMoves(c: Config, s: State, k: int)
    requires IsOut(s, k) && s.outs[k].queue != []
    ensures Enabled(c, s, Receive(k)) && QueuesOnly(s, Fire(c, s, Receive(k)))
    ensures |Fire(c, s, Receive(k)).outs[k].queue| < |s.outs[k].queue|
  {}

  /** The consumer of output k takes everything. */
  lemma {:induction false} EmptyQueue(c: Config, start: seq<Action>, acts: seq<Action>, k: int) returns (acts': seq<Action>)
    requires Onward(c, start, acts) && IsOut(Exec(c, acts).value, k)
    ensures Onward(c, start, acts') && QueuesOnly(Exec(c, acts).value, Exec(c, acts').value)
    ensures Exec(c, acts').value.outs[k].queue == []
    decreases |Exec(c, acts).value.outs[k].queue|
  {
    hide Enabled, Fire, OnlyMoves;
    acts' := acts;
    if Exec(c, acts).value.outs[k].queue == [] {
    } else {
      ReceiveMoves(c, Exec(c, acts).value, k);
      acts' := Move(c, start, acts, Receive(k));
      acts' := EmptyQueue(c, start, acts', k);
    }
  }

  lemma {:induction false} EmptyQueues(c: Config, start: seq<Action>, acts: seq<Action>, n: int) returns (acts': seq<Action>)
    requires Onward(c, start, acts) && 0 <= n <= |Exec(c, acts).value.outs|
    ensures Onward(c, start, acts') && QueuesOnly(Exec(c, acts).value, Exec(c, acts').value)
    ensures forall k | 0 <= k < n :: Exec(c, acts').value.outs[k].queue == []
    decreases n
  {
    hide Exec, Enabled, Fire, OnlyMoves, Working;
    acts' := acts;
    if n == 0 {
    } else {
      acts' := EmptyQueues(c, start, acts, n - 1);
      acts' := EmptyQueue(c, start, acts', n - 1);
    }
  }

  // ---- What a working pipe can still do ----

  /** Nothing is on its way, and every consumer has everything that was pushed, in order. */
  ghost predicate AllReceived(s: State) {
    && s.pushQueue == [] && (forall p | IsProducer(s, p) :: !InFanOut(s, p))
    && forall k | IsOut(s, k) ::
         s.outs[k].queue == [] && s.outs[k].received == Items(s.outs[k].log) && By(s.outs[k].log, 0) == s.pushed
  }

  /** From every state of a pipe whose context lives everything pushed so far can be brought to every
      consumer. */
  lemma {:induction false} PushesCanArrive(c: Config, acts: seq<Action>) returns (acts': seq<Action>)
    requires c.Valid() && Exec(c, acts).Some? && Working(Exec(c, acts).value)
    ensures acts <= acts' && OnlyMoves(acts', |acts|) && Exec(c, acts').Some? && Working(Exec(c, acts').value)
    ensures AllReceived(Exec(c, acts').value) && Exec(c, acts').value.pushed == Exec(c, acts).value.pushed
  {
    hide Exec, Enabled, Fire;
    acts' := EndFanOuts(c, acts, acts, |Exec(c, acts).value.producers|);
    var drained := DrainPushes(c, acts, acts');
    acts' := EmptyQueues(c, acts, drained, |Exec(c, drained).value.outs|);
    var t := Exec(c, acts').value;
    forall p | IsProducer(t, p) ensures !InFanOut(t, p) {
      assert !InFanOut(Exec(c, drained).value, p);
    }
    PushIsFifo(c, acts');
    RunKeepsInv(c, acts');
    forall k | IsOut(t, k) ensures t.outs[k].received == Items(t.outs[k].log) && By(t.outs[k].log, 0) == t.pushed {
      assert !InFanOut(t, 0) && ChannelOk(t, k);
      ExactDelivery(c, acts', 0, k);
    }
  }

  /** So one more Push can always be accepted, and its value reaches every consumer after all others. */
  lemma {:induction false} NextPushCanArrive(c: Config, acts: seq<Action>, v: Item) returns (acts': seq<Action>)
    requires c.Valid() && Exec(c, acts).Some? && Working(Exec(c, acts).value)
    ensures acts <= acts' && Exec(c, acts').Some? && Working(Exec(c, acts').value)
    ensures AllReceived(Exec(c, acts').value) && Exec(c, acts').value.pushed == Exec(c, acts).value.pushed + [v]
  {
    var ready := PushesCanArrive(c, acts);
    ExecSnoc(c, ready, Push(v));
    acts' := PushesCanArrive(c, ready + [Push(v)]);
  }

  /** A value that another input's stream offers can be taken and brought to every output as well. */
  lemma {:induction false} InputCanArrive(c: Config, acts: seq<Action>, p: int, v: Item) returns (acts': seq<Action>)
    requires c.Valid() && Exec(c, acts).Some? && Working(Exec(c, acts).value) && IsProducer(Exec(c, acts).value, p) && p != 0
    requires Exec(c, acts).value.producers[p].valOpen && !Exec(c, acts).value.producers[p].pc.Exited?
    ensures acts <= acts' && OnlyMoves(acts', |acts|) && Exec(c, acts').Some? && Working(Exec(c, acts').value)
    ensures var s, t := Exec(c, acts).value, Exec(c, acts').value;
            && IsProducer(t, p) && t.producers[p].pc.Selecting?
            && t.producers[p].ingested == s.producers[p].ingested + [v]
            && forall k | IsOut(t, k) :: By(t.outs[k].log, p) == t.producers[p].ingested
  {
    acts' := acts;
    if InFanOut(Exec(c, acts).value, p) {
      acts' := EndFanOut(c, acts, acts, p);
    }
    acts' := Move(c, acts, acts', Take(p, v));
    acts' := EndFanOut(c, acts, acts', p);
    forall k | IsOut(Exec(c, acts').value, k)
      ensures By(Exec(c, acts').value.outs[k].log, p) == Exec(c, acts').value.producers[p].ingested
    {
      ExactDelivery(c, acts', p, k);
    }
  }

  /** And when the stream has ended its producer can end, while the others go on. */
  lemma {:induction false} InputCanEnd(c: Config, acts: seq<Action>, p: int) returns (acts': seq<Action>)
    requires c.Valid() && Exec(c, acts).Some? && Working(Exec(c, acts).value) && IsProducer(Exec(c, acts).value, p) && p != 0
    requires !Exec(c, acts).value.producers[p].pc.Exited?
    ensures acts <= acts' && Exec(c, acts').Some? && Working(Exec(c, acts').value)
    ensures IsProducer(Exec(c, acts').value, p) && Exec(c, acts').value.producers[p].pc.Exited?
  {
    acts' := acts;
    if InFanOut(Exec(c, acts).value, p) {
      acts' := EndFanOut(c, acts, acts, p);
    }
    if Exec(c, acts').value.producers[p].valOpen {
      ExecSnoc(c, acts', EndValues(p));
      acts' := acts' + [EndValues(p)];
    }
    if Exec(c, acts').value.producers[p].errOpen {
      ExecSnoc(c, acts', EndErrors(p));
      acts' := acts' + [EndErrors(p)];
    }
    ExecSnoc(c, acts', Exit(p));
    acts' := acts' + [Exit(p)];
  }

  // ---- Errors ----

  /** What a fan-out of an error does to the error channels from output n on. */
  ghost predicate ErrorOffered(c: Config, s: State, t: State, n: int) {
    && |t.outs| == |s.outs|
    && forall k | IsOut(s, k) ::
         t.outs[k].errQueued == s.outs[k].errQueued + if n <= k < c.sinks && s.outs[k].errQueued < c.buffer then 1 else 0
  }

  lemma ErrorMove(c: Config, s: State, p: int)
    requires c.Valid() && Shape(c, s) && Working(s) && IsProducer(s, p) && s.producers[p].pc.FanOutErr?
    requires s.producers[p].pc.next < c.Outs()
    ensures Enabled(c, s, DeliverErr(p))
    ensures var t, n := Fire(c, s, DeliverErr(p)), s.producers[p].pc.next;
            && IsProducer(t, p) && t.producers[p].pc == FanOutErr(n + 1) && |t.outs| == |s.outs|
            && (forall k | IsOut(s, k) && k != n :: t.outs[k] == s.outs[k])
            && t.outs[n].errQueued == s.outs[n].errQueued + if n < c.sinks && s.outs[n].errQueued < c.buffer then 1 else 0
  {
    ShapeKept(c, s, DeliverErr(p));
  }

  lemma {:induction false} EndErrorFanOut(c: Config, start: seq<Action>, acts: seq<Action>, p: int)
    returns (acts': seq<Action>)
    requires Onward(c, start, acts) && IsProducer(Exec(c, acts).value, p) && Exec(c, acts).value.producers[p].pc.FanOutErr?
    ensures Onward(c, start, acts')
    ensures IsProducer(Exec(c, acts').value, p) && Exec(c, acts').value.producers[p].pc.Selecting?
    ensures ErrorOffered(c, Exec(c, acts).value, Exec(c, acts').value, Exec(c, acts).value.producers[p].pc.next)
    decreases c.Outs() - Exec(c, acts).value.producers[p].pc.next
  {
    hide OnlyMoves;
    RunKeepsInv(c, acts);
    var s := Exec(c, acts).value;
    if s.producers[p].pc.next == c.Outs() {
      acts' := Move(c, start, acts, Finish(p));
    } else {
      ErrorMove(c, s, p);
      var next := Move(c, start, acts, DeliverErr(p));
      acts' := EndErrorFanOut(c, start, next, p);
    }
  }

  /** An error of an input can be taken, and is then offered to every sink: it gets it if its error
      channel has room. */
  lemma {:induction false} ErrorCanArrive(c: Config, acts: seq<Action>, p: int) returns (acts': seq<Action>)
    requires c.Valid() && Exec(c, acts).Some? && Working(Exec(c, acts).value) && IsProducer(Exec(c, acts).value, p)
    requires Exec(c, acts).value.producers[p].errOpen && Exec(c, acts).value.producers[p].pc.Selecting?
    ensures acts <= acts' && Exec(c, acts').Some? && Working(Exec(c, acts').value)
    ensures ErrorOffered(c, Exec(c, acts).value, Exec(c, acts').value, 0)
  {
    ExecSnoc(c, acts, TakeErr(p));
    acts' := EndErrorFanOut(c, acts + [TakeErr(p)], acts + [TakeErr(p)], p);
  }
}
