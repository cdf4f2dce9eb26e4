/** A Close that waits can always return: from every state, by the port's own steps alone. */
module SinkDraining {
  import opened Logs
  import opened SinkPush
  import opened SinkClosing
  import opened Wire

  // ---- How much there is left to do ----

  function LoadOf(k: Sink): nat {
    |k.queue| + if k.gone then 0 else 1
  }

  /** The items in the sinks' queues and the adapters that have not exited. */
  function Load(sinks: seq<Sink>): nat {
    if sinks == [] then 0 else Load(Init(sinks)) + LoadOf(Last(sinks))
  }

  lemma {:induction false} LoadUpdated(sinks: seq<Sink>, k: nat, n: Sink)
    requires k < |sinks|
    ensures Load(sinks[k := n]) == Load(sinks) - LoadOf(sinks[k]) + LoadOf(n)
    decreases |sinks|
  {
    var updated := sinks[k := n];
    if k == |sinks| - 1 {
      assert Init(updated) == Init(sinks);
    } else {
      LoadUpdated(Init(sinks), k, n);
      assert Init(updated) == Init(sinks)[k := n];
    }
  }

  function RelayRank(relay: Relay): nat {
    match relay case Holding(_) => 2 case Idle => 1 case Gone => 0
  }

  function OpenEnds(s: State): nat {
    (if s.valOpen then 1 else 0) + if s.errOpen then 1 else 0
  }

  /** How far the drain is from its end, an item it is sending first. */
  function DrainRank(drain: Drain, sinks: nat): nat {
    match drain
    case Sending(_, n) => if 0 <= n <= sinks then sinks + 5 + (sinks - n) else sinks + 5
    case Selecting => sinks + 4
    case ClosingSinks(n) => if 0 <= n <= sinks then 3 + (sinks - n) else 3
    case WaitingAdapters => 2
    case Finished => 1
  }

  /** Less is left in t than in s: of pushed items first, then for the relay, the drain, the adapters. */
  ghost predicate LessLeft(t: State, s: State) {
    || |t.pushQueue| < |s.pushQueue|
    || (|t.pushQueue| == |s.pushQueue| && RelayRank(t.relay) < RelayRank(s.relay))
    || (|t.pushQueue| == |s.pushQueue| && t.relay == s.relay && SmallerDrain(t, s))
  }

  ghost predicate SmallerDrain(t: State, s: State) {
    var m, n := DrainRank(t.drain, |t.sinks|), DrainRank(s.drain, |s.sinks|);
    || OpenEnds(t) < OpenEnds(s)
    || (OpenEnds(t) == OpenEnds(s) && (m < n || (m == n && Load(t.sinks) < Load(s.sinks))))
  }

  /** A step of the port's own that brings the end nearer and changes nothing for the callers. */
  ghost predicate Advances(c: Config, s: State, a: Action) {
    && Internal(a) && Enabled(c, s, a) && LessLeft(Fire(c, s, a), s)
    && SameCallers(s, Fire(c, s, a))
  }

  ghost predicate SameCallers(s: State, t: State) {
    && t.waiting == s.waiting && t.returned == s.returned && t.cancelled == s.cancelled
    && t.accepted == s.accepted && t.pushClosed == s.pushClosed
  }

  // ---- The next step ----

  lemma ConsumeAdvances(c: Config, s: State, k: int)
    requires Enabled(c, s, Consume(k))
    ensures Advances(c, s, Consume(k))
  {
    var n := s.sinks[k];
    LoadUpdated(s.sinks, k, n.(queue := n.queue[1..], consumed := n.consumed + [n.queue[0]]));
  }

  lemma ExitAdvances(c: Config, s: State, k: int)
    requires Enabled(c, s, AdapterExit(k))
    ensures Advances(c, s, AdapterExit(k))
  {
    LoadUpdated(s.sinks, k, s.sinks[k].(gone := true));
  }

  lemma AdvanceSending(c: Config, s: State) returns (a: Action)
    requires Shape(c, s) && EndsInOrder(s) && s.drain.Sending?
    ensures Advances(c, s, a)
  {
    if s.cancelled {
      a := SendAbort;
    } else if s.drain.next == |s.sinks| {
      a := SendEnd;
    } else if s.sinks[s.drain.next].queue != [] {
      a := Consume(s.drain.next);
      ConsumeAdvances(c, s, s.drain.next);
    } else {
      a := SinkHand;
    }
  }

  lemma AdvanceSelecting(c: Config, s: State) returns (a: Action)
    requires Shape(c, s) && EndsInOrder(s) && s.drain.Selecting? && Running(s) && s.pushClosed
    ensures Advances(c, s, a)
  {
    if s.cancelled {
      a := DrainExit;
    } else if s.relay.Holding? {
      a := HandOver;
    } else if s.relay.Gone? {
      a := if s.valOpen then SeeValuesEnd else if s.errOpen then SeeErrorsEnd else DrainExit;
    } else {
      a := if s.pushQueue != [] then RelayTake else RelayEnd;
    }
  }

  lemma AdvanceEnding(c: Config, s: State) returns (a: Action)
    requires Shape(c, s) && EndsInOrder(s) && (s.drain.ClosingSinks? || s.drain.WaitingAdapters?)
    ensures Advances(c, s, a)
  {
    if s.drain.ClosingSinks? {
      a := CloseSink;
    } else if k :| IsSink(s, k) && !s.sinks[k].gone {
      assert s.sinks[k].closed <==> SinkClosedBy(s, k);
      if s.sinks[k].queue != [] {
        a := Consume(k);
        ConsumeAdvances(c, s, k);
      } else {
        a := AdapterExit(k);
        ExitAdvances(c, s, k);
      }
    } else {
      a := AdaptersDone;
    }
  }

  lemma NextAdvance(c: Config, s: State) returns (a: Action)
    requires Shape(c, s) && EndsInOrder(s) && Running(s) && s.pushClosed && !s.drain.Finished?
    ensures Advances(c, s, a)
  {
    hide Advances;
    if s.drain.Sending? {
      a := AdvanceSending(c, s);
    } else if s.drain.Selecting? {
      a := AdvanceSelecting(c, s);
    } else {
      a := AdvanceEnding(c, s);
    }
  }

  // ---- To the end ----

  /** Only steps of the port's own goroutines and adapters after the first n. */
  ghost predicate OwnSteps(acts: seq<Action>, n: nat) {
    forall i | n <= i < |acts| :: Internal(acts[i])
  }

  /** The drain finishes: from every state in which Close has closed the push channel, cancelled or not,
      the port can get there without any further call. */
  lemma {:induction false} DrainCanFinish(c: Config, acts: seq<Action>) returns (acts': seq<Action>)
    requires Exec(c, acts).Some? && Exec(c, acts).value.pushClosed
    ensures acts <= acts' && OwnSteps(acts', |acts|) && Exec(c, acts').Some?
    ensures Exec(c, acts').value.drain.Finished? && SameCallers(Exec(c, acts).value, Exec(c, acts').value)
    decreases |Exec(c, acts).value.pushQueue|, RelayRank(Exec(c, acts).value.relay), OpenEnds(Exec(c, acts).value),
              DrainRank(Exec(c, acts).value.drain, |Exec(c, acts).value.sinks|), Load(Exec(c, acts).value.sinks)
  {
    hide Enabled, Fire, Shape, EndsInOrder, Internal;
    RunKeepsInv(c, acts);
    var s := Exec(c, acts).value;
    if s.drain.Finished? {
      acts' := acts;
    } else {
      ClosedRuns(c, s);
      var a := NextAdvance(c, s);
      ExecSnoc(c, acts, a);
      acts' := DrainCanFinish(c, acts + [a]);
      OwnStepsAlso(acts, a, acts');
    }
  }

  lemma ClosedRuns(c: Config, s: State)
    requires Shape(c, s) && s.pushClosed
    ensures Running(s)
  {}

  lemma OwnStepsAlso(acts: seq<Action>, a: Action, acts': seq<Action>)
    requires acts + [a] <= acts' && Internal(a) && OwnSteps(acts', |acts| + 1)
    ensures acts <= acts' && OwnSteps(acts', |acts|)
  {
    hide Internal;
    assert acts'[|acts|] == a;
  }

  /** A Close that waits for the drain can return, cancelled or not, and in an uncancelled run everything
      accepted has been delivered by then. */
  lemma {:induction false} CloseCanReturn(c: Config, acts: seq<Action>, t: int) returns (acts': seq<Action>)
    requires Exec(c, acts).Some? && t in Exec(c, acts).value.waiting
    ensures acts <= acts' && OwnSteps(acts', |acts|) && Exec(c, acts').Some?
    ensures t in Exec(c, acts').value.returned && Exec(c, acts').value.accepted == Exec(c, acts).value.accepted
    ensures !Exec(c, acts).value.cancelled ==> Delivered(Exec(c, acts').value)
  {
    RunKeepsInv(c, acts);
    assert t in Exec(c, acts).value.waiting + Exec(c, acts).value.returned;
    var finished := DrainCanFinish(c, acts);
    ExecSnoc(c, finished, CloseReturn(t));
    acts' := finished + [CloseReturn(t)];
    if !Exec(c, acts).value.cancelled {
      FinishedDelivers(c, acts');
    }
  }
}
