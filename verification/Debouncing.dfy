/** stream.Debounce: which values are let through, and at which step. */
module Debouncing {
  import opened EventLoops
  import opened Wire

  /** Value number index is emitted by the given step. */
  datatype Emission = Emission(index: int, step: int)

  /** The step of the latest arrival among the first i steps. */
  ghost function Latest<V, E>(steps: seq<Step<V, E>>, i: nat): int
    requires i <= |steps|
  {
    var ps := Arrivals(steps[..i]);
    if ps == [] then -1 else ps[|ps| - 1]
  }

  /** Step t is a timer that has reached the deadline of the latest value: d after its arrival, or the
      source's closing. */
  ghost predicate Due<V, E>(steps: seq<Step<V, E>>, t: nat, d: int)
    requires t < |steps|
  {
    && steps[t].event.Timer? && 0 <= Latest(steps, t) < t
    && (!ValuesOpen(steps[..t]) || steps[Latest(steps, t)].at + d <= steps[t].at)
  }

  /** No timer has been due since the latest arrival. */
  ghost predicate Undelivered<V, E>(steps: seq<Step<V, E>>, i: nat, d: int)
    requires i <= |steps|
  {
    0 <= Latest(steps, i) && forall u :: Latest(steps, i) < u < i ==> !Due(steps, u, d)
  }

  /** The latest value goes out at the first timer that is due. */
  ghost predicate Fires<V, E>(steps: seq<Step<V, E>>, t: nat, d: int)
    requires t < |steps|
  {
    Due(steps, t, d) && Undelivered(steps, t, d)
  }

  /** The emissions of the first i steps. */
  ghost function Emitted<V, E>(steps: seq<Step<V, E>>, i: nat, d: int): seq<Emission>
    requires i <= |steps|
    decreases i
  {
    if i == 0 then []
    else Emitted(steps, i - 1, d) + if Fires(steps, i - 1, d) then [Emission(|Taken(steps[..i - 1])| - 1, i - 1)] else []
  }

  lemma LatestNext<V, E>(steps: seq<Step<V, E>>, i: nat)
    requires i < |steps|
    ensures Latest(steps, i) < i
    ensures Latest(steps, i + 1) == if steps[i].event.Value? && ValuesOpen(steps[..i]) then i else Latest(steps, i)
  {
    ArrivalsNext(steps, i);
  }

  /** What one step does to the pending value. */
  lemma UndeliveredNext<V, E>(steps: seq<Step<V, E>>, i: nat, d: int)
    requires i < |steps|
    ensures Undelivered(steps, i + 1, d) <==>
              (steps[i].event.Value? && ValuesOpen(steps[..i])) || (Undelivered(steps, i, d) && !Due(steps, i, d))
  {
    LatestNext(steps, i);
  }

  // ---- What the emissions are ----

  /** Emissions are exactly the steps that fire, in order, each with the latest value. */
  lemma {:induction false} EmittedAre<V, E>(steps: seq<Step<V, E>>, i: nat, j: nat, d: int)
    requires i <= |steps| && j < |Emitted(steps, i, d)|
    ensures var e := Emitted(steps, i, d)[j];
            && 0 <= e.step < i && Fires(steps, e.step, d) && e.index == |Taken(steps[..e.step])| - 1
            && Emitted(steps, e.step, d) == Emitted(steps, i, d)[..j]
    decreases i
  {
    var before := Emitted(steps, i - 1, d);
    if j < |before| {
      EmittedAre(steps, i - 1, j, d);
      assert Emitted(steps, i, d)[..j] == before[..j];
    } else {
      assert Emitted(steps, i, d)[..j] == before;
    }
  }

  lemma {:induction false} FiringEmits<V, E>(steps: seq<Step<V, E>>, i: nat, t: nat, d: int)
    requires t < i <= |steps| && Fires(steps, t, d)
    ensures Emission(|Taken(steps[..t])| - 1, t) in Emitted(steps, i, d)
    decreases i
  {
    if t == i - 1 {
    } else {
      FiringEmits(steps, i - 1, t, d);
    }
  }

  /** The quiet period, on the schedule's own clock: an emitted value is a value of the source, it had
      arrived d or more before, unless the source had closed, and no other value came in between. */
  lemma EmittedAfterQuiet<V, E>(steps: seq<Step<V, E>>, j: nat, d: int)
    requires j < |Emitted(steps, |steps|, d)|
    ensures var e := Emitted(steps, |steps|, d)[j];
            && 0 <= e.index < |Taken(steps)| && 0 <= e.step < |steps| && steps[e.step].event.Timer?
            && Arrivals(steps)[e.index] < e.step
            && (e.index + 1 < |Taken(steps)| ==> e.step < Arrivals(steps)[e.index + 1])
            && (steps[Arrivals(steps)[e.index]].at + d <= steps[e.step].at || !ValuesOpen(steps[..e.step]))
  {
    EmittedAre(steps, |steps|, j, d);
    var e := Emitted(steps, |steps|, d)[j];
    TakenSoFar(steps, e.step);
    ArrivalsSoFar(steps, e.step);
    if e.index + 1 < |Taken(steps)| {
      var next := Arrivals(steps)[e.index + 1];
      ArrivalIs(steps, e.index + 1);
      assert next != e.step;
    }
  }

  /** No value is emitted twice, and values are emitted in order. */
  lemma EmittedInOrder<V, E>(steps: seq<Step<V, E>>, i: nat, j: nat, k: nat, d: int)
    requires i <= |steps| && j < k < |Emitted(steps, i, d)|
    ensures Emitted(steps, i, d)[j].step < Emitted(steps, i, d)[k].step
    ensures Emitted(steps, i, d)[j].index < Emitted(steps, i, d)[k].index
  {
    var es := Emitted(steps, i, d);
    EmittedAre(steps, i, j, d);
    EmittedAre(steps, i, k, d);
    EmittedAre(steps, es[k].step, j, d);
    var t, u := es[j].step, es[k].step;
    assert Due(steps, t, d);
    assert t <= Latest(steps, u);
    LaterArrival(steps, t, u);
  }

  /** A value that arrived at t or later makes the latest value's number grow. */
  lemma LaterArrival<V, E>(steps: seq<Step<V, E>>, t: nat, u: nat)
    requires t <= u <= |steps| && t <= Latest(steps, u)
    ensures |Taken(steps[..t])| < |Taken(steps[..u])|
  {
    assert steps[..u][..t] == steps[..t];
    ArrivalsSoFar(steps[..u], t);
  }

  lemma {:induction false} FirstDueTimerEmits<V, E>(steps: seq<Step<V, E>>, t: nat, u: nat, d: int) returns (v: nat)
    requires t < |steps| && Due(steps, t, d) && Latest(steps, t) < u <= t
    requires forall w :: Latest(steps, t) < w < u ==> !Due(steps, w, d)
    ensures v <= t && Fires(steps, v, d) && Latest(steps, v) == Latest(steps, t)
    ensures Emission(|Taken(steps[..t])| - 1, v) in Emitted(steps, |steps|, d)
    decreases t - u
  {
    SameLatest(steps, u, t);
    if Due(steps, u, d) {
      v := u;
      FiringEmits(steps, |steps|, u, d);
    } else {
      v := FirstDueTimerEmits(steps, t, u + 1, d);
    }
  }

  /** Between the latest arrival and t nothing arrives. */
  lemma SameLatest<V, E>(steps: seq<Step<V, E>>, u: nat, t: nat)
    requires u <= t <= |steps| && Latest(steps, t) < u && 0 <= Latest(steps, t)
    ensures Latest(steps, u) == Latest(steps, t) && |Taken(steps[..u])| == |Taken(steps[..t])|
  {
    assert steps[..t][..u] == steps[..u];
    ArrivalsSoFar(steps[..t], u);
  }

  /** A due timer delivers: at a timer step taken d or more after the latest value's arrival, or after the
      source's closing, that value goes out, unless it has gone out already. */
  lemma DueTimerEmits<V, E>(steps: seq<Step<V, E>>, t: nat, d: int) returns (v: nat)
    requires t < |steps| && steps[t].event.Timer? && Taken(steps[..t]) != []
    requires !ValuesOpen(steps[..t]) || steps[Arrivals(steps[..t])[|Taken(steps[..t])| - 1]].at + d <= steps[t].at
    ensures v <= t && Emission(|Taken(steps[..t])| - 1, v) in Emitted(steps, |steps|, d)
  {
    v := FirstDueTimerEmits(steps, t, Latest(steps, t) + 1, d);
  }

  /** A value that the next one follows within d is dropped. */
  lemma SupersededIsDropped<V, E>(steps: seq<Step<V, E>>, k: nat, d: int)
    requires ClockAdvances(steps) && k + 1 < |Taken(steps)|
    requires steps[Arrivals(steps)[k + 1]].at < steps[Arrivals(steps)[k]].at + d
    ensures forall e :: e in Emitted(steps, |steps|, d) ==> e.index != k
  {
    var es := Emitted(steps, |steps|, d);
    OpenBeforeArrival(steps, k + 1);
    forall e | e in es ensures e.index != k {
      var j :| 0 <= j < |es| && es[j] == e;
      EmittedAfterQuiet(steps, j, d);
    }
  }

  lemma OpenBeforeArrival<V, E>(steps: seq<Step<V, E>>, k: nat)
    requires k < |Taken(steps)|
    ensures forall i :: 0 <= i <= Arrivals(steps)[k] ==> ValuesOpen(steps[..i])
  {
    ArrivalIs(steps, k);
    var p := Arrivals(steps)[k];
    forall i | 0 <= i <= p ensures ValuesOpen(steps[..i]) {
      forall m | 0 <= m < i ensures !steps[..i][m].event.ValuesClosed? {
        assert steps[..i][m] == steps[..p][m];
      }
    }
  }

  // ---- The loop ----

  /** The loop's variables: what has been emitted, the pending value and the timer. */
  datatype Debouncer<+V> = Debouncer(values: seq<V>, emissions: seq<Emission>, pending: Option<V>, timer: Option<int>)

  /** What they hold after i steps. Closed, the timer has no later deadline than the clock. */
  ghost predicate Waiting<V, E>(steps: seq<Step<V, E>>, i: nat, d: int, b: Debouncer<V>)
    requires i <= |steps|
  {
    && b.emissions == Emitted(steps, i, d)
    && Values(steps, i, b)
    && (b.pending.Some? <==> Undelivered(steps, i, d)) && (b.timer.Some? <==> b.pending.Some?)
    && (b.pending.Some? ==> Taken(steps[..i]) != [] && b.pending.value == Taken(steps[..i])[|Taken(steps[..i])| - 1])
    && (b.timer.Some? && ValuesOpen(steps[..i]) ==> b.timer.value == steps[Latest(steps, i)].at + d)
    && (b.timer.Some? && !ValuesOpen(steps[..i]) ==> exists c :: 0 <= c < i && b.timer.value == steps[c].at)
  }

  ghost predicate Values<V, E>(steps: seq<Step<V, E>>, i: nat, b: Debouncer<V>)
    requires i <= |steps|
  {
    && |b.values| == |b.emissions|
    && forall j :: 0 <= j < |b.values| ==>
         0 <= b.emissions[j].index < |Taken(steps[..i])| && b.values[j] == Taken(steps[..i])[b.emissions[j].index]
  }

  lemma ValuesStay<V, E>(steps: seq<Step<V, E>>, i: nat, b: Debouncer<V>)
    requires i < |steps| && Values(steps, i, b)
    ensures Values(steps, i + 1, b)
  {
    TakenNext(steps, i);
  }

  /** When the timer case is ready, the latest value is due, and the other way round. */
  lemma TimerReadyIffDue<V, E>(steps: seq<Step<V, E>>, i: nat, d: int, b: Debouncer<V>)
    requires ClockAdvances(steps) && i < |steps| && Waiting(steps, i, d, b) && steps[i].event.Timer?
    ensures b.timer.Some? && b.timer.value <= steps[i].at <==> Fires(steps, i, d)
  {
    LatestNext(steps, i);
  }

  lemma NothingFires<V, E>(steps: seq<Step<V, E>>, i: nat, d: int)
    requires i < |steps| && !(steps[i].event.Timer? && Fires(steps, i, d))
    ensures Emitted(steps, i + 1, d) == Emitted(steps, i, d)
  {
  }

  /** Steps that neither deliver nor fire. */
  lemma IdleStep<V, E>(steps: seq<Step<V, E>>, i: nat, d: int, b: Debouncer<V>)
    requires i < |steps| && Waiting(steps, i, d, b) && !Fires(steps, i, d)
    requires steps[i].event.Value? || steps[i].event.ValuesClosed? ==> !ValuesOpen(steps[..i])
    ensures Waiting(steps, i + 1, d, b)
  {
    TakenNext(steps, i);
    LatestNext(steps, i);
    UndeliveredNext(steps, i, d);
    ValuesStay(steps, i, b);
    NothingFires(steps, i, d);
  }

  /** Closing the source makes a pending value due at once. */
  lemma ClosingStep<V, E>(steps: seq<Step<V, E>>, i: nat, d: int, b: Debouncer<V>)
    requires i < |steps| && Waiting(steps, i, d, b) && steps[i].event.ValuesClosed?
    ensures Waiting(steps, i + 1, d, if b.pending.Some? then b.(timer := Some(steps[i].at)) else b)
  {
    TakenNext(steps, i);
    LatestNext(steps, i);
    UndeliveredNext(steps, i, d);
    ValuesStay(steps, i, b);
    NothingFires(steps, i, d);
  }

  /** A new value replaces the pending one and restarts the timer. */
  lemma ArrivalStep<V, E>(steps: seq<Step<V, E>>, i: nat, d: int, b: Debouncer<V>, v: V)
    requires i < |steps| && Waiting(steps, i, d, b) && steps[i].event == Value(v) && ValuesOpen(steps[..i])
    ensures Waiting(steps, i + 1, d, b.(pending := Some(v), timer := Some(steps[i].at + d)))
  {
    TakenNext(steps, i);
    LatestNext(steps, i);
    UndeliveredNext(steps, i, d);
    ValuesStay(steps, i, b);
    NothingFires(steps, i, d);
  }

  /** The timer fires: the pending value goes out. */
  lemma EmissionStep<V, E>(steps: seq<Step<V, E>>, i: nat, d: int, b: Debouncer<V>)
    requires i < |steps| && Waiting(steps, i, d, b) && Fires(steps, i, d)
    ensures Waiting(steps, i + 1, d, Debouncer(b.values + [b.pending.value],
                                               b.emissions + [Emission(|Taken(steps[..i])| - 1, i)], None, None))
  {
    TakenNext(steps, i);
    UndeliveredNext(steps, i, d);
    ValuesStay(steps, i, b);
  }

  /** What the loop knows after i steps. */
  ghost predicate Running<V, E>(steps: seq<Step<V, E>>, i: nat, d: int, b: Debouncer<V>, count: int,
                                valuesOpen: bool, errorsOpen: bool, errs: seq<E>)
    requires i <= |steps|
  {
    Waiting(steps, i, d, b) && Tracking(steps, i, valuesOpen, errorsOpen, errs) && count == |Taken(steps[..i])|
  }

  /** What step i has to send, an error or the latest value, is sent. */
  ghost predicate SentBy<V, E>(steps: seq<Step<V, E>>, i: nat, d: int)
    requires i < |steps|
  {
    (steps[i].event.Failure? && ErrorsOpen(steps[..i])) || Fires(steps, i, d) ==> steps[i].sent
  }

  /** The case that step i takes. count is how many values have been received. returned tells that the
      goroutine returned instead. */
  method DebounceStep<V, E>(steps: seq<Step<V, E>>, i: nat, d: int, b: Debouncer<V>, count: int,
                            valuesOpen: bool, errorsOpen: bool, errs: seq<E>)
    returns (b': Debouncer<V>, count': int, valuesOpen': bool, errorsOpen': bool, errs': seq<E>, returned: bool)
    requires ClockAdvances(steps) && i < |steps| && Running(steps, i, d, b, count, valuesOpen, errorsOpen, errs)
    ensures returned <==> steps[i].event.Cancelled? || !SentBy(steps, i, d)
    ensures returned ==> steps[i].event.Cancelled? || !steps[i].sent
    ensures !returned ==> Running(steps, i + 1, d, b', count', valuesOpen', errorsOpen', errs')
  {
    TakenNext(steps, i);
    b', count', valuesOpen', errorsOpen', errs', returned := b, count, valuesOpen, errorsOpen, errs, false;
    match steps[i].event {
      case Cancelled => returned := true;
      case ErrorsClosed =>
        IdleStep(steps, i, d, b);
        errorsOpen' := false;
      case ValuesClosed =>
        if valuesOpen {
          ClosingStep(steps, i, d, b);
          if b.pending.Some? { b' := b.(timer := Some(steps[i].at)); }
          valuesOpen' := false;
        } else {
          IdleStep(steps, i, d, b);
        }
      case Value(v) =>
        if valuesOpen {
          ArrivalStep(steps, i, d, b, v);
          b', count' := b.(pending := Some(v), timer := Some(steps[i].at + d)), count + 1;
        } else {
          IdleStep(steps, i, d, b);
        }
      case Failure(e) =>
        IdleStep(steps, i, d, b);
        if errorsOpen {
          if steps[i].sent { errs' := errs + [e]; } else { returned := true; }
        }
      case Timer =>
        TimerReadyIffDue(steps, i, d, b);
        if b.timer.Some? && b.timer.value <= steps[i].at {
          EmissionStep(steps, i, d, b);
          if steps[i].sent {
            b' := Debouncer(b.values + [b.pending.value], b.emissions + [Emission(count - 1, i)], None, None);
          } else {
            returned := true;
          }
        } else {
          IdleStep(steps, i, d, b);
        }
    }
  }

  lemma NothingPendingYet<V, E>(steps: seq<Step<V, E>>, d: int)
    ensures Running(steps, 0, d, Debouncer([], [], None, None), 0, true, true, [])
  {
  }

  /** The select loop: it goes on while a channel is open or a value is pending. */
  method DebounceLoop<V, E>(steps: seq<Step<V, E>>, d: int)
    returns (b: Debouncer<V>, valuesOpen: bool, errorsOpen: bool, errs: seq<E>, ran: nat)
    requires ClockAdvances(steps)
    ensures ran <= |steps| && Waiting(steps, ran, d, b) && Tracking(steps, ran, valuesOpen, errorsOpen, errs)
    ensures EndsAt(steps, ran, b.pending.Some?) && forall i | 0 <= i < ran :: SentBy(steps, i, d)
    ensures ran < |steps| && (b.pending.Some? || ValuesOpen(steps[..ran]) || ErrorsOpen(steps[..ran])) ==>
              steps[ran].event.Cancelled? || !SentBy(steps, ran, d)
  {
    hide Waiting, ValuesOpen, ErrorsOpen, Failed, SentBy;
    b, valuesOpen, errorsOpen, errs, ran := Debouncer([], [], None, None), true, true, [], 0;
    NothingPendingYet(steps, d);
    var count := 0;
    while ran < |steps| && (valuesOpen || errorsOpen || b.pending.Some?)
      invariant ran <= |steps| && Running(steps, ran, d, b, count, valuesOpen, errorsOpen, errs)
      invariant forall i | 0 <= i < ran :: !steps[i].event.Cancelled? && SentBy(steps, i, d)
    {
      var b', count', valuesOpen', errorsOpen', errs', returned :=
        DebounceStep(steps, ran, d, b, count, valuesOpen, errorsOpen, errs);
      if returned { return; }
      b, count, valuesOpen, errorsOpen, errs, ran := b', count', valuesOpen', errorsOpen', errs', ran + 1;
    }
  }

  /** With the source closed and nothing pending, nothing more is emitted. */
  lemma {:induction false} NoMoreEmissions<V, E>(steps: seq<Step<V, E>>, i: nat, j: nat, d: int)
    requires i <= j <= |steps| && !ValuesOpen(steps[..i]) && !Undelivered(steps, i, d)
    ensures Emitted(steps, j, d) == Emitted(steps, i, d) && !Undelivered(steps, j, d) && !ValuesOpen(steps[..j])
    decreases j
  {
    if i == j {
    } else {
      NoMoreEmissions(steps, i, j - 1, d);
      TakenNext(steps, j - 1);
      UndeliveredNext(steps, j - 1, d);
    }
  }

  /** A step that leaves nothing pending took no value; it fired, or nothing was pending before. */
  lemma IdleSince<V, E>(steps: seq<Step<V, E>>, i: nat, d: int)
    requires i < |steps| && !Undelivered(steps, i + 1, d)
    ensures Taken(steps[..i + 1]) == Taken(steps[..i]) && (Fires(steps, i, d) || !Undelivered(steps, i, d))
  {
    TakenNext(steps, i);
    UndeliveredNext(steps, i, d);
  }

  ghost function LastIndex(es: seq<Emission>): int {
    if es == [] then -1 else es[|es| - 1].index
  }

  /** An idle state has emitted the latest value last, if there was one. */
  lemma {:induction false} LastIsEmitted<V, E>(steps: seq<Step<V, E>>, i: nat, d: int)
    requires i <= |steps| && !Undelivered(steps, i, d)
    ensures LastIndex(Emitted(steps, i, d)) == |Taken(steps[..i])| - 1
    decreases i
  {
    if i == 0 {
    } else {
      IdleSince(steps, i - 1, d);
      if Fires(steps, i - 1, d) {
        EmittedNow(steps, i - 1, d);
      } else {
        LastIsEmitted(steps, i - 1, d);
        assert Emitted(steps, i, d) == Emitted(steps, i - 1, d);
      }
    }
  }

  lemma EmittedNow<V, E>(steps: seq<Step<V, E>>, i: nat, d: int)
    requires i < |steps| && Fires(steps, i, d)
    ensures LastIndex(Emitted(steps, i + 1, d)) == |Taken(steps[..i])| - 1
  {}

  lemma DebouncedSoFar<V, E>(steps: seq<Step<V, E>>, i: nat, d: int, b: Debouncer<V>)
    requires i <= |steps| && Waiting(steps, i, d, b)
    ensures b.emissions == Emitted(steps, i, d) && (b.timer.Some? <==> b.pending.Some?)
  {
    hide Emitted;
  }

  /** The loop has nothing more to wait for, or the schedule is over. */
  lemma DebouncedAll<V, E>(steps: seq<Step<V, E>>, i: nat, d: int, b: Debouncer<V>, errs: seq<E>)
    requires i <= |steps| && Waiting(steps, i, d, b) && errs == Failed(steps[..i])
    requires i == |steps| || (!ValuesOpen(steps[..i]) && !ErrorsOpen(steps[..i]) && b.pending.None?)
    ensures b.emissions == Emitted(steps, |steps|, d) && errs == Failed(steps)
    ensures |b.values| == |b.emissions| && forall j :: 0 <= j < |b.values| ==>
      0 <= b.emissions[j].index < |Taken(steps)| && b.values[j] == Taken(steps)[b.emissions[j].index]
  {
    hide Emitted, Taken, Failed, ValuesOpen, ErrorsOpen, Undelivered;
    TakenSoFar(steps, i);
    if i == |steps| {
      assert steps[..i] == steps;
    } else {
      NoMoreEmissions(steps, i, |steps|, d);
    }
  }

  lemma DebouncedLast<V, E>(steps: seq<Step<V, E>>, i: nat, d: int, b: Debouncer<V>)
    requires i <= |steps| && Waiting(steps, i, d, b) && !ValuesOpen(steps[..i]) && b.pending.None? && Taken(steps) != []
    ensures b.values != [] && b.values[|b.values| - 1] == Taken(steps)[|Taken(steps)| - 1]
  {
    hide Emitted, Taken, ValuesOpen, Undelivered;
    TakenSoFar(steps, i);
    LastIsEmitted(steps, i, d);
  }

  /** The whole operator. What it emits and forwards is what the steps before ran give, where ran is the
      first step that sees a done context, if a channel is open then and no send was given up before.
      Uncancelled it emits exactly what the schedule's timers let through; the timer is armed exactly
      while a value is pending, so the loop always has a case to wait for; and when it has ended by itself
      the last value of the source was emitted last. */
  method Debounce<V, E>(steps: seq<Step<V, E>>, d: int)
    returns (values: seq<V>, emissions: seq<Emission>, pending: Option<V>, timer: Option<int>,
             errs: seq<E>, ran: nat, ended: bool)
    requires ClockAdvances(steps)
    ensures ran <= |steps| && Waiting(steps, ran, d, Debouncer(values, emissions, pending, timer))
    ensures emissions == Emitted(steps, ran, d) && errs == Failed(steps[..ran])
    ensures EndsAt(steps, ran, pending.Some?) && forall i | 0 <= i < ran :: SentBy(steps, i, d)
    ensures ran < |steps| && (pending.Some? || ValuesOpen(steps[..ran]) || ErrorsOpen(steps[..ran])) ==>
              steps[ran].event.Cancelled? || !SentBy(steps, ran, d)
    ensures forall c: nat | c < |steps| && steps[c].event.Cancelled? && Uncancelled(steps[..c]) &&
              (ValuesOpen(steps[..c]) || ErrorsOpen(steps[..c])) :: ran == c
    ensures Uncancelled(steps) ==> emissions == Emitted(steps, |steps|, d) && errs == Failed(steps)
    ensures Uncancelled(steps) ==> |values| == |emissions| && forall j :: 0 <= j < |values| ==>
      0 <= emissions[j].index < |Taken(steps)| && values[j] == Taken(steps)[emissions[j].index]
    ensures Uncancelled(steps) && !ended ==> ValuesOpen(steps) || ErrorsOpen(steps) || timer.Some?
    ensures Uncancelled(steps) && ended && Taken(steps) != [] ==>
      values != [] && values[|values| - 1] == Taken(steps)[|Taken(steps)| - 1]
  {
    hide Emitted, Taken, Failed, ValuesOpen, ErrorsOpen, Waiting, SentBy;
    var b, valuesOpen, errorsOpen;
    b, valuesOpen, errorsOpen, errs, ran := DebounceLoop(steps, d);
    values, emissions, pending, timer := b.values, b.emissions, b.pending, b.timer;
    ended := !valuesOpen && !errorsOpen && pending.None?;
    DoneContextEndsLoop(steps, ran, pending.Some?);
    DebouncedSoFar(steps, ran, d, b);
    if ran == |steps| || ended { DebouncedAll(steps, ran, d, b, errs); }
    if ended && Taken(steps) != [] { DebouncedLast(steps, ran, d, b); }
    assert ran == |steps| ==> steps[..ran] == steps;
  }
}
