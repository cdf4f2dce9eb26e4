/** What the stream operators' goroutines have in common: a select loop over a values channel, an
    errors channel, possibly a timer, and the context. A schedule lists the cases the select takes;
    every list is a schedule, because a case whose channel is nil or not ready is never taken and
    its step does nothing. */
module EventLoops {
  datatype Event<+V, +E> =
    | Value(v: V) | ValuesClosed
    | Failure(e: E) | ErrorsClosed
    | Timer | Cancelled

  /** at is the clock when the case is taken. sent tells whether a send made in this step was
      received; it is false only when the context is done and the inner select prefers that. */
  datatype Step<+V, +E> = Step(event: Event<V, E>, at: int, sent: bool)

  /** No step sees a done context. */
  ghost predicate Uncancelled<V, E>(steps: seq<Step<V, E>>) {
    forall i | 0 <= i < |steps| :: steps[i].sent && !steps[i].event.Cancelled?
  }

  ghost predicate ClockAdvances<V, E>(steps: seq<Step<V, E>>) {
    forall i, j | 0 <= i <= j < |steps| :: steps[i].at <= steps[j].at
  }

  predicate ValuesOpen<V, E>(steps: seq<Step<V, E>>) {
    forall i | 0 <= i < |steps| :: !steps[i].event.ValuesClosed?
  }

  predicate ErrorsOpen<V, E>(steps: seq<Step<V, E>>) {
    forall i | 0 <= i < |steps| :: !steps[i].event.ErrorsClosed?
  }

  /** The values the source delivers before closing. */
  function Taken<V, E>(steps: seq<Step<V, E>>): seq<V> {
    if steps == [] then []
    else
      var n := |steps| - 1;
      Taken(steps[..n]) + if steps[n].event.Value? && ValuesOpen(steps[..n]) then [steps[n].event.v] else []
  }

  function Failed<V, E>(steps: seq<Step<V, E>>): seq<E> {
    if steps == [] then []
    else
      var n := |steps| - 1;
      Failed(steps[..n]) + if steps[n].event.Failure? && ErrorsOpen(steps[..n]) then [steps[n].event.e] else []
  }

  lemma TakenNext<V, E>(steps: seq<Step<V, E>>, i: nat)
    requires i < |steps|
    ensures Taken(steps[..i + 1]) ==
              Taken(steps[..i]) + if steps[i].event.Value? && ValuesOpen(steps[..i]) then [steps[i].event.v] else []
    ensures Failed(steps[..i + 1]) ==
              Failed(steps[..i]) + if steps[i].event.Failure? && ErrorsOpen(steps[..i]) then [steps[i].event.e] else []
    ensures ValuesOpen(steps[..i + 1]) <==> ValuesOpen(steps[..i]) && !steps[i].event.ValuesClosed?
    ensures ErrorsOpen(steps[..i + 1]) <==> ErrorsOpen(steps[..i]) && !steps[i].event.ErrorsClosed?
  {
    assert steps[..i + 1][..i] == steps[..i];
  }

  /** What was taken by some point is a prefix of what is taken in the end, and all of it once the
      channels have closed. */
  lemma {:induction false} TakenSoFar<V, E>(steps: seq<Step<V, E>>, i: nat)
    requires i <= |steps|
    ensures Taken(steps[..i]) <= Taken(steps) && Failed(steps[..i]) <= Failed(steps)
    ensures !ValuesOpen(steps[..i]) ==> Taken(steps[..i]) == Taken(steps)
    ensures !ErrorsOpen(steps[..i]) ==> Failed(steps[..i]) == Failed(steps)
    decreases |steps|
  {
    if i < |steps| {
      var n := |steps| - 1;
      TakenSoFar(steps[..n], i);
      assert steps[..n][..i] == steps[..i];
      TakenNext(steps, n);
      assert steps[..n + 1] == steps;
      if !ValuesOpen(steps[..i]) {
        var k :| 0 <= k < i && steps[..i][k].event.ValuesClosed?;
        assert steps[..n][k].event.ValuesClosed?;
      }
      if !ErrorsOpen(steps[..i]) {
        var k :| 0 <= k < i && steps[..i][k].event.ErrorsClosed?;
        assert steps[..n][k].event.ErrorsClosed?;
      }
    } else {
      assert steps[..i] == steps;
    }
  }

  /** What a loop knows of its two channels, and the errors it has forwarded. */
  ghost predicate Tracking<V, E>(steps: seq<Step<V, E>>, i: nat, valuesOpen: bool, errorsOpen: bool, errs: seq<E>)
    requires i <= |steps|
  {
    valuesOpen == ValuesOpen(steps[..i]) && errorsOpen == ErrorsOpen(steps[..i]) && errs == Failed(steps[..i])
  }

  // ---- Where a loop ends ----

  /** A loop that has come to step ran saw no done context before. It has not ended by itself while a
      channel is open or it holds something pending, so then the schedule is over, or the context is
      done, or the send of that step is given up. */
  ghost predicate EndsAt<V, E>(steps: seq<Step<V, E>>, ran: nat, pending: bool) {
    && ran <= |steps|
    && (forall i | 0 <= i < ran :: !steps[i].event.Cancelled?)
    && (ran < |steps| && (pending || ValuesOpen(steps[..ran]) || ErrorsOpen(steps[..ran])) ==>
          steps[ran].event.Cancelled? || !steps[ran].sent)
  }

  /** Every error received before step ran from the open channel has been sent on. */
  ghost predicate ErrorsSent<V, E>(steps: seq<Step<V, E>>, ran: nat)
    requires ran <= |steps|
  {
    forall i | 0 <= i < ran && steps[i].event.Failure? && ErrorsOpen(steps[..i]) :: steps[i].sent
  }

  /** A done context is where the loop ends: if step c is the first to see it, no earlier send was given
      up and a channel is still open then, the loop has come exactly to c. */
  lemma DoneContextEnds<V, E>(steps: seq<Step<V, E>>, ran: nat, pending: bool, c: nat)
    requires EndsAt(steps, ran, pending) && c < |steps| && steps[c].event.Cancelled? && Uncancelled(steps[..c])
    requires ValuesOpen(steps[..c]) || ErrorsOpen(steps[..c])
    ensures ran == c
  {
    if ran < c {
      assert steps[..c][ran] == steps[ran];
      OpenBefore(steps, ran, c);
    }
  }

  lemma DoneContextEndsLoop<V, E>(steps: seq<Step<V, E>>, ran: nat, pending: bool)
    requires EndsAt(steps, ran, pending)
    ensures forall c: nat | c < |steps| && steps[c].event.Cancelled? && Uncancelled(steps[..c]) &&
              (ValuesOpen(steps[..c]) || ErrorsOpen(steps[..c])) :: ran == c
  {
    forall c: nat | c < |steps| && steps[c].event.Cancelled? && Uncancelled(steps[..c]) &&
      (ValuesOpen(steps[..c]) || ErrorsOpen(steps[..c]))
      ensures ran == c
    {
      DoneContextEnds(steps, ran, pending, c);
    }
  }

  lemma OpenBefore<V, E>(steps: seq<Step<V, E>>, i: nat, j: nat)
    requires i <= j <= |steps|
    ensures ValuesOpen(steps[..j]) ==> ValuesOpen(steps[..i])
    ensures ErrorsOpen(steps[..j]) ==> ErrorsOpen(steps[..i])
  {
    forall k | 0 <= k < i ensures steps[..i][k] == steps[..j][k] {}
  }

  // ---- When values arrive ----

  /** The steps that deliver the values of Taken, in order. */
  function Arrivals<V, E>(steps: seq<Step<V, E>>): (ps: seq<int>)
    ensures |ps| == |Taken(steps)|
    ensures forall k :: 0 <= k < |ps| ==> 0 <= ps[k] < |steps|
  {
    if steps == [] then []
    else
      var n := |steps| - 1;
      Arrivals(steps[..n]) + if steps[n].event.Value? && ValuesOpen(steps[..n]) then [n] else []
  }

  lemma ArrivalsNext<V, E>(steps: seq<Step<V, E>>, i: nat)
    requires i < |steps|
    ensures Arrivals(steps[..i + 1]) ==
              Arrivals(steps[..i]) + if steps[i].event.Value? && ValuesOpen(steps[..i]) then [i] else []
  {
    assert steps[..i + 1][..i] == steps[..i];
  }

  /** Each is the value step that delivers its value; the values before it came earlier. */
  lemma {:induction false} ArrivalIs<V, E>(steps: seq<Step<V, E>>, k: nat)
    requires k < |Arrivals(steps)|
    ensures steps[Arrivals(steps)[k]].event == Value(Taken(steps)[k])
    ensures |Taken(steps[..Arrivals(steps)[k]])| == k && ValuesOpen(steps[..Arrivals(steps)[k]])
  {
    var n := |steps| - 1;
    if k == |Arrivals(steps[..n])| {
    } else {
      ArrivalIs(steps[..n], k);
      assert steps[..n][..Arrivals(steps)[k]] == steps[..Arrivals(steps)[k]];
    }
  }

  /** And every value step before the closing delivers one of them. */
  lemma {:induction false} ArrivalListed<V, E>(steps: seq<Step<V, E>>, i: nat)
    requires i < |steps| && steps[i].event.Value? && ValuesOpen(steps[..i])
    ensures i in Arrivals(steps)
  {
    var n := |steps| - 1;
    if i < n {
      assert steps[..n][..i] == steps[..i];
      ArrivalListed(steps[..n], i);
    }
  }

  lemma {:induction false} ArrivalsIncrease<V, E>(steps: seq<Step<V, E>>, j: nat, k: nat)
    requires j < k < |Arrivals(steps)|
    ensures Arrivals(steps)[j] < Arrivals(steps)[k]
  {
    var n := |steps| - 1;
    if k == |Arrivals(steps[..n])| {
    } else {
      ArrivalsIncrease(steps[..n], j, k);
    }
  }

  /** The arrivals of the first i steps are the arrivals before i. */
  lemma {:induction false} ArrivalsSoFar<V, E>(steps: seq<Step<V, E>>, i: nat)
    requires i <= |steps|
    ensures Arrivals(steps[..i]) <= Arrivals(steps)
    ensures forall k :: |Arrivals(steps[..i])| <= k < |Arrivals(steps)| ==> i <= Arrivals(steps)[k]
    ensures !ValuesOpen(steps[..i]) ==> Arrivals(steps[..i]) == Arrivals(steps)
    decreases |steps|
  {
    if i == |steps| {
      assert steps[..i] == steps;
    } else {
      var n := |steps| - 1;
      ArrivalsSoFar(steps[..n], i);
      assert steps[..n][..i] == steps[..i];
      if !ValuesOpen(steps[..i]) {
        var k :| 0 <= k < i && steps[..i][k].event.ValuesClosed?;
        assert steps[..n][k].event.ValuesClosed?;
      }
    }
  }
}
