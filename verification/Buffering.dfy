/** stream.Buffer: which values leave together, at which step, and why. */
module Buffering {
  import opened EventLoops
  import opened Wire

  datatype Reason = Full | Elapsed | SourceClosed

  /** The values number lo up to hi are handed to the output as one batch by the given step. */
  datatype Flush = Flush(lo: int, hi: int, step: int, reason: Reason)

  function Capacity(n: int): int {
    if n < 1 then 1 else n
  }

  /** The first value not flushed yet. */
  function End(fs: seq<Flush>): int {
    if fs == [] then 0 else fs[|fs| - 1].hi
  }

  /** When a batch that starts with the given value is due. */
  ghost function Deadline<V, E>(steps: seq<Step<V, E>>, first: int, maxWait: int): int
    requires 0 <= first < |Taken(steps)|
  {
    steps[Arrivals(steps)[first]].at + maxWait
  }

  /** The flush step i makes, if any, when the batch starts with the given value. */
  ghost function FlushBy<V, E>(steps: seq<Step<V, E>>, i: int, first: int, n: int, maxWait: int): Option<Flush>
    requires 0 <= i < |steps| && 0 <= first
  {
    var before := steps[..i];
    var count := |Taken(before)|;
    match steps[i].event
    case Value(_) => if ValuesOpen(before) && count + 1 - first >= n then Some(Flush(first, count + 1, i, Full)) else None
    case ValuesClosed => if ValuesOpen(before) && first < count then Some(Flush(first, count, i, SourceClosed)) else None
    case Timer =>
      if first < count && Deadline(before, first, maxWait) <= steps[i].at then Some(Flush(first, count, i, Elapsed))
      else None
    case _ => None
  }

  ghost function With(fs: seq<Flush>, f: Option<Flush>): seq<Flush> {
    if f.Some? then fs + [f.value] else fs
  }

  /** The flushes of the first i steps. */
  ghost function Flushes<V, E>(steps: seq<Step<V, E>>, i: nat, n: int, maxWait: int): (fs: seq<Flush>)
    requires i <= |steps|
    ensures 0 <= End(fs)
    decreases i
  {
    if i == 0 then []
    else
      var before := Flushes(steps, i - 1, n, maxWait);
      With(before, FlushBy(steps, i - 1, End(before), n, maxWait))
  }

  lemma {:induction false} FlushesSoFar<V, E>(steps: seq<Step<V, E>>, i: nat, j: nat, n: int, maxWait: int)
    requires i <= j <= |steps|
    ensures Flushes(steps, i, n, maxWait) <= Flushes(steps, j, n, maxWait)
    decreases j
  {
    if i == j {
    } else {
      FlushesSoFar(steps, i, j - 1, n, maxWait);
    }
  }

  // ---- What the flushes are ----

  ghost predicate Contiguous(fs: seq<Flush>) {
    fs == [] || (Contiguous(fs[..|fs| - 1]) && fs[|fs| - 1].lo == End(fs[..|fs| - 1]) && fs[|fs| - 1].lo < fs[|fs| - 1].hi)
  }

  lemma ContiguousSnoc(fs: seq<Flush>, f: Flush)
    requires Contiguous(fs) && f.lo == End(fs) && f.lo < f.hi
    ensures Contiguous(fs + [f]) && End(fs + [f]) == f.hi
  {
    assert (fs + [f])[..|fs|] == fs;
  }

  /** One step keeps fewer than n values waiting, and none once the source has closed. */
  lemma WaitingAfter<V, E>(steps: seq<Step<V, E>>, i: nat, first: int, n: int, maxWait: int)
    requires i < |steps| && 0 <= first <= |Taken(steps[..i])| && |Taken(steps[..i])| - first < Capacity(n)
    requires !ValuesOpen(steps[..i]) ==> first == |Taken(steps[..i])|
    ensures var f := FlushBy(steps, i, first, n, maxWait);
            var next := if f.Some? then f.value.hi else first;
            && (f.Some? ==> f.value.lo == first < f.value.hi)
            && next <= |Taken(steps[..i + 1])| < next + Capacity(n)
            && (!ValuesOpen(steps[..i + 1]) ==> next == |Taken(steps[..i + 1])|)
  {
    TakenNext(steps, i);
  }

  ghost predicate Covering<V, E>(steps: seq<Step<V, E>>, fs: seq<Flush>, n: int) {
    && Contiguous(fs) && 0 <= End(fs) <= |Taken(steps)| < End(fs) + Capacity(n)
    && (!ValuesOpen(steps) ==> End(fs) == |Taken(steps)|)
  }

  lemma CoverStep<V, E>(steps: seq<Step<V, E>>, i: nat, fs: seq<Flush>, n: int, maxWait: int)
    requires i < |steps| && Covering(steps[..i], fs, n)
    ensures Covering(steps[..i + 1], With(fs, FlushBy(steps, i, End(fs), n, maxWait)), n)
  {
    WaitingAfter(steps, i, End(fs), n, maxWait);
    var f := FlushBy(steps, i, End(fs), n, maxWait);
    if f.Some? { ContiguousSnoc(fs, f.value); }
  }

  /** Every value is in one batch, in order, except the current batch's fewer than n; after the
      source's closing every one is. */
  lemma {:induction false} FlushesCover<V, E>(steps: seq<Step<V, E>>, i: nat, n: int, maxWait: int)
    requires i <= |steps|
    ensures Covering(steps[..i], Flushes(steps, i, n, maxWait), n)
    decreases i
  {
    if i == 0 {
    } else {
      FlushesCover(steps, i - 1, n, maxWait);
      CoverStep(steps, i - 1, Flushes(steps, i - 1, n, maxWait), n, maxWait);
    }
  }

  /** At the step that makes the flush exactly the values up to hi have arrived, and the batch is full
      with that very arrival, or a timer has reached the first value's deadline, or the source closes. */
  ghost predicate Justified<V, E>(steps: seq<Step<V, E>>, f: Flush, n: int, maxWait: int) {
    && 0 <= f.lo < f.hi <= |Taken(steps)| && 0 <= f.step < |steps| && f.hi - f.lo <= Capacity(n)
    && |Taken(steps[..f.step])| == (if f.reason.Full? then f.hi - 1 else f.hi)
    && match f.reason
       case Full => f.hi - f.lo == Capacity(n) && Arrivals(steps)[f.hi - 1] == f.step
       case Elapsed =>
         f.hi - f.lo < Capacity(n) && steps[f.step].event.Timer? && Deadline(steps, f.lo, maxWait) <= steps[f.step].at
       case SourceClosed =>
         && f.hi - f.lo < Capacity(n) && steps[f.step].event.ValuesClosed? && ValuesOpen(steps[..f.step])
         && f.hi == |Taken(steps)|
  }

  lemma FlushByJustified<V, E>(steps: seq<Step<V, E>>, i: nat, first: int, n: int, maxWait: int)
    requires i < |steps| && 0 <= first <= |Taken(steps[..i])| < first + Capacity(n)
    requires FlushBy(steps, i, first, n, maxWait).Some?
    ensures Justified(steps, FlushBy(steps, i, first, n, maxWait).value, n, maxWait)
  {
    TakenNext(steps, i);
    TakenSoFar(steps, i + 1);
    ArrivalsNext(steps, i);
    ArrivalsSoFar(steps, i);
    ArrivalsSoFar(steps, i + 1);
    if first < |Taken(steps[..i])| {
      assert steps[..i][Arrivals(steps[..i])[first]] == steps[Arrivals(steps)[first]];
    }
  }

  /** Every flush has its reason, on the schedule's own clock. */
  lemma {:induction false} FlushesJustified<V, E>(steps: seq<Step<V, E>>, i: nat, j: nat, n: int, maxWait: int)
    requires i <= |steps| && j < |Flushes(steps, i, n, maxWait)|
    ensures Justified(steps, Flushes(steps, i, n, maxWait)[j], n, maxWait)
    ensures Flushes(steps, i, n, maxWait)[j].step < i
    decreases i
  {
    var before := Flushes(steps, i - 1, n, maxWait);
    if j < |before| {
      FlushesJustified(steps, i - 1, j, n, maxWait);
    } else {
      FlushesCover(steps, i - 1, n, maxWait);
      FlushByJustified(steps, i - 1, End(before), n, maxWait);
    }
  }

  /** The flush a value is in. */
  lemma {:induction false} FlushOf(fs: seq<Flush>, k: int) returns (i: int)
    requires Contiguous(fs) && 0 <= k < End(fs)
    ensures 0 <= i < |fs| && fs[i].lo <= k < fs[i].hi
  {
    var m := |fs| - 1;
    if fs[m].lo <= k {
      i := m;
    } else {
      i := FlushOf(fs[..m], k);
    }
  }

  /** A due timer flushes: no value is still waiting after a timer step taken maxWait or more after the
      value arrived. */
  lemma DueTimerFlushes<V, E>(steps: seq<Step<V, E>>, t: nat, k: nat, n: int, maxWait: int) returns (i: int)
    requires ClockAdvances(steps) && t < |steps| && steps[t].event.Timer?
    requires k < |Taken(steps[..t])| <= |Taken(steps)| && Deadline(steps, k, maxWait) <= steps[t].at
    ensures var fs := Flushes(steps, |steps|, n, maxWait);
            0 <= i < |fs| && fs[i].lo <= k < fs[i].hi && fs[i].step <= t
  {
    var before := Flushes(steps, t, n, maxWait);
    FlushesSoFar(steps, t, |steps|, n, maxWait);
    if k < End(before) {
      FlushesCover(steps, t, n, maxWait);
      i := FlushOf(before, k);
      FlushesJustified(steps, t, i, n, maxWait);
    } else {
      DueNow(steps, t, k, End(before), n, maxWait);
      FlushesSoFar(steps, t + 1, |steps|, n, maxWait);
      i := |before|;
    }
  }

  lemma DueNow<V, E>(steps: seq<Step<V, E>>, t: nat, k: nat, first: int, n: int, maxWait: int)
    requires ClockAdvances(steps) && t < |steps| && steps[t].event.Timer? && 0 <= first <= k
    requires k < |Taken(steps[..t])| <= |Taken(steps)| && Deadline(steps, k, maxWait) <= steps[t].at
    ensures FlushBy(steps, t, first, n, maxWait) == Some(Flush(first, |Taken(steps[..t])|, t, Elapsed))
  {
    ArrivalsSoFar(steps, t);
    if first < k { ArrivalsIncrease(steps, first, k); }
    assert steps[..t][Arrivals(steps[..t])[first]] == steps[Arrivals(steps)[first]];
  }

  lemma ClosedStays<V, E>(steps: seq<Step<V, E>>, i: nat, j: nat)
    requires i <= j <= |steps| && !ValuesOpen(steps[..i])
    ensures !ValuesOpen(steps[..j])
  {
    var k :| 0 <= k < i && steps[..i][k].event.ValuesClosed?;
    assert steps[..j][k].event.ValuesClosed?;
  }

  lemma ClosedFlushesNothing<V, E>(steps: seq<Step<V, E>>, i: nat, fs: seq<Flush>, n: int, maxWait: int)
    requires i < |steps| && !ValuesOpen(steps[..i]) && Covering(steps[..i], fs, n)
    ensures FlushBy(steps, i, End(fs), n, maxWait) == None
  {
  }

  lemma ClosedStep<V, E>(steps: seq<Step<V, E>>, closed: nat, i: nat, n: int, maxWait: int)
    requires closed <= i < |steps| && !ValuesOpen(steps[..closed])
    ensures Flushes(steps, i + 1, n, maxWait) == Flushes(steps, i, n, maxWait)
  {
    ClosedStays(steps, closed, i);
    FlushesCover(steps, i, n, maxWait);
    ClosedFlushesNothing(steps, i, Flushes(steps, i, n, maxWait), n, maxWait);
  }

  /** After the source's closing nothing more is flushed. */
  lemma {:induction false} NoMoreFlushes<V, E>(steps: seq<Step<V, E>>, i: nat, j: nat, n: int, maxWait: int)
    requires i <= j <= |steps| && !ValuesOpen(steps[..i])
    ensures Flushes(steps, j, n, maxWait) == Flushes(steps, i, n, maxWait)
    decreases j
  {
    hide Flushes, ValuesOpen;
    if i == j {
    } else {
      NoMoreFlushes(steps, i, j - 1, n, maxWait);
      ClosedStep(steps, i, j - 1, n, maxWait);
    }
  }

  // ---- The documented deadline ----

  /** The wait the documentation describes: since the last emission. */
  ghost function DocumentedDeadline<V, E>(steps: seq<Step<V, E>>, fs: seq<Flush>, maxWait: int): int
    requires fs != [] && 0 <= fs[|fs| - 1].step < |steps|
  {
    steps[fs[|fs| - 1].step].at + maxWait
  }

  /** The timer is armed by the batch's first item, so it is never early by the documented rule, and it
      follows that rule exactly when the item arrived at the very time of the last emission. */
  lemma DeadlinesAgreeIff<V, E>(steps: seq<Step<V, E>>, n: int, maxWait: int)
    requires ClockAdvances(steps)
    requires var fs := Flushes(steps, |steps|, n, maxWait); fs != [] && End(fs) < |Taken(steps)|
    ensures var fs := Flushes(steps, |steps|, n, maxWait);
            var actual := Deadline(steps, End(fs), maxWait);
            && 0 <= fs[|fs| - 1].step < |steps| && DocumentedDeadline(steps, fs, maxWait) <= actual
            && (DocumentedDeadline(steps, fs, maxWait) == actual <==>
                  steps[Arrivals(steps)[End(fs)]].at == steps[fs[|fs| - 1].step].at)
  {
    var fs := Flushes(steps, |steps|, n, maxWait);
    assert steps[..|steps|] == steps;
    FlushesJustified(steps, |steps|, |fs| - 1, n, maxWait);
    FirstAfterFlush(steps, fs[|fs| - 1], n, maxWait);
  }

  /** A value that was not part of a flush arrived after it. */
  lemma FirstAfterFlush<V, E>(steps: seq<Step<V, E>>, f: Flush, n: int, maxWait: int)
    requires Justified(steps, f, n, maxWait) && f.hi < |Taken(steps)|
    ensures f.step <= Arrivals(steps)[f.hi]
  {
    ArrivalsSoFar(steps, f.step);
  }

  /** What that means for a timer that fires at the documented deadline while a batch is waiting: it
      flushes exactly when the batch's first item arrived at the very time of the last emission. */
  lemma DocumentedTimerFlushesIff<V, E>(steps: seq<Step<V, E>>, t: nat, n: int, maxWait: int)
    requires ClockAdvances(steps) && t < |steps| && steps[t].event.Timer?
    requires var fs := Flushes(steps, t, n, maxWait);
             && fs != [] && End(fs) < |Taken(steps[..t])| && 0 <= fs[|fs| - 1].step < |steps|
             && steps[t].at == DocumentedDeadline(steps, fs, maxWait)
    ensures var fs := Flushes(steps, t, n, maxWait);
            Flushes(steps, t + 1, n, maxWait) != fs <==>
              steps[Arrivals(steps[..t])[End(fs)]].at == steps[fs[|fs| - 1].step].at
  {
    var fs := Flushes(steps, t, n, maxWait);
    FlushesJustified(steps, t, |fs| - 1, n, maxWait);
    TakenSoFar(steps, t);
    ArrivalsSoFar(steps, t);
    FirstAfterFlush(steps, fs[|fs| - 1], n, maxWait);
    TimerFlushesIfDue(steps, t, End(fs), n, maxWait);
  }

  lemma TimerFlushesIfDue<V, E>(steps: seq<Step<V, E>>, t: nat, first: nat, n: int, maxWait: int)
    requires t < |steps| && steps[t].event.Timer? && first < |Taken(steps[..t])|
    ensures FlushBy(steps, t, first, n, maxWait).Some? <==> steps[Arrivals(steps[..t])[first]].at + maxWait <= steps[t].at
  {
    assert steps[..t][Arrivals(steps[..t])[first]] == steps[Arrivals(steps[..t])[first]];
  }

  /** A first batch emitted at 5, the next first item at 8, timers firing at 10 and at 13. */
  function LateItem(): seq<Step<int, int>> {
    [Step(Value(1), 0, true), Step(Timer, 5, true), Step(Value(2), 8, true), Step(Timer, 10, true), Step(Timer, 13, true)]
  }

  /** With a wait of 5 the documented deadline of the second batch is 10, but the timer that fires then
      flushes nothing and the one that fires at 13 does. */
  lemma DeadlinesDiffer()
    ensures Flushes(LateItem(), 4, 10, 5) == [Flush(0, 1, 1, Elapsed)]
    ensures DocumentedDeadline(LateItem(), Flushes(LateItem(), 4, 10, 5), 5) == LateItem()[3].at == 10
    ensures Taken(LateItem()[..3]) == [1, 2]
    ensures Flushes(LateItem(), 5, 10, 5) == [Flush(0, 1, 1, Elapsed), Flush(1, 2, 4, Elapsed)]
  {
    var steps := LateItem();
    LateItemArrives();
    LateItemFirstBatch();
    assert Deadline(steps[..3], 1, 5) == 13 && Deadline(steps[..4], 1, 5) == 13;
    assert FlushBy(steps, 3, 1, 10, 5) == None;
    assert Flushes(steps, 4, 10, 5) == [Flush(0, 1, 1, Elapsed)];
    assert FlushBy(steps, 4, 1, 10, 5) == Some(Flush(1, 2, 4, Elapsed));
  }

  lemma LateItemFirstBatch()
    ensures Flushes(LateItem(), 3, 10, 5) == [Flush(0, 1, 1, Elapsed)]
  {
    var steps := LateItem();
    LateItemArrives();
    assert Flushes(steps, 0, 10, 5) == [];
    assert Flushes(steps, 1, 10, 5) == [];
    assert Deadline(steps[..1], 0, 5) == 5;
    assert Flushes(steps, 2, 10, 5) == [Flush(0, 1, 1, Elapsed)];
    assert FlushBy(steps, 2, 1, 10, 5) == None;
  }

  lemma LateItemOpen(i: nat)
    requires i <= |LateItem()|
    ensures ValuesOpen(LateItem()[..i])
    ensures Taken(LateItem()[..0]) == [] && Arrivals(LateItem()[..0]) == []
  {
    assert LateItem()[..0] == [];
  }

  lemma LateStep(i: nat, taken: seq<int>, arrivals: seq<int>)
    requires i < |LateItem()| && Taken(LateItem()[..i]) == taken && Arrivals(LateItem()[..i]) == arrivals
    ensures var step := LateItem()[i];
            && Taken(LateItem()[..i + 1]) == taken + (if step.event.Value? then [step.event.v] else [])
            && Arrivals(LateItem()[..i + 1]) == arrivals + if step.event.Value? then [i] else []
  {
    hide Taken, Arrivals, ValuesOpen;
    LateItemOpen(i);
    TakenNext(LateItem(), i);
    ArrivalsNext(LateItem(), i);
  }

  lemma LateItemArrives()
    ensures var steps := LateItem();
            && Taken(steps[..0]) == []
            && Taken(steps[..1]) == [1] == Taken(steps[..2]) && Taken(steps[..3]) == [1, 2] == Taken(steps[..4])
            && Arrivals(steps[..1]) == [0] && Arrivals(steps[..3]) == [0, 2] == Arrivals(steps[..4])
  {
    hide Taken, Arrivals, ValuesOpen;
    var steps := LateItem();
    LateItemOpen(0);
    LateStep(0, [], []);
    LateStep(1, [1], [0]);
    LateStep(2, [1], [0]);
    LateStep(3, [1, 2], [0, 2]);
  }

  // ---- The loop ----

  function Concat<T>(batches: seq<seq<T>>): seq<T> {
    if batches == [] then [] else Concat(batches[..|batches| - 1]) + batches[|batches| - 1]
  }

  /** The loop's variables: the steps that flushed, the batches they handed over, the current batch and
      the timer. */
  datatype Batcher<+V> = Batcher(flushes: seq<Flush>, batches: seq<seq<V>>, batch: seq<V>, timer: Option<int>)

  /** What the variables hold after the given steps, if those flushes are right. */
  ghost predicate Held<V, E>(steps: seq<Step<V, E>>, maxWait: int, b: Batcher<V>) {
    && 0 <= End(b.flushes) <= |Taken(steps)|
    && b.batch == Taken(steps)[End(b.flushes)..]
    && Concat(b.batches) == Taken(steps)[..End(b.flushes)]
    && b.timer == (if b.batch == [] then None else Some(Deadline(steps, End(b.flushes), maxWait)))
    && |b.batches| == |b.flushes|
    && forall i :: 0 <= i < |b.batches| ==> |b.batches[i]| == b.flushes[i].hi - b.flushes[i].lo
  }

  ghost predicate Batching<V, E>(steps: seq<Step<V, E>>, i: nat, n: int, maxWait: int, b: Batcher<V>)
    requires i <= |steps|
  {
    b.flushes == Flushes(steps, i, n, maxWait) && Held(steps[..i], maxWait, b)
  }

  lemma ConcatSnoc<T>(batches: seq<seq<T>>, b: seq<T>)
    ensures Concat(batches + [b]) == Concat(batches) + b
  {
    assert (batches + [b])[..|batches|] == batches;
  }

  /** The deadline of the current batch does not move. */
  lemma DeadlineStays<V, E>(steps: seq<Step<V, E>>, i: nat, first: int, maxWait: int)
    requires i < |steps| && 0 <= first < |Taken(steps[..i])|
    ensures first < |Taken(steps[..i + 1])|
    ensures Deadline(steps[..i + 1], first, maxWait) == Deadline(steps[..i], first, maxWait)
  {
    TakenNext(steps, i);
    ArrivalsNext(steps, i);
    assert steps[..i][Arrivals(steps[..i])[first]] == steps[..i + 1][Arrivals(steps[..i])[first]];
  }

  /** A step that delivers nothing leaves the variables as they are. */
  lemma NothingArrives<V, E>(steps: seq<Step<V, E>>, i: nat, maxWait: int, b: Batcher<V>)
    requires i < |steps| && Held(steps[..i], maxWait, b) && (steps[i].event.Value? ==> !ValuesOpen(steps[..i]))
    ensures Held(steps[..i + 1], maxWait, b)
  {
    TakenNext(steps, i);
    if b.batch != [] { DeadlineStays(steps, i, End(b.flushes), maxWait); }
  }

  /** A value joins the batch, and arms the timer if it is the first. */
  lemma ValueArrives<V, E>(steps: seq<Step<V, E>>, i: nat, maxWait: int, b: Batcher<V>, v: V)
    requires i < |steps| && Held(steps[..i], maxWait, b) && steps[i].event == Value(v) && ValuesOpen(steps[..i])
    ensures Held(steps[..i + 1], maxWait,
                 b.(batch := b.batch + [v], timer := if b.timer.None? then Some(steps[i].at + maxWait) else b.timer))
  {
    TakenNext(steps, i);
    ArrivalsNext(steps, i);
    if b.batch != [] { DeadlineStays(steps, i, End(b.flushes), maxWait); }
  }

  /** The current batch goes out whole. */
  lemma BatchLeaves<V, E>(steps: seq<Step<V, E>>, maxWait: int, b: Batcher<V>, f: Flush)
    requires Held(steps, maxWait, b) && f.lo == End(b.flushes) && f.hi == |Taken(steps)|
    ensures Held(steps, maxWait, Batcher(b.flushes + [f], b.batches + [b.batch], [], None))
  {
    ConcatSnoc(b.batches, b.batch);
  }

  /** What a step flushes, in terms of the loop's variables. */
  lemma FlushBySeen<V, E>(steps: seq<Step<V, E>>, i: nat, n: int, maxWait: int, b: Batcher<V>)
    requires i < |steps| && Held(steps[..i], maxWait, b)
    ensures var first := End(b.flushes);
            FlushBy(steps, i, first, n, maxWait) ==
              match steps[i].event
              case Value(_) =>
                if ValuesOpen(steps[..i]) && |b.batch| + 1 >= n then Some(Flush(first, first + |b.batch| + 1, i, Full))
                else None
              case ValuesClosed =>
                if ValuesOpen(steps[..i]) && b.batch != [] then Some(Flush(first, first + |b.batch|, i, SourceClosed))
                else None
              case Timer =>
                if b.timer.Some? && b.timer.value <= steps[i].at then Some(Flush(first, first + |b.batch|, i, Elapsed))
                else None
              case _ => None
  {
  }

  /** flush: nothing for an empty batch, else the batch goes out and the timer is disarmed. */
  method FlushBatch<V>(b: Batcher<V>, step: nat, reason: Reason) returns (r: Batcher<V>)
    ensures b.batch == [] ==> r == b
    ensures b.batch != [] ==>
      var f := Flush(End(b.flushes), End(b.flushes) + |b.batch|, step, reason);
      r == Batcher(b.flushes + [f], b.batches + [b.batch], [], None)
  {
    if b.batch == [] { return b; }
    var flush := Flush(End(b.flushes), End(b.flushes) + |b.batch|, step, reason);
    r := Batcher(b.flushes + [flush], b.batches + [b.batch], [], None);
  }

  lemma FullBatchLeaves<V, E>(steps: seq<Step<V, E>>, step: nat, n: int, maxWait: int, b: Batcher<V>)
    requires step < |steps| && Held(steps[..step + 1], maxWait, b) && b.batch != []
    requires b.flushes == Flushes(steps, step, n, maxWait)
    requires var first := End(b.flushes);
             FlushBy(steps, step, first, n, maxWait) == Some(Flush(first, first + |b.batch|, step, Full))
    ensures var f := Flush(End(b.flushes), End(b.flushes) + |b.batch|, step, Full);
            Batching(steps, step + 1, n, maxWait, Batcher(b.flushes + [f], b.batches + [b.batch], [], None))
  {
    BatchLeaves(steps[..step + 1], maxWait, b, Flush(End(b.flushes), End(b.flushes) + |b.batch|, step, Full));
  }

  /** The value case: append, arm the timer on the first item, flush when full. */
  method Collect<V, E>(ghost steps: seq<Step<V, E>>, step: nat, v: V, now: int, n: int, maxWait: int, b: Batcher<V>)
    returns (r: Batcher<V>)
    requires step < |steps| && Batching(steps, step, n, maxWait, b)
    requires steps[step].event == Value(v) && steps[step].at == now && ValuesOpen(steps[..step])
    ensures Batching(steps, step + 1, n, maxWait, r)
  {
    FlushBySeen(steps, step, n, maxWait, b);
    ValueArrives(steps, step, maxWait, b, v);
    r := b.(batch := b.batch + [v], timer := if b.timer.None? then Some(now + maxWait) else b.timer);
    if |r.batch| >= n {
      FullBatchLeaves(steps, step, n, maxWait, r);
      r := FlushBatch(r, step, Full);
    }
  }

  /** The timer case and the source's closing. */
  method Release<V, E>(ghost steps: seq<Step<V, E>>, step: nat, due: bool, reason: Reason, ghost n: int, ghost maxWait: int,
                       b: Batcher<V>)
    returns (r: Batcher<V>)
    requires step < |steps| && Batching(steps, step, n, maxWait, b)
    requires reason == Elapsed || reason == SourceClosed
    requires reason == Elapsed ==> steps[step].event.Timer? && (due <==> b.timer.Some? && b.timer.value <= steps[step].at)
    requires reason == SourceClosed ==> steps[step].event.ValuesClosed? && (due <==> ValuesOpen(steps[..step]))
    ensures Batching(steps, step + 1, n, maxWait, r)
  {
    FlushBySeen(steps, step, n, maxWait, b);
    NothingArrives(steps, step, maxWait, b);
    r := b;
    if due && b.batch != [] {
      BatchLeaves(steps[..step + 1], maxWait, b, Flush(End(b.flushes), End(b.flushes) + |b.batch|, step, reason));
      r := FlushBatch(b, step, reason);
    }
  }

  lemma Unmoved<V, E>(steps: seq<Step<V, E>>, i: nat, n: int, maxWait: int, b: Batcher<V>)
    requires i < |steps| && Batching(steps, i, n, maxWait, b)
    requires steps[i].event.Value? ==> !ValuesOpen(steps[..i])
    requires !steps[i].event.Timer? && !steps[i].event.ValuesClosed?
    ensures Batching(steps, i + 1, n, maxWait, b)
  {
    NothingArrives(steps, i, maxWait, b);
  }

  /** The case that step i takes. returned tells that the goroutine returned instead. */
  method BufferStep<V, E>(steps: seq<Step<V, E>>, i: nat, n: int, maxWait: int, b: Batcher<V>,
                          valuesOpen: bool, errorsOpen: bool, errs: seq<E>)
    returns (b': Batcher<V>, valuesOpen': bool, errorsOpen': bool, errs': seq<E>, returned: bool)
    requires i < |steps| && Batching(steps, i, n, maxWait, b) && Tracking(steps, i, valuesOpen, errorsOpen, errs)
    ensures returned <==> steps[i].event.Cancelled? || (steps[i].event.Failure? && errorsOpen && !steps[i].sent)
    ensures !returned ==> Batching(steps, i + 1, n, maxWait, b') && Tracking(steps, i + 1, valuesOpen', errorsOpen', errs')
  {
    TakenNext(steps, i);
    b', valuesOpen', errorsOpen', errs', returned := b, valuesOpen, errorsOpen, errs, false;
    match steps[i].event {
      case Cancelled => returned := true;
      case ErrorsClosed =>
        Unmoved(steps, i, n, maxWait, b);
        errorsOpen' := false;
      case ValuesClosed =>
        b' := Release(steps, i, valuesOpen, SourceClosed, n, maxWait, b);
        valuesOpen' := false;
      case Value(v) =>
        if valuesOpen {
          b' := Collect(steps, i, v, steps[i].at, n, maxWait, b);
        } else {
          Unmoved(steps, i, n, maxWait, b);
        }
      case Failure(e) =>
        Unmoved(steps, i, n, maxWait, b);
        if errorsOpen {
          if steps[i].sent { errs' := errs + [e]; } else { returned := true; }
        }
      case Timer =>
        b' := Release(steps, i, b.timer.Some? && b.timer.value <= steps[i].at, Elapsed, n, maxWait, b);
    }
  }

  lemma NothingFlushedYet<V, E>(steps: seq<Step<V, E>>, n: int, maxWait: int)
    ensures Batching(steps, 0, n, maxWait, Batcher([], [], [], None)) && Tracking(steps, 0, true, true, [])
  {
  }

  /** The select loop. ran is how far it has come. */
  method BufferLoop<V, E>(steps: seq<Step<V, E>>, n: int, maxWait: int)
    returns (b: Batcher<V>, valuesOpen: bool, errorsOpen: bool, errs: seq<E>, ran: nat)
    ensures ran <= |steps| && Batching(steps, ran, n, maxWait, b) && Tracking(steps, ran, valuesOpen, errorsOpen, errs)
    ensures EndsAt(steps, ran, false) && ErrorsSent(steps, ran)
    ensures ran < |steps| && (ValuesOpen(steps[..ran]) || ErrorsOpen(steps[..ran])) ==>
              steps[ran].event.Cancelled? || (steps[ran].event.Failure? && ErrorsOpen(steps[..ran]) && !steps[ran].sent)
  {
    hide Batching, ValuesOpen, ErrorsOpen, Failed;
    b, valuesOpen, errorsOpen, errs, ran := Batcher([], [], [], None), true, true, [], 0;
    NothingFlushedYet(steps, n, maxWait);
    while ran < |steps| && (valuesOpen || errorsOpen)
      invariant ran <= |steps| && Batching(steps, ran, n, maxWait, b) && Tracking(steps, ran, valuesOpen, errorsOpen, errs)
      invariant forall i | 0 <= i < ran :: !steps[i].event.Cancelled?
      invariant ErrorsSent(steps, ran)
    {
      var b', valuesOpen', errorsOpen', errs', returned :=
        BufferStep(steps, ran, n, maxWait, b, valuesOpen, errorsOpen, errs);
      if returned { return; }
      b, valuesOpen, errorsOpen, errs, ran := b', valuesOpen', errorsOpen', errs', ran + 1;
    }
  }

  lemma BufferDone<V, E>(steps: seq<Step<V, E>>, i: nat, n: int, maxWait: int, b: Batcher<V>,
                         valuesOpen: bool, errorsOpen: bool, errs: seq<E>)
    requires i <= |steps| && Batching(steps, i, n, maxWait, b) && Tracking(steps, i, valuesOpen, errorsOpen, errs)
    requires i == |steps| || (!valuesOpen && !errorsOpen)
    ensures b.flushes == Flushes(steps, |steps|, n, maxWait)
    ensures Concat(b.batches) + b.batch == Taken(steps) && errs == Failed(steps)
  {
    hide Taken, Failed, Flushes, Concat, ValuesOpen, ErrorsOpen;
    TakenSoFar(steps, i);
    if i == |steps| {
      assert steps[..i] == steps;
    } else {
      NoMoreFlushes(steps, i, |steps|, n, maxWait);
    }
  }

  lemma BatchedSoFar<V, E>(steps: seq<Step<V, E>>, i: nat, n: int, maxWait: int, b: Batcher<V>)
    requires i <= |steps| && Batching(steps, i, n, maxWait, b)
    ensures b.flushes == Flushes(steps, i, n, maxWait) && Concat(b.batches) + b.batch == Taken(steps[..i])
  {
    hide Taken, Flushes, Concat;
  }

  lemma FlushStepsExist<V, E>(steps: seq<Step<V, E>>, i: nat, n: int, maxWait: int)
    requires i <= |steps|
    ensures forall j :: 0 <= j < |Flushes(steps, i, n, maxWait)| ==> 0 <= Flushes(steps, i, n, maxWait)[j].step < i
  {
    forall j | 0 <= j < |Flushes(steps, i, n, maxWait)| ensures 0 <= Flushes(steps, i, n, maxWait)[j].step < i {
      FlushesJustified(steps, i, j, n, maxWait);
    }
  }

  /** The whole operator. What it flushes and forwards is what the steps before ran give, where ran is the
      first step that sees a done context, if a channel is open then and no error's send was given up
      before. Uncancelled, the batches and the current batch are the source cut up by its flushes; a batch
      is lost only when the send of its step is given up. */
  method Buffer<V, E>(steps: seq<Step<V, E>>, n: int, maxWait: int)
    returns (batches: seq<seq<V>>, flushes: seq<Flush>, batch: seq<V>, timer: Option<int>, errs: seq<E>, ran: nat)
    ensures ran <= |steps| && Batching(steps, ran, n, maxWait, Batcher(flushes, batches, batch, timer))
    ensures flushes == Flushes(steps, ran, n, maxWait) && Concat(batches) + batch == Taken(steps[..ran])
    ensures errs == Failed(steps[..ran])
    ensures EndsAt(steps, ran, false) && ErrorsSent(steps, ran)
    ensures ran < |steps| && (ValuesOpen(steps[..ran]) || ErrorsOpen(steps[..ran])) ==>
              steps[ran].event.Cancelled? || (steps[ran].event.Failure? && ErrorsOpen(steps[..ran]) && !steps[ran].sent)
    ensures forall c: nat | c < |steps| && steps[c].event.Cancelled? && Uncancelled(steps[..c]) &&
              (ValuesOpen(steps[..c]) || ErrorsOpen(steps[..c])) :: ran == c
    ensures Uncancelled(steps) ==>
      flushes == Flushes(steps, |steps|, n, maxWait) && Concat(batches) + batch == Taken(steps) && errs == Failed(steps)
    ensures forall j :: 0 <= j < |flushes| ==> 0 <= flushes[j].step < ran
  {
    hide Taken, Failed, Flushes, Concat, ValuesOpen, ErrorsOpen, ErrorsSent;
    var b, valuesOpen, errorsOpen;
    b, valuesOpen, errorsOpen, errs, ran := BufferLoop(steps, n, maxWait);
    BatchedSoFar(steps, ran, n, maxWait, b);
    batches, flushes, batch, timer := b.batches, b.flushes, b.batch, b.timer;
    if ran == |steps| || (!valuesOpen && !errorsOpen) {
      BufferDone(steps, ran, n, maxWait, b, valuesOpen, errorsOpen, errs);
    }
    FlushStepsExist(steps, ran, n, maxWait);
    DoneContextEndsLoop(steps, ran, false);
  }
}
