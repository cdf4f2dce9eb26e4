/** stream.SlidingWindow: the windows a source is cut into, and the loop that cuts them. */
module SlidingWindows {
  import opened EventLoops

  /** The windows of h ending at end, end + step, end + 2 * step, and so on, as far as h reaches. */
  function WindowsFrom<T>(h: seq<T>, size: int, step: int, end: int): seq<seq<T>>
    requires 0 < step <= size && 0 <= end
    decreases |h| - end
  {
    if end > |h| then []
    else (if end >= size then [h[end - size..end]] else []) + WindowsFrom(h, size, step, end + step)
  }

  /** The windows of a history: one at every multiple of step that has size items before it. */
  function Windows<T>(h: seq<T>, size: int, step: int): seq<seq<T>>
    requires 0 < step <= size
  {
    WindowsFrom(h, size, step, step)
  }

  /** Stepping from end leads exactly to next. */
  ghost predicate Reaches(end: int, next: int, step: int)
    requires 0 < step
    decreases next - end
  {
    end == next || (end < next && Reaches(end + step, next, step))
  }

  lemma {:induction false} ReachesOn(end: int, next: int, step: int)
    requires 0 < step && Reaches(end, next, step)
    ensures Reaches(end, next + step, step)
    decreases next - end
  {
    if end == next {
    } else {
      ReachesOn(end + step, next, step);
    }
  }

  /** One more item completes a window exactly when it reaches the next multiple of step with at
      least size items so far. */
  lemma {:induction false} WindowsGrow<T>(h: seq<T>, v: T, size: int, step: int, end: int, next: int)
    requires 0 < step <= size && 0 <= end && Reaches(end, next, step) && next - step <= |h| < next
    ensures WindowsFrom(h + [v], size, step, end) ==
              WindowsFrom(h, size, step, end) +
              if |h| + 1 == next && next >= size then [(h + [v])[next - size..]] else []
    decreases next - end
  {
    if end == next {
      assert WindowsFrom(h, size, step, end) == [];
      if |h| + 1 == next {
        assert WindowsFrom(h + [v], size, step, end + step) == [];
        assert next >= size ==> (h + [v])[next - size..next] == (h + [v])[next - size..];
      }
    } else {
      ReachesAtLeast(end + step, next, step);
      WindowsGrow(h, v, size, step, end + step, next);
      assert end >= size ==> (h + [v])[end - size..end] == h[end - size..end];
    }
  }

  lemma ReachesAtLeast(end: int, next: int, step: int)
    requires 0 < step && Reaches(end, next, step)
    ensures end <= next
  {
  }

  lemma {:induction false} WindowsOfPrefix<T>(h: seq<T>, n: nat, size: int, step: int, end: int)
    requires 0 < step <= size && 0 <= end && n <= |h|
    ensures WindowsFrom(h[..n], size, step, end) <= WindowsFrom(h, size, step, end)
    decreases |h| - end
  {
    if end > n {
    } else {
      WindowsOfPrefix(h, n, size, step, end + step);
      assert end >= size ==> h[..n][end - size..end] == h[end - size..end];
    }
  }

  // ---- The windows in closed form ----

  /** k * step, by repeated addition. */
  function Times(k: nat, step: nat): nat {
    if k == 0 then 0 else Times(k - 1, step) + step
  }

  lemma {:induction false} TimesIsProduct(k: nat, step: nat)
    ensures Times(k, step) == k * step
  {
    if k == 0 {
    } else {
      TimesIsProduct(k - 1, step);
      assert (k - 1) * step + step == k * step;
    }
  }

  lemma {:induction false} TimesAtLeast(k: nat, l: nat, step: nat)
    requires k <= l
    ensures Times(k, step) <= Times(l, step)
    decreases l
  {
    if k >= l {
    } else {
      TimesAtLeast(k, l - 1, step);
    }
  }

  /** ws are the slices of size items ending at k * step for k = j, j + 1, and so on up to the end of h. */
  ghost predicate SlicesFrom<T>(ws: seq<seq<T>>, h: seq<T>, size: int, step: nat, j: nat) {
    && (forall k :: j <= k < j + |ws| ==>
          0 <= size <= Times(k, step) <= |h| && ws[k - j] == h[Times(k, step) - size..Times(k, step)])
    && Times(j + |ws|, step) > |h|
  }

  lemma {:induction false} WindowsFromEnd<T>(h: seq<T>, size: int, step: int, j: nat)
    requires 0 < step <= size && size <= Times(j, step)
    ensures Times(j + |WindowsFrom(h, size, step, Times(j, step))|, step) > |h|
    decreases |h| - Times(j, step)
  {
    if Times(j, step) > |h| {
    } else {
      WindowsFromEnd(h, size, step, j + 1);
      assert j + 1 + |WindowsFrom(h, size, step, Times(j + 1, step))| == j + |WindowsFrom(h, size, step, Times(j, step))|;
    }
  }

  lemma {:induction false} WindowsFromAt<T>(h: seq<T>, size: int, step: int, j: nat, k: nat)
    requires 0 < step <= size && size <= Times(j, step)
    requires j <= k < j + |WindowsFrom(h, size, step, Times(j, step))|
    ensures size <= Times(k, step) <= |h|
    ensures WindowsFrom(h, size, step, Times(j, step))[k - j] == h[Times(k, step) - size..Times(k, step)]
    decreases k - j
  {
    var rest := WindowsFrom(h, size, step, Times(j + 1, step));
    assert WindowsFrom(h, size, step, Times(j, step)) == [h[Times(j, step) - size..Times(j, step)]] + rest;
    if k == j {
    } else {
      WindowsFromAt(h, size, step, j + 1, k);
    }
  }

  lemma WindowsFromAre<T>(h: seq<T>, size: int, step: int, j: nat)
    requires 0 < step <= size && size <= Times(j, step)
    ensures SlicesFrom(WindowsFrom(h, size, step, Times(j, step)), h, size, step, j)
  {
    var ws := WindowsFrom(h, size, step, Times(j, step));
    WindowsFromEnd(h, size, step, j);
    forall k | j <= k < j + |ws|
      ensures 0 <= size <= Times(k, step) <= |h| && ws[k - j] == h[Times(k, step) - size..Times(k, step)]
    {
      WindowsFromAt(h, size, step, j, k);
    }
  }

  lemma {:induction false} NoWindowsBefore<T>(h: seq<T>, size: int, step: int, first: nat, j: nat)
    requires 0 < step <= size && j <= first && (first > 0 ==> Times(first - 1, step) < size)
    ensures WindowsFrom(h, size, step, Times(j, step)) == WindowsFrom(h, size, step, Times(first, step))
    decreases first - j
  {
    if j >= first {
    } else {
      TimesAtLeast(j, first - 1, step);
      TimesAtLeast(j, first, step);
      NoWindowsBefore(h, size, step, first, j + 1);
    }
  }

  /** The windows are exactly the slices of size items ending at k * step, for every k for which
      that many items have arrived, in order. first is the least such k. */
  lemma WindowsAreSlices<T>(h: seq<T>, size: int, step: int, first: nat)
    requires 0 < step <= size && 1 <= first && (first - 1) * step < size <= first * step
    ensures SlicesFrom(Windows(h, size, step), h, size, step, first)
  {
    TimesIsProduct(first, step);
    TimesIsProduct(first - 1, step);
    assert Times(1, step) == step;
    NoWindowsBefore(h, size, step, first, 1);
    WindowsFromAre(h, size, step, first);
  }

  // ---- The loop ----

  ghost predicate Suffix<T>(buf: seq<T>, history: seq<T>) {
    |buf| <= |history| && buf == history[|history| - |buf|..]
  }

  /** The buffer is a suffix of the history; between windows it holds fewer than size items beyond
      the count, and it is the whole history until a first window is full. */
  ghost predicate Buffered<T>(buf: seq<T>, history: seq<T>, count: int, size: int, step: int) {
    && Suffix(buf, history)
    && 0 <= count < step && 0 <= |buf| - count < size
    && (|buf| - count + step < size ==> |buf| == |history|)
  }

  /** After the values of history the loop has cut exactly its windows. */
  ghost predicate Cut<T>(values: seq<seq<T>>, buf: seq<T>, count: int, history: seq<T>, size: int, step: int)
    requires 0 < step <= size
  {
    && Buffered(buf, history, count, size, step)
    && Reaches(step, |history| - count + step, step)
    && values == Windows(history, size, step)
  }

  /** A value that is not the step-th since the last window only joins the buffer. */
  lemma JoinsBuffer<T>(values: seq<seq<T>>, buf: seq<T>, count: int, history: seq<T>, v: T, size: int, step: int)
    requires 0 < step <= size && Cut(values, buf, count, history, size, step) && count + 1 < step
    ensures Cut(values, buf + [v], count + 1, history + [v], size, step)
  {
    WindowsGrow(history, v, size, step, step, |history| - count + step);
    assert Windows(history, size, step) + [] == Windows(history, size, step);
    SuffixGrows(buf, history, v);
  }

  lemma SuffixGrows<T>(buf: seq<T>, history: seq<T>, v: T)
    requires Suffix(buf, history)
    ensures Suffix(buf + [v], history + [v])
  {}

  lemma SuffixShrinks<T>(buf: seq<T>, history: seq<T>, n: nat)
    requires Suffix(buf, history) && n <= |buf|
    ensures Suffix(buf[n..], history) && buf[n..] == history[|history| - (|buf| - n)..]
  {}

  /** What the step-th value does to the windows. */
  lemma StepReached<T>(values: seq<seq<T>>, buf: seq<T>, count: int, history: seq<T>, v: T, size: int, step: int)
    requires 0 < step <= size && Cut(values, buf, count, history, size, step) && count + 1 == step
    ensures Reaches(step, |history + [v]| + step, step)
    ensures Windows(history + [v], size, step) ==
              values + if |history| + 1 >= size then [(history + [v])[|history| + 1 - size..]] else []
  {
    var next := |history| - count + step;
    WindowsGrow(history, v, size, step, step, next);
    ReachesOn(step, next, step);
  }

  lemma BufferAdvances<T>(buf: seq<T>, count: int, history: seq<T>, v: T, size: int, step: int)
    requires 0 < step <= size && Buffered(buf, history, count, size, step) && count + 1 == step
    requires |buf| + 1 >= size
    ensures Buffered((buf + [v])[step..], history + [v], 0, size, step)
  {
    SuffixGrows(buf, history, v);
    SuffixShrinks(buf + [v], history + [v], step);
  }

  lemma WindowIsLatest<T>(buf: seq<T>, history: seq<T>, v: T, size: int)
    requires Suffix(buf, history) && 0 < size <= |buf| + 1
    ensures (buf + [v])[|buf| + 1 - size..] == (history + [v])[|history| + 1 - size..]
  {
    SuffixGrows(buf, history, v);
    SuffixShrinks(buf + [v], history + [v], |buf| + 1 - size);
  }

  lemma CutsWindow<T>(values: seq<seq<T>>, buf: seq<T>, count: int, history: seq<T>, v: T, size: int, step: int)
    requires 0 < step <= size && Cut(values, buf, count, history, size, step) && count + 1 == step
    requires |buf| + 1 >= size
    ensures Cut(values + [(buf + [v])[|buf| + 1 - size..]], (buf + [v])[step..], 0, history + [v], size, step)
  {
    StepReached(values, buf, count, history, v, size, step);
    WindowIsLatest(buf, history, v, size);
    BufferAdvances(buf, count, history, v, size, step);
  }

  lemma CutsNothing<T>(values: seq<seq<T>>, buf: seq<T>, count: int, history: seq<T>, v: T, size: int, step: int)
    requires 0 < step <= size && Cut(values, buf, count, history, size, step) && count + 1 == step
    requires |buf| + 1 < size
    ensures Cut(values, buf + [v], 0, history + [v], size, step)
  {
    StepReached(values, buf, count, history, v, size, step);
    SuffixGrows(buf, history, v);
    assert values + [] == values;
  }

  /** The part of the loop that takes a value: append it, count it, and at every step-th value cut a
      window and advance the buffer if size items are there. windows holds that window, if any. */
  method Append<T>(buf: seq<T>, count: int, v: T, size: int, step: int, ghost history: seq<T>, ghost values: seq<seq<T>>)
    returns (newBuf: seq<T>, newCount: int, windows: seq<seq<T>>)
    requires 0 < step <= size && Cut(values, buf, count, history, size, step)
    ensures Cut(values + windows, newBuf, newCount, history + [v], size, step)
  {
    newBuf, newCount, windows := buf + [v], count + 1, [];
    assert values + [] == values;
    if newCount == step {
      newCount := 0;
      if |newBuf| >= size {
        CutsWindow(values, buf, count, history, v, size, step);
        windows := [newBuf[|newBuf| - size..]];
        newBuf := newBuf[step..];
      } else {
        CutsNothing(values, buf, count, history, v, size, step);
      }
    } else {
      JoinsBuffer(values, buf, count, history, v, size, step);
    }
  }

  /** The windows cut and the buffer after i steps. */
  ghost predicate Sliding<T, E>(steps: seq<Step<T, E>>, i: nat, size: int, step: int,
                                values: seq<seq<T>>, buf: seq<T>, count: int, history: seq<T>)
    requires i <= |steps| && 0 < step <= size
  {
    history == Taken(steps[..i]) && Cut(values, buf, count, history, size, step)
  }

  /** What holds however the loop ends. */
  ghost predicate Slid<T>(values: seq<seq<T>>, buf: seq<T>, history: seq<T>, size: int, step: int)
    requires 0 < step <= size
  {
    values <= Windows(history, size, step) && Suffix(buf, history) && |buf| < size + step
  }

  /** What step i has to send, an error or a window, is sent. */
  ghost predicate SentBy<T, E>(steps: seq<Step<T, E>>, i: nat, size: int, step: int)
    requires i < |steps| && 0 < step <= size
  {
    || steps[i].sent
    || (Windows(Taken(steps[..i + 1]), size, step) == Windows(Taken(steps[..i]), size, step)
        && !(steps[i].event.Failure? && ErrorsOpen(steps[..i])))
  }

  lemma CutIsSlid<T>(values: seq<seq<T>>, windows: seq<seq<T>>, buf: seq<T>, count: int, history: seq<T>,
                     size: int, step: int)
    requires 0 < step <= size && Cut(values + windows, buf, count, history, size, step)
    ensures Slid(values, buf, history, size, step)
  {}

  /** A step that takes no value. */
  lemma SlidesOn<T, E>(steps: seq<Step<T, E>>, i: nat, size: int, step: int,
                       values: seq<seq<T>>, buf: seq<T>, count: int, history: seq<T>)
    requires i < |steps| && 0 < step <= size && Sliding(steps, i, size, step, values, buf, count, history)
    requires !steps[i].event.Value? || !ValuesOpen(steps[..i])
    ensures Sliding(steps, i + 1, size, step, values, buf, count, history)
    ensures Slid(values, buf, history, size, step) && history <= Taken(steps[..i + 1])
  {
    TakenNext(steps, i);
    assert values + [] == values;
    CutIsSlid(values, [], buf, count, history, size, step);
  }

  method SlideValue<T, E>(ghost steps: seq<Step<T, E>>, ghost i: nat, v: T, sent: bool, size: int, step: int,
                          values: seq<seq<T>>, buf: seq<T>, count: int, history: seq<T>)
    returns (values': seq<seq<T>>, buf': seq<T>, count': int, history': seq<T>, returned: bool)
    requires i < |steps| && 0 < step <= size && Sliding(steps, i, size, step, values, buf, count, history)
    requires steps[i].event == Value(v) && ValuesOpen(steps[..i])
    ensures !sent ==> values' == values
    ensures returned <==> !sent && Windows(Taken(steps[..i + 1]), size, step) != Windows(Taken(steps[..i]), size, step)
    ensures !returned ==> Sliding(steps, i + 1, size, step, values', buf', count', history')
    ensures returned ==> Slid(values', buf', history', size, step) && history' <= Taken(steps[..i + 1])
  {
    TakenNext(steps, i);
    var windows;
    buf', count', windows := Append(buf, count, v, size, step, history, values);
    history' := history + [v];
    CutIsSlid(values, windows, buf', count', history', size, step);
    returned := windows != [] && !sent;
    values' := if returned then values else values + windows;
  }

  /** The case that a step takes. returned tells that the goroutine returned instead. */
  method SlideStep<T, E>(steps: seq<Step<T, E>>, i: nat, size: int, step: int, values: seq<seq<T>>, buf: seq<T>,
                         count: int, history: seq<T>, valuesOpen: bool, errorsOpen: bool, errs: seq<E>)
    returns (values': seq<seq<T>>, buf': seq<T>, count': int, history': seq<T>,
             valuesOpen': bool, errorsOpen': bool, errs': seq<E>, returned: bool)
    requires i < |steps| && 0 < step <= size && Sliding(steps, i, size, step, values, buf, count, history)
    requires Tracking(steps, i, valuesOpen, errorsOpen, errs)
    ensures returned ==> values' == values && (steps[i].event.Cancelled? || !steps[i].sent)
    ensures returned <==> steps[i].event.Cancelled? || !SentBy(steps, i, size, step)
    ensures !returned ==> Sliding(steps, i + 1, size, step, values', buf', count', history')
    ensures !returned ==> Tracking(steps, i + 1, valuesOpen', errorsOpen', errs')
    ensures returned ==> Slid(values', buf', history', size, step) && history' <= Taken(steps[..i + 1]) && errs' == errs
  {
    TakenNext(steps, i);
    values', buf', count', history' := values, buf, count, history;
    valuesOpen', errorsOpen', errs', returned := valuesOpen, errorsOpen, errs, false;
    if steps[i].event.Value? && valuesOpen {
      values', buf', count', history', returned :=
        SlideValue(steps, i, steps[i].event.v, steps[i].sent, size, step, values, buf, count, history);
      return;
    }
    SlidesOn(steps, i, size, step, values, buf, count, history);
    match steps[i].event {
      case Cancelled => returned := true;
      case ValuesClosed => valuesOpen' := false;
      case ErrorsClosed => errorsOpen' := false;
      case Value(_) =>
      case Failure(e) =>
        if errorsOpen {
          if steps[i].sent { errs' := errs + [e]; } else { returned := true; }
        }
      case Timer =>
    }
  }

  lemma NothingSlidYet<T, E>(steps: seq<Step<T, E>>, size: int, step: int)
    requires 0 < step <= size
    ensures Sliding(steps, 0, size, step, [], [], 0, []) && Tracking(steps, 0, true, true, [])
  {}

  /** A source may deliver values and errors in any interleaving. What comes out is what the steps before
      ran give, where ran is the first step that sees a done context, if a channel is open then and no
      send was given up before. Uncancelled, exactly the windows of the values and every error come out;
      cancelled, a prefix of them. The buffer always holds the latest items and never grows to
      size + step. */
  method SlidingWindow<T, E>(steps: seq<Step<T, E>>, size: int, step: int)
    returns (values: seq<seq<T>>, errs: seq<E>, buf: seq<T>, history: seq<T>, ran: nat)
    requires 0 < step <= size
    ensures ran <= |steps| && values == Windows(Taken(steps[..ran]), size, step) && errs == Failed(steps[..ran])
    ensures EndsAt(steps, ran, false) && forall i | 0 <= i < ran :: SentBy(steps, i, size, step)
    ensures ran < |steps| && (ValuesOpen(steps[..ran]) || ErrorsOpen(steps[..ran])) ==>
              steps[ran].event.Cancelled? || !SentBy(steps, ran, size, step)
    ensures forall c: nat | c < |steps| && steps[c].event.Cancelled? && Uncancelled(steps[..c]) &&
              (ValuesOpen(steps[..c]) || ErrorsOpen(steps[..c])) :: ran == c
    ensures Uncancelled(steps) ==>
              values == Windows(Taken(steps), size, step) && errs == Failed(steps) && history == Taken(steps)
    ensures Slid(values, buf, history, size, step) && history <= Taken(steps) && errs <= Failed(steps)
  {
    hide Sliding, Slid, SentBy, Windows, Taken, Failed, ValuesOpen, ErrorsOpen;
    values, errs, buf, history, ran := [], [], [], [], 0;
    var count, valuesOpen, errorsOpen, returned := 0, true, true, false;
    NothingSlidYet(steps, size, step);
    while ran < |steps| && (valuesOpen || errorsOpen)
      invariant ran <= |steps|
      invariant Sliding(steps, ran, size, step, values, buf, count, history)
      invariant Tracking(steps, ran, valuesOpen, errorsOpen, errs)
      invariant forall i | 0 <= i < ran :: !steps[i].event.Cancelled? && SentBy(steps, i, size, step)
    {
      SlidSoFar(steps, ran, size, step, values, buf, count, history);
      TakenSoFar(steps, ran + 1);
      values, buf, count, history, valuesOpen, errorsOpen, errs, returned :=
        SlideStep(steps, ran, size, step, values, buf, count, history, valuesOpen, errorsOpen, errs);
      if returned { break; }
      ran := ran + 1;
    }
    if !returned { SlidSoFar(steps, ran, size, step, values, buf, count, history); }
    TakenSoFar(steps, ran);
    assert ran == |steps| ==> steps[..ran] == steps;
    DoneContextEndsLoop(steps, ran, false);
  }

  lemma SlidSoFar<T, E>(steps: seq<Step<T, E>>, i: nat, size: int, step: int,
                        values: seq<seq<T>>, buf: seq<T>, count: int, history: seq<T>)
    requires i <= |steps| && 0 < step <= size && Sliding(steps, i, size, step, values, buf, count, history)
    ensures values == Windows(Taken(steps[..i]), size, step) && history == Taken(steps[..i])
    ensures Slid(values, buf, history, size, step) && history <= Taken(steps)
  {
    TakenSoFar(steps, i);
    assert values + [] == values;
    CutIsSlid(values, [], buf, count, history, size, step);
  }

  /** However the run ends, what came out are the first windows of the source. */
  lemma WindowsOfShorterRun<T>(h: seq<T>, all: seq<T>, size: int, step: int)
    requires 0 < step <= size && h <= all
    ensures Windows(h, size, step) <= Windows(all, size, step)
  {
    WindowsOfPrefix(all, |h|, size, step, step);
    assert all[..|h|] == h;
  }
}
