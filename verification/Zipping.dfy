/** stream.Zip: two sources paired by position, whatever the interleaving. */
module Zipping {
  import opened EventLoops

  /** A step of the loop takes a case of one source or the other. */
  datatype ZipStep<+A, +B, +E> = OfA(a: Step<A, E>) | OfB(b: Step<B, E>)

  function OnA<A, B, E>(steps: seq<ZipStep<A, B, E>>): seq<Step<A, E>> {
    if steps == [] then []
    else
      var n := |steps| - 1;
      OnA(steps[..n]) + if steps[n].OfA? then [steps[n].a] else []
  }

  function OnB<A, B, E>(steps: seq<ZipStep<A, B, E>>): seq<Step<B, E>> {
    if steps == [] then []
    else
      var n := |steps| - 1;
      OnB(steps[..n]) + if steps[n].OfB? then [steps[n].b] else []
  }

  ghost predicate Live<V, E>(step: Step<V, E>) {
    step.sent && !step.event.Cancelled?
  }

  ghost predicate LiveStep<A, B, E>(step: ZipStep<A, B, E>) {
    match step case OfA(a) => Live(a) case OfB(b) => Live(b)
  }

  ghost predicate AllLive<A, B, E>(steps: seq<ZipStep<A, B, E>>) {
    forall i | 0 <= i < |steps| :: LiveStep(steps[i])
  }

  ghost predicate Sent<A, B, E>(step: ZipStep<A, B, E>) {
    if step.OfA? then step.a.sent else step.b.sent
  }

  ghost predicate ContextDone<A, B, E>(step: ZipStep<A, B, E>) {
    if step.OfA? then step.a.event.Cancelled? else step.b.event.Cancelled?
  }

  /** One of the four channels is open after the given steps. */
  ghost predicate StillOpen<A, B, E>(steps: seq<ZipStep<A, B, E>>) {
    ValuesOpen(OnA(steps)) || ErrorsOpen(OnA(steps)) || ValuesOpen(OnB(steps)) || ErrorsOpen(OnB(steps))
  }

  function Min(a: nat, b: nat): nat {
    if a <= b then a else b
  }

  /** combine applied position by position, as far as both sides reach. */
  function Zipped<A, B, Out>(combine: (A, B) -> Out, xs: seq<A>, ys: seq<B>): seq<Out> {
    seq(Min(|xs|, |ys|), i requires 0 <= i < Min(|xs|, |ys|) => combine(xs[i], ys[i]))
  }

  lemma ProjectNext<A, B, E>(steps: seq<ZipStep<A, B, E>>, i: nat)
    requires i < |steps|
    ensures steps[i].OfA? ==> OnA(steps[..i + 1]) == OnA(steps[..i]) + [steps[i].a] && OnB(steps[..i + 1]) == OnB(steps[..i])
    ensures steps[i].OfB? ==> OnB(steps[..i + 1]) == OnB(steps[..i]) + [steps[i].b] && OnA(steps[..i + 1]) == OnA(steps[..i])
  {
    assert steps[..i + 1][..i] == steps[..i];
  }

  /** One more step of a source. */
  lemma TakenSnoc<V, E>(steps: seq<Step<V, E>>, step: Step<V, E>)
    ensures Taken(steps + [step]) == Taken(steps) + if step.event.Value? && ValuesOpen(steps) then [step.event.v] else []
    ensures Failed(steps + [step]) == Failed(steps) + if step.event.Failure? && ErrorsOpen(steps) then [step.event.e] else []
    ensures ValuesOpen(steps + [step]) <==> ValuesOpen(steps) && !step.event.ValuesClosed?
    ensures ErrorsOpen(steps + [step]) <==> ErrorsOpen(steps) && !step.event.ErrorsClosed?
  {
    var all := steps + [step];
    assert all[..|steps|] == steps && all[..|steps| + 1] == all;
    TakenNext(all, |steps|);
  }

  lemma TakenOfPrefix<V, E>(some: seq<Step<V, E>>, all: seq<Step<V, E>>)
    requires some <= all
    ensures Taken(some) <= Taken(all) && Failed(some) <= Failed(all)
    ensures !ValuesOpen(some) ==> Taken(some) == Taken(all)
    ensures !ErrorsOpen(some) ==> Failed(some) == Failed(all)
  {
    TakenSoFar(all, |some|);
    assert all[..|some|] == some;
  }

  lemma {:induction false} ProjectedIsPrefix<A, B, E>(steps: seq<ZipStep<A, B, E>>, i: nat)
    requires i <= |steps|
    ensures OnA(steps[..i]) <= OnA(steps) && OnB(steps[..i]) <= OnB(steps)
    decreases |steps|
  {
    if i == |steps| {
      assert steps[..i] == steps;
    } else {
      var n := |steps| - 1;
      ProjectedIsPrefix(steps[..n], i);
      assert steps[..n][..i] == steps[..i];
      ProjectNext(steps, n);
      assert steps[..n + 1] == steps;
    }
  }

  /** What the two sources have delivered so far is a prefix of what they deliver in all, and all
      of it once their channels have closed. */
  lemma SoFar<A, B, Out, E>(steps: seq<ZipStep<A, B, E>>, i: nat, combine: (A, B) -> Out)
    requires i <= |steps|
    ensures var doneA, doneB := OnA(steps[..i]), OnB(steps[..i]);
            && Zipped(combine, Taken(doneA), Taken(doneB)) <= Zipped(combine, Taken(OnA(steps)), Taken(OnB(steps)))
            && Failed(doneA) <= Failed(OnA(steps)) && Failed(doneB) <= Failed(OnB(steps))
            && (i == |steps| || !StillOpen(steps[..i]) ==>
                  && Taken(doneA) == Taken(OnA(steps)) && Taken(doneB) == Taken(OnB(steps))
                  && Failed(doneA) == Failed(OnA(steps)) && Failed(doneB) == Failed(OnB(steps)))
  {
    var doneA, doneB := OnA(steps[..i]), OnB(steps[..i]);
    ProjectedIsPrefix(steps, i);
    TakenOfPrefix(doneA, OnA(steps));
    TakenOfPrefix(doneB, OnB(steps));
    ZippedPrefix(combine, Taken(doneA), Taken(doneB), Taken(OnA(steps)), Taken(OnB(steps)));
    if i == |steps| {
      assert steps[..i] == steps;
    }
  }

  /** The queues hold what the other side has not matched yet; at least one of them is empty. */
  ghost predicate Paired<A, B, Out>(values: seq<Out>, queueA: seq<A>, queueB: seq<B>, combine: (A, B) -> Out,
                                    xs: seq<A>, ys: seq<B>)
  {
    && values == Zipped(combine, xs, ys)
    && queueA == xs[Min(|xs|, |ys|)..] && queueB == ys[Min(|xs|, |ys|)..]
  }

  /** tryEmit: pair the fronts while both queues have one; stop when a send is given up. */
  method TryEmit<A, B, Out>(queueA: seq<A>, queueB: seq<B>, combine: (A, B) -> Out, sent: bool)
    returns (out: seq<Out>, restA: seq<A>, restB: seq<B>, ok: bool)
    ensures ok <==> sent || queueA == [] || queueB == []
    ensures ok ==> out == Zipped(combine, queueA, queueB)
    ensures ok ==> restA == queueA[Min(|queueA|, |queueB|)..] && restB == queueB[Min(|queueA|, |queueB|)..]
    ensures !sent ==> out == []
  {
    out, restA, restB, ok := [], queueA, queueB, true;
    while restA != [] && restB != [] && ok
      invariant |out| <= Min(|queueA|, |queueB|)
      invariant ok ==> restA == queueA[|out|..] && restB == queueB[|out|..]
      invariant ok ==> forall k :: 0 <= k < |out| ==> out[k] == combine(queueA[k], queueB[k])
      invariant out != [] ==> sent
      invariant !ok ==> !sent && queueA != [] && queueB != []
      decreases |restA|
    {
      var o := combine(restA[0], restB[0]);
      restA, restB := restA[1..], restB[1..];
      if sent { out := out + [o]; } else { ok := false; }
    }
  }

  /** Taking a value of the first source: queue it and pair off. */
  method TakeA<A, B, Out>(v: A, queueA: seq<A>, queueB: seq<B>, combine: (A, B) -> Out, sent: bool,
                          ghost values: seq<Out>, ghost xs: seq<A>, ghost ys: seq<B>)
    returns (out: seq<Out>, restA: seq<A>, restB: seq<B>, ok: bool)
    requires Paired(values, queueA, queueB, combine, xs, ys)
    ensures sent ==> ok
    ensures ok ==> Paired(values + out, restA, restB, combine, xs + [v], ys)
    ensures !sent ==> out == []
    ensures !ok ==> Zipped(combine, xs + [v], ys) != Zipped(combine, xs, ys)
  {
    PairedWithMoreA(values, queueA, queueB, combine, xs, ys, v);
    out, restA, restB, ok := TryEmit(queueA + [v], queueB, combine, sent);
  }

  method TakeB<A, B, Out>(v: B, queueA: seq<A>, queueB: seq<B>, combine: (A, B) -> Out, sent: bool,
                          ghost values: seq<Out>, ghost xs: seq<A>, ghost ys: seq<B>)
    returns (out: seq<Out>, restA: seq<A>, restB: seq<B>, ok: bool)
    requires Paired(values, queueA, queueB, combine, xs, ys)
    ensures sent ==> ok
    ensures ok ==> Paired(values + out, restA, restB, combine, xs, ys + [v])
    ensures !sent ==> out == []
    ensures !ok ==> Zipped(combine, xs, ys + [v]) != Zipped(combine, xs, ys)
  {
    PairedWithMoreB(values, queueA, queueB, combine, xs, ys, v);
    out, restA, restB, ok := TryEmit(queueA, queueB + [v], combine, sent);
  }

  /** An error on the output, with the source it came from. */
  datatype Forwarded<+E> = FromA(e: E) | FromB(e: E)

  function ErrorsOf<E>(errs: seq<Forwarded<E>>, ofA: bool): seq<E> {
    if errs == [] then []
    else
      var n := |errs| - 1;
      ErrorsOf(errs[..n], ofA) + if errs[n].FromA? == ofA then [errs[n].e] else []
  }

  lemma ErrorsOfSnoc<E>(errs: seq<Forwarded<E>>, err: Forwarded<E>, ofA: bool)
    ensures ErrorsOf(errs + [err], ofA) == ErrorsOf(errs, ofA) + if err.FromA? == ofA then [err.e] else []
  {
    assert (errs + [err])[..|errs|] == errs;
  }

  method Forward<E>(errs: seq<Forwarded<E>>, err: Forwarded<E>) returns (longer: seq<Forwarded<E>>)
    ensures forall ofA: bool ::
      ErrorsOf(longer, ofA) == ErrorsOf(errs, ofA) + if err.FromA? == ofA then [err.e] else []
  {
    longer := errs + [err];
    ErrorsOfSnoc(errs, err, true);
    ErrorsOfSnoc(errs, err, false);
  }

  /** What the loop knows after some steps of one source. */
  ghost predicate Follows<V, E>(steps: seq<Step<V, E>>, open: bool, errOpen: bool, taken: seq<V>, errs: seq<E>) {
    open == ValuesOpen(steps) && errOpen == ErrorsOpen(steps) && taken == Taken(steps) && errs == Failed(steps)
  }

  /** One turn of the loop in which a case of the first source is taken; ok is false when it ends
      the loop. */
  method StepA<A, B, Out, E>(step: Step<A, E>, open: bool, errOpen: bool, errs: seq<Forwarded<E>>,
                                 queueA: seq<A>, queueB: seq<B>, combine: (A, B) -> Out,
                                 ghost before: seq<Step<A, E>>, ghost values: seq<Out>, ghost xs: seq<A>, ghost ys: seq<B>)
    returns (stillOpen: bool, stillErrOpen: bool, allErrs: seq<Forwarded<E>>,
             out: seq<Out>, restA: seq<A>, restB: seq<B>, ok: bool)
    requires Follows(before, open, errOpen, xs, ErrorsOf(errs, true))
    requires Paired(values, queueA, queueB, combine, xs, ys)
    ensures Live(step) ==> ok
    ensures ok ==> Follows(before + [step], stillOpen, stillErrOpen, Taken(before + [step]), ErrorsOf(allErrs, true))
    ensures ok ==> Paired(values + out, restA, restB, combine, Taken(before + [step]), ys)
    ensures ErrorsOf(allErrs, false) == ErrorsOf(errs, false)
    ensures !ok ==> allErrs == errs
    ensures step.event.Cancelled? ==> !ok
    ensures !ok && !step.event.Cancelled? ==>
      || Zipped(combine, Taken(before + [step]), ys) != Zipped(combine, xs, ys)
      || Failed(before + [step]) != Failed(before)
    ensures !step.sent ==> out == [] && allErrs == errs
  {
    TakenSnoc(before, step);
    stillOpen, stillErrOpen, allErrs := open, errOpen, errs;
    out, restA, restB, ok := [], queueA, queueB, true;
    assert values + [] == values;
    match step.event {
      case Cancelled => ok := false;
      case ValuesClosed => stillOpen := false;
      case ErrorsClosed => stillErrOpen := false;
      case Value(v) =>
        if open {
          out, restA, restB, ok := TakeA(v, queueA, queueB, combine, step.sent, values, xs, ys);
        }
      case Failure(e) =>
        if errOpen {
          if !step.sent {
            ok := false;
          } else {
            allErrs := Forward(errs, FromA(e));
          }
        }
      case Timer =>
    }
  }

  method StepB<A, B, Out, E>(step: Step<B, E>, open: bool, errOpen: bool, errs: seq<Forwarded<E>>,
                                 queueA: seq<A>, queueB: seq<B>, combine: (A, B) -> Out,
                                 ghost before: seq<Step<B, E>>, ghost values: seq<Out>, ghost xs: seq<A>, ghost ys: seq<B>)
    returns (stillOpen: bool, stillErrOpen: bool, allErrs: seq<Forwarded<E>>,
             out: seq<Out>, restA: seq<A>, restB: seq<B>, ok: bool)
    requires Follows(before, open, errOpen, ys, ErrorsOf(errs, false))
    requires Paired(values, queueA, queueB, combine, xs, ys)
    ensures Live(step) ==> ok
    ensures ok ==> Follows(before + [step], stillOpen, stillErrOpen, Taken(before + [step]), ErrorsOf(allErrs, false))
    ensures ok ==> Paired(values + out, restA, restB, combine, xs, Taken(before + [step]))
    ensures ErrorsOf(allErrs, true) == ErrorsOf(errs, true)
    ensures !ok ==> allErrs == errs
    ensures step.event.Cancelled? ==> !ok
    ensures !ok && !step.event.Cancelled? ==>
      || Zipped(combine, xs, Taken(before + [step])) != Zipped(combine, xs, ys)
      || Failed(before + [step]) != Failed(before)
    ensures !step.sent ==> out == [] && allErrs == errs
  {
    TakenSnoc(before, step);
    stillOpen, stillErrOpen, allErrs := open, errOpen, errs;
    out, restA, restB, ok := [], queueA, queueB, true;
    assert values + [] == values;
    match step.event {
      case Cancelled => ok := false;
      case ValuesClosed => stillOpen := false;
      case ErrorsClosed => stillErrOpen := false;
      case Value(v) =>
        if open {
          out, restA, restB, ok := TakeB(v, queueA, queueB, combine, step.sent, values, xs, ys);
        }
      case Failure(e) =>
        if errOpen {
          if !step.sent {
            ok := false;
          } else {
            allErrs := Forward(errs, FromB(e));
          }
        }
      case Timer =>
    }
  }

  /** What should come out of the given steps: the pairs, and the errors of each source. */
  ghost function Outcome<A, B, Out, E>(steps: seq<ZipStep<A, B, E>>, combine: (A, B) -> Out): (seq<Out>, seq<E>, seq<E>) {
    (Zipped(combine, Taken(OnA(steps)), Taken(OnB(steps))), Failed(OnA(steps)), Failed(OnB(steps)))
  }

  /** What step i has to send is sent. */
  ghost predicate SentBy<A, B, Out, E>(steps: seq<ZipStep<A, B, E>>, i: nat, combine: (A, B) -> Out)
    requires i < |steps|
  {
    Sent(steps[i]) || Outcome(steps[..i + 1], combine) == Outcome(steps[..i], combine)
  }

  /** The loop's variables after i steps. */
  ghost predicate Zipping<A, B, Out, E>(steps: seq<ZipStep<A, B, E>>, i: nat, combine: (A, B) -> Out, values: seq<Out>,
                                        errs: seq<Forwarded<E>>, queueA: seq<A>, queueB: seq<B>)
    requires i <= |steps|
  {
    && Paired(values, queueA, queueB, combine, Taken(OnA(steps[..i])), Taken(OnB(steps[..i])))
    && ErrorsOf(errs, true) == Failed(OnA(steps[..i])) && ErrorsOf(errs, false) == Failed(OnB(steps[..i]))
  }

  ghost predicate FourOpen<A, B, E>(steps: seq<ZipStep<A, B, E>>, aOpen: bool, bOpen: bool, aErrOpen: bool, bErrOpen: bool) {
    && aOpen == ValuesOpen(OnA(steps)) && aErrOpen == ErrorsOpen(OnA(steps))
    && bOpen == ValuesOpen(OnB(steps)) && bErrOpen == ErrorsOpen(OnB(steps))
  }

  /** One turn of the loop; ok is false when it returns. */
  method ZipOne<A, B, Out, E>(steps: seq<ZipStep<A, B, E>>, i: nat, combine: (A, B) -> Out, values: seq<Out>,
                              errs: seq<Forwarded<E>>, queueA: seq<A>, queueB: seq<B>,
                              aOpen: bool, bOpen: bool, aErrOpen: bool, bErrOpen: bool)
    returns (allValues: seq<Out>, allErrs: seq<Forwarded<E>>, restA: seq<A>, restB: seq<B>,
             aOpen': bool, bOpen': bool, aErrOpen': bool, bErrOpen': bool, ok: bool)
    requires i < |steps| && Zipping(steps, i, combine, values, errs, queueA, queueB)
    requires FourOpen(steps[..i], aOpen, bOpen, aErrOpen, bErrOpen)
    ensures ok <==> !ContextDone(steps[i]) && SentBy(steps, i, combine)
    ensures !ok ==> !LiveStep(steps[i])
    ensures ok ==> Zipping(steps, i + 1, combine, allValues, allErrs, restA, restB)
    ensures ok ==> FourOpen(steps[..i + 1], aOpen', bOpen', aErrOpen', bErrOpen')
  {
    hide OnA, OnB, Taken, Failed, ValuesOpen, ErrorsOpen, ErrorsOf, Zipped;
    ProjectNext(steps, i);
    ghost var doneA, doneB := OnA(steps[..i]), OnB(steps[..i]);
    aOpen', bOpen', aErrOpen', bErrOpen' := aOpen, bOpen, aErrOpen, bErrOpen;
    var out;
    match steps[i] {
      case OfA(step) =>
        aOpen', aErrOpen', allErrs, out, restA, restB, ok :=
          StepA(step, aOpen, aErrOpen, errs, queueA, queueB, combine, doneA, values, Taken(doneA), Taken(doneB));
      case OfB(step) =>
        bOpen', bErrOpen', allErrs, out, restA, restB, ok :=
          StepB(step, bOpen, bErrOpen, errs, queueA, queueB, combine, doneB, values, Taken(doneA), Taken(doneB));
    }
    allValues := values + out;
    assert out == [] ==> allValues == values;
  }

  lemma NothingZippedYet<A, B, Out, E>(steps: seq<ZipStep<A, B, E>>, combine: (A, B) -> Out)
    ensures Zipping(steps, 0, combine, [], [], [], []) && FourOpen(steps[..0], true, true, true, true)
  {}

  /** Every value of either source is queued and the queues are paired off at once. The output
      depends only on what the two sources deliver, not on how their deliveries interleave. The
      errors of both sources are forwarded, each source's in its order. What comes out is what the steps
      before ran give, where ran is the first step that sees a done context, if a channel is open then
      and no send was given up before. */
  method Zip<A, B, Out, E>(steps: seq<ZipStep<A, B, E>>, combine: (A, B) -> Out)
    returns (values: seq<Out>, errs: seq<Forwarded<E>>, queueA: seq<A>, queueB: seq<B>, ran: nat)
    ensures ran <= |steps|
    ensures var xs, ys := Taken(OnA(steps[..ran])), Taken(OnB(steps[..ran]));
            && |values| == Min(|xs|, |ys|)
            && forall i :: 0 <= i < |values| ==> values[i] == combine(xs[i], ys[i])
    ensures ErrorsOf(errs, true) == Failed(OnA(steps[..ran])) && ErrorsOf(errs, false) == Failed(OnB(steps[..ran]))
    ensures forall i | 0 <= i < ran :: !ContextDone(steps[i]) && SentBy(steps, i, combine)
    ensures ran < |steps| && StillOpen(steps[..ran]) ==> ContextDone(steps[ran]) || !SentBy(steps, ran, combine)
    ensures forall c: nat | c < |steps| && ContextDone(steps[c]) && AllLive(steps[..c]) && StillOpen(steps[..c]) :: ran == c
    ensures ran < |steps| && StillOpen(steps[..ran]) ==> !LiveStep(steps[ran])
    ensures AllLive(steps) ==> Paired(values, queueA, queueB, combine, Taken(OnA(steps)), Taken(OnB(steps)))
    ensures AllLive(steps) ==> queueA == [] || queueB == []
    ensures AllLive(steps) ==> ErrorsOf(errs, true) == Failed(OnA(steps)) && ErrorsOf(errs, false) == Failed(OnB(steps))
    ensures values <= Zipped(combine, Taken(OnA(steps)), Taken(OnB(steps)))
    ensures ErrorsOf(errs, true) <= Failed(OnA(steps)) && ErrorsOf(errs, false) <= Failed(OnB(steps))
  {
    hide OnA, OnB, Taken, Failed, ValuesOpen, ErrorsOpen, ErrorsOf, Zipped, Zipping, SentBy, LiveStep, ContextDone;
    values, errs, queueA, queueB, ran := [], [], [], [], 0;
    var aOpen, bOpen, aErrOpen, bErrOpen := true, true, true, true;
    NothingZippedYet(steps, combine);
    while ran < |steps| && (aOpen || bOpen || aErrOpen || bErrOpen)
      invariant ran <= |steps| && Zipping(steps, ran, combine, values, errs, queueA, queueB)
      invariant FourOpen(steps[..ran], aOpen, bOpen, aErrOpen, bErrOpen)
      invariant forall i | 0 <= i < ran :: !ContextDone(steps[i]) && SentBy(steps, i, combine)
    {
      var values', errs', queueA', queueB', aOpen', bOpen', aErrOpen', bErrOpen', ok :=
        ZipOne(steps, ran, combine, values, errs, queueA, queueB, aOpen, bOpen, aErrOpen, bErrOpen);
      if !ok { break; }
      values, errs, queueA, queueB, ran := values', errs', queueA', queueB', ran + 1;
      aOpen, bOpen, aErrOpen, bErrOpen := aOpen', bOpen', aErrOpen', bErrOpen';
    }
    ZippedPairs(steps, ran, combine, values, errs, queueA, queueB);
    SoFar(steps, ran, combine);
    DoneContextEndsZip(steps, ran);
    assert ran == |steps| ==> steps[..ran] == steps;
  }

  lemma ZippedPairs<A, B, Out, E>(steps: seq<ZipStep<A, B, E>>, i: nat, combine: (A, B) -> Out, values: seq<Out>,
                                  errs: seq<Forwarded<E>>, queueA: seq<A>, queueB: seq<B>)
    requires i <= |steps| && Zipping(steps, i, combine, values, errs, queueA, queueB)
    ensures var xs, ys := Taken(OnA(steps[..i])), Taken(OnB(steps[..i]));
            && |values| == Min(|xs|, |ys|) && (forall j :: 0 <= j < |values| ==> values[j] == combine(xs[j], ys[j]))
            && Paired(values, queueA, queueB, combine, xs, ys) && (queueA == [] || queueB == [])
    ensures ErrorsOf(errs, true) == Failed(OnA(steps[..i])) && ErrorsOf(errs, false) == Failed(OnB(steps[..i]))
  {}

  lemma DoneContextEndsZip<A, B, E>(steps: seq<ZipStep<A, B, E>>, ran: nat)
    requires ran <= |steps| && forall i | 0 <= i < ran :: !ContextDone(steps[i])
    requires ran < |steps| && StillOpen(steps[..ran]) ==> !LiveStep(steps[ran])
    ensures forall c: nat | c < |steps| && ContextDone(steps[c]) && AllLive(steps[..c]) && StillOpen(steps[..c]) :: ran == c
  {
    forall c: nat | c < |steps| && ContextDone(steps[c]) && AllLive(steps[..c]) && StillOpen(steps[..c]) ensures ran == c {
      if ran < c {
        assert steps[..c][ran] == steps[ran];
        StillOpenBefore(steps, ran, c);
      }
    }
  }

  lemma StillOpenBefore<A, B, E>(steps: seq<ZipStep<A, B, E>>, i: nat, j: nat)
    requires i <= j <= |steps| && StillOpen(steps[..j])
    ensures StillOpen(steps[..i])
  {
    ProjectedIsPrefix(steps[..j], i);
    assert steps[..j][..i] == steps[..i];
    OpenOfPrefix(OnA(steps[..i]), OnA(steps[..j]));
    OpenOfPrefix(OnB(steps[..i]), OnB(steps[..j]));
  }

  lemma OpenOfPrefix<V, E>(some: seq<Step<V, E>>, all: seq<Step<V, E>>)
    requires some <= all
    ensures ValuesOpen(all) ==> ValuesOpen(some)
    ensures ErrorsOpen(all) ==> ErrorsOpen(some)
  {
    OpenBefore(all, |some|, |all|);
    assert all[..|some|] == some && all[..|all|] == all;
  }

  lemma PairedWithMoreA<A, B, Out>(values: seq<Out>, queueA: seq<A>, queueB: seq<B>, combine: (A, B) -> Out,
                                   xs: seq<A>, ys: seq<B>, v: A)
    requires Paired(values, queueA, queueB, combine, xs, ys)
    ensures var m := Min(|queueA + [v]|, |queueB|);
            Paired(values + Zipped(combine, queueA + [v], queueB), (queueA + [v])[m..], queueB[m..], combine, xs + [v], ys)
  {
    var added := Zipped(combine, queueA + [v], queueB);
    if |ys| <= |xs| {
      assert queueB == [] && added == [];
      assert Zipped(combine, xs + [v], ys) == Zipped(combine, xs, ys);
      assert queueA + [v] == (xs + [v])[|ys|..];
    } else {
      assert queueA == [] && added == [combine(v, ys[|xs|])];
      assert Zipped(combine, xs + [v], ys) == Zipped(combine, xs, ys) + added;
    }
  }

  lemma PairedWithMoreB<A, B, Out>(values: seq<Out>, queueA: seq<A>, queueB: seq<B>, combine: (A, B) -> Out,
                                   xs: seq<A>, ys: seq<B>, v: B)
    requires Paired(values, queueA, queueB, combine, xs, ys)
    ensures var m := Min(|queueA|, |queueB + [v]|);
            Paired(values + Zipped(combine, queueA, queueB + [v]), queueA[m..], (queueB + [v])[m..], combine, xs, ys + [v])
  {
    var added := Zipped(combine, queueA, queueB + [v]);
    if |xs| <= |ys| {
      assert queueA == [] && added == [];
      assert Zipped(combine, xs, ys + [v]) == Zipped(combine, xs, ys);
      assert queueB + [v] == (ys + [v])[|xs|..];
    } else {
      assert queueB == [] && added == [combine(xs[|ys|], v)];
      assert Zipped(combine, xs, ys + [v]) == Zipped(combine, xs, ys) + added;
    }
  }

  lemma ZippedPrefix<A, B, Out>(combine: (A, B) -> Out, xs: seq<A>, ys: seq<B>, allXs: seq<A>, allYs: seq<B>)
    requires xs <= allXs && ys <= allYs
    ensures Zipped(combine, xs, ys) <= Zipped(combine, allXs, allYs)
  {
  }
}
