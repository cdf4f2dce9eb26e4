/** stream.GroupBy, Switch and SwitchKey: one source split over several streams. */
module Routing {
  import opened EventLoops
  import opened Logs

  // ---- Splitting a sequence by key ----

  /** The items of s with key k, in order. */
  function Select<T, K(==)>(key: T -> K, k: K, s: seq<T>): seq<T> {
    if s == [] then []
    else
      Select(key, k, Init(s)) + if key(Last(s)) == k then [Last(s)] else []
  }

  /** The distinct keys of s in the order they first appear. */
  function FirstAppearances<T, K(==)>(key: T -> K, s: seq<T>): seq<K> {
    if s == [] then []
    else
      var before := FirstAppearances(key, Init(s));
      if key(Last(s)) in before then before else before + [key(Last(s))]
  }

  lemma SelectSnoc<T, K>(key: T -> K, k: K, s: seq<T>, v: T)
    ensures Select(key, k, s + [v]) == Select(key, k, s) + if key(v) == k then [v] else []
    ensures FirstAppearances(key, s + [v]) ==
              if key(v) in FirstAppearances(key, s) then FirstAppearances(key, s) else FirstAppearances(key, s) + [key(v)]
  {
    assert Init(s + [v]) == s;
  }

  ghost predicate Covers<T, K>(key: T -> K, keys: seq<K>, s: seq<T>) {
    forall i :: 0 <= i < |s| ==> key(s[i]) in keys
  }

  lemma {:induction false} FirstAppearancesAre<T, K>(key: T -> K, s: seq<T>)
    ensures Distinct(FirstAppearances(key, s))
    ensures Covers(key, FirstAppearances(key, s), s)
    ensures forall k :: k in FirstAppearances(key, s) ==> Select(key, k, s) != []
  {
    if s == [] {
    } else {
      FirstAppearancesAre(key, Init(s));
      assert forall i :: 0 <= i < |s| - 1 ==> Init(s)[i] == s[i];
    }
  }

  /** Everything on the streams of the given keys together. */
  ghost function Together<T, K>(key: T -> K, keys: seq<K>, s: seq<T>): multiset<T> {
    if keys == [] then multiset{}
    else Together(key, Init(keys), s) + multiset(Select(key, Last(keys), s))
  }

  lemma KeyIsOneOf<K>(keys: seq<K>, k: K)
    requires Distinct(keys) && keys != []
    ensures k == Last(keys) ==> k in keys && k !in Init(keys)
    ensures k != Last(keys) ==> (k in keys <==> k in Init(keys))
  {
    assert keys == Init(keys) + [Last(keys)];
  }

  lemma MoveOut<T>(a: multiset<T>, b: multiset<T>, c: multiset<T>)
    ensures a + (b + c) == (a + b) + c
  {
  }

  lemma MoveAcross<T>(a: multiset<T>, b: multiset<T>, c: multiset<T>)
    ensures (a + c) + b == (a + b) + c
  {
  }

  lemma {:induction false} TogetherSnoc<T, K>(key: T -> K, keys: seq<K>, s: seq<T>, v: T)
    requires Distinct(keys)
    ensures Together(key, keys, s + [v]) == Together(key, keys, s) + if key(v) in keys then multiset{v} else multiset{}
  {
    if keys == [] {
    } else {
      TogetherSnoc(key, Init(keys), s, v);
      SelectSnoc(key, Last(keys), s, v);
      var before, mine := Together(key, Init(keys), s), Select(key, Last(keys), s);
      KeyIsOneOf(keys, key(v));
      if key(v) == Last(keys) {
        assert multiset(mine + [v]) == multiset(mine) + multiset{v};
        MoveOut(before, multiset(mine), multiset{v});
      } else if key(v) in keys {
        MoveAcross(before, multiset(mine), multiset{v});
      }
    }
  }

  lemma {:induction false} TogetherEmpty<T, K>(key: T -> K, keys: seq<K>)
    ensures Together(key, keys, []) == multiset{}
  {
    if keys == [] {
    } else {
      TogetherEmpty(key, Init(keys));
    }
  }

  lemma CoversSplit<T, K>(key: T -> K, keys: seq<K>, s: seq<T>, v: T)
    requires Covers(key, keys, s + [v])
    ensures Covers(key, keys, s) && key(v) in keys
  {
    assert forall i :: 0 <= i < |s| ==> (s + [v])[i] == s[i];
    assert (s + [v])[|s|] == v;
  }

  /** Splitting by key loses and duplicates nothing: if every item's key is among the distinct keys,
      the streams together hold exactly the source. */
  lemma {:induction false} SplitIsPartition<T, K>(key: T -> K, keys: seq<K>, s: seq<T>)
    requires Distinct(keys) && Covers(key, keys, s)
    ensures Together(key, keys, s) == multiset(s)
  {
    if s == [] {
      TogetherEmpty(key, keys);
    } else {
      assert s == Init(s) + [Last(s)];
      CoversSplit(key, keys, Init(s), Last(s));
      SplitIsPartition(key, keys, Init(s));
      TogetherSnoc(key, keys, Init(s), Last(s));
    }
  }

  // ---- GroupBy ----

  ghost predicate Grouped<T, K(!new)>(groups: map<K, seq<T>>, calls: seq<K>, key: T -> K, taken: seq<T>) {
    && calls == FirstAppearances(key, taken)
    && (forall k :: k in groups <==> k in calls)
    && (forall k :: k in groups ==> groups[k] == Select(key, k, taken))
  }

  lemma GroupedNext<T, K(!new)>(groups: map<K, seq<T>>, calls: seq<K>, key: T -> K, taken: seq<T>, v: T)
    requires Grouped(groups, calls, key, taken)
    ensures Grouped(groups[key(v) := (if key(v) in groups then groups[key(v)] else []) + [v]],
                    if key(v) in groups then calls else calls + [key(v)], key, taken + [v])
  {
    forall k ensures Select(key, k, taken + [v]) == Select(key, k, taken) + if key(v) == k then [v] else [] {
      SelectSnoc(key, k, taken, v);
    }
    SelectSnoc(key, key(v), taken, v);
    if key(v) !in groups { SelectAbsent(key, key(v), taken); }
  }

  lemma {:induction false} SelectAbsent<T, K>(key: T -> K, k: K, s: seq<T>)
    requires k !in FirstAppearances(key, s)
    ensures Select(key, k, s) == []
  {
    if s == [] {
    } else {
      SelectAbsent(key, k, Init(s));
    }
  }

  /** As Grouped, but only the items in sent have gone out: the item received last may be missing from
      its stream, which has been announced all the same. */
  ghost predicate GroupedCut<T, K(!new)>(groups: map<K, seq<T>>, calls: seq<K>, key: T -> K, taken: seq<T>, sent: seq<T>) {
    && calls == FirstAppearances(key, taken)
    && (forall k :: k in groups <==> k in calls)
    && (forall k :: k in groups ==> groups[k] == Select(key, k, sent))
  }

  lemma GroupedDrop<T, K(!new)>(groups: map<K, seq<T>>, calls: seq<K>, key: T -> K, taken: seq<T>, v: T)
    requires Grouped(groups, calls, key, taken)
    ensures GroupedCut(if key(v) in groups then groups else groups[key(v) := []],
                       if key(v) in groups then calls else calls + [key(v)], key, taken + [v], taken)
  {
    SelectSnoc(key, key(v), taken, v);
    if key(v) !in groups { SelectAbsent(key, key(v), taken); }
  }

  /** Opening the stream of a new key, announcing it, and sending the item. */
  method Deliver<T, K(==, !new)>(groups: map<K, seq<T>>, calls: seq<K>, key: T -> K, v: T, sent: bool, ghost taken: seq<T>)
    returns (newGroups: map<K, seq<T>>, newCalls: seq<K>)
    requires Grouped(groups, calls, key, taken)
    ensures sent ==> Grouped(newGroups, newCalls, key, taken + [v])
    ensures !sent ==> GroupedCut(newGroups, newCalls, key, taken + [v], taken)
  {
    newGroups, newCalls := groups, calls;
    var k := key(v);
    if k !in groups {
      newGroups := newGroups[k := []];
      newCalls := newCalls + [k];
    }
    if sent {
      newGroups := newGroups[k := newGroups[k] + [v]];
      assert newGroups == groups[k := (if k in groups then groups[k] else []) + [v]];
      GroupedNext(groups, calls, key, taken, v);
    } else {
      GroupedDrop(groups, calls, key, taken, v);
    }
  }

  /** The items received when the dispatch has come to step ran: what the steps before it deliver, and
      the item of step ran if its send was given up. */
  ghost predicate Received<T, E>(steps: seq<Step<T, E>>, ran: nat, taken: seq<T>)
    requires ran <= |steps|
  {
    || taken == Taken(steps[..ran])
    || (ran < |steps| && steps[ran].event.Value? && !steps[ran].sent && taken == Taken(steps[..ran + 1]))
  }

  /** Every item received before step ran from the open channel has been sent on. */
  ghost predicate ItemsSent<T, E>(steps: seq<Step<T, E>>, ran: nat)
    requires ran <= |steps|
  {
    forall i | 0 <= i < ran && steps[i].event.Value? && ValuesOpen(steps[..i]) :: steps[i].sent
  }

  ghost predicate Dispatching<T, E, K(!new)>(steps: seq<Step<T, E>>, i: nat, key: T -> K, groups: map<K, seq<T>>,
                                             calls: seq<K>, taken: seq<T>, valuesOpen: bool, errorsOpen: bool)
    requires i <= |steps|
  {
    && valuesOpen == ValuesOpen(steps[..i]) && errorsOpen == ErrorsOpen(steps[..i])
    && taken == Taken(steps[..i]) && Grouped(groups, calls, key, taken)
  }

  /** The case that step i takes. returned tells that the function returned instead. */
  method DispatchStep<T, E, K(==, !new)>(steps: seq<Step<T, E>>, i: nat, key: T -> K, groups: map<K, seq<T>>,
                                         calls: seq<K>, taken: seq<T>, valuesOpen: bool, errorsOpen: bool)
    returns (groups': map<K, seq<T>>, calls': seq<K>, taken': seq<T>, valuesOpen': bool, errorsOpen': bool, returned: bool)
    requires i < |steps| && Dispatching(steps, i, key, groups, calls, taken, valuesOpen, errorsOpen)
    ensures returned <==> steps[i].event.Cancelled? || (steps[i].event.Value? && valuesOpen && !steps[i].sent)
    ensures returned ==> Received(steps, i, taken') && GroupedCut(groups', calls', key, taken', Taken(steps[..i]))
    ensures !returned ==> Dispatching(steps, i + 1, key, groups', calls', taken', valuesOpen', errorsOpen')
  {
    TakenNext(steps, i);
    groups', calls', taken', valuesOpen', errorsOpen', returned := groups, calls, taken, valuesOpen, errorsOpen, false;
    match steps[i].event {
      case Cancelled => returned := true;
      case ValuesClosed => valuesOpen' := false;
      case ErrorsClosed => errorsOpen' := false;
      case Value(v) =>
        if valuesOpen {
          groups', calls' := Deliver(groups, calls, key, v, steps[i].sent, taken);
          taken' := taken + [v];
          returned := !steps[i].sent;
        }
      case Failure(e) =>
      case Timer =>
    }
  }

  lemma DispatchedSoFar<T, E, K(!new)>(steps: seq<Step<T, E>>, i: nat, key: T -> K, groups: map<K, seq<T>>,
                                       calls: seq<K>, taken: seq<T>, valuesOpen: bool, errorsOpen: bool)
    requires i <= |steps| && Dispatching(steps, i, key, groups, calls, taken, valuesOpen, errorsOpen)
    ensures Received(steps, i, taken) && GroupedCut(groups, calls, key, taken, Taken(steps[..i]))
    ensures valuesOpen == ValuesOpen(steps[..i]) && errorsOpen == ErrorsOpen(steps[..i]) && taken == Taken(steps[..i])
  {}

  lemma NothingDispatchedYet<T, E, K(!new)>(steps: seq<Step<T, E>>, key: T -> K)
    ensures Dispatching(steps, 0, key, map[], [], [], true, true) && ItemsSent(steps, 0)
  {}

  /** The dispatch loop. */
  method Dispatch<T, E, K(==, !new)>(steps: seq<Step<T, E>>, key: T -> K)
    returns (groups: map<K, seq<T>>, calls: seq<K>, taken: seq<T>, ran: nat)
    ensures EndsAt(steps, ran, false) && ItemsSent(steps, ran)
    ensures ran < |steps| && (ValuesOpen(steps[..ran]) || ErrorsOpen(steps[..ran])) ==>
              steps[ran].event.Cancelled? || (steps[ran].event.Value? && ValuesOpen(steps[..ran]) && !steps[ran].sent)
    ensures Received(steps, ran, taken)
    ensures GroupedCut(groups, calls, key, taken, Taken(steps[..ran]))
    ensures Uncancelled(steps) ==> taken == Taken(steps) == Taken(steps[..ran])
  {
    hide Dispatching, Received, GroupedCut, ValuesOpen, ErrorsOpen, Taken;
    groups, calls, taken, ran := map[], [], [], 0;
    var valuesOpen, errorsOpen, returned := true, true, false;
    NothingDispatchedYet(steps, key);
    while ran < |steps| && (valuesOpen || errorsOpen) && !returned
      invariant ran <= |steps| && ItemsSent(steps, ran) && forall i | 0 <= i < ran :: !steps[i].event.Cancelled?
      invariant !returned ==> Dispatching(steps, ran, key, groups, calls, taken, valuesOpen, errorsOpen)
      invariant returned ==>
        ran < |steps| &&
        (steps[ran].event.Cancelled? || (steps[ran].event.Value? && ValuesOpen(steps[..ran]) && !steps[ran].sent))
      invariant returned ==> Received(steps, ran, taken) && GroupedCut(groups, calls, key, taken, Taken(steps[..ran]))
      decreases |steps| - ran, !returned
    {
      DispatchedSoFar(steps, ran, key, groups, calls, taken, valuesOpen, errorsOpen);
      groups, calls, taken, valuesOpen, errorsOpen, returned :=
        DispatchStep(steps, ran, key, groups, calls, taken, valuesOpen, errorsOpen);
      if !returned { ran := ran + 1; }
    }
    if !returned { DispatchedSoFar(steps, ran, key, groups, calls, taken, valuesOpen, errorsOpen); }
    TakenSoFar(steps, ran);
    assert ran == |steps| ==> steps[..ran] == steps;
  }

  lemma ReceivedIsTaken<T, E>(steps: seq<Step<T, E>>, i: nat, taken: seq<T>)
    requires i <= |steps| && Received(steps, i, taken)
    ensures taken <= Taken(steps)
  {
    hide Taken, Failed, ValuesOpen, ErrorsOpen;
    TakenSoFar(steps, i);
    if i < |steps| { TakenSoFar(steps, i + 1); }
  }

  /** Each key's stream carries exactly the source's items with that key, onKey is called once per key
      in first-appearance order, and in the end every stream is closed once. The loop ends at the first
      step that sees a done context, if a channel is open then and no send was given up before; the
      streams hold the items of the steps before that, and only the one item whose send was given up may
      be missing from its stream. */
  method GroupBy<T, E, K(==, !new)>(steps: seq<Step<T, E>>, key: T -> K)
    returns (groups: map<K, seq<T>>, calls: seq<K>, closed: seq<K>, taken: seq<T>, ran: nat)
    ensures EndsAt(steps, ran, false) && ItemsSent(steps, ran)
    ensures ran < |steps| && (ValuesOpen(steps[..ran]) || ErrorsOpen(steps[..ran])) ==>
              steps[ran].event.Cancelled? || (steps[ran].event.Value? && ValuesOpen(steps[..ran]) && !steps[ran].sent)
    ensures Received(steps, ran, taken) && taken <= Taken(steps)
    ensures GroupedCut(groups, calls, key, taken, Taken(steps[..ran]))
    ensures forall c: nat | c < |steps| && steps[c].event.Cancelled? && Uncancelled(steps[..c]) &&
              (ValuesOpen(steps[..c]) || ErrorsOpen(steps[..c])) :: ran == c
    ensures Uncancelled(steps) ==> taken == Taken(steps) && Grouped(groups, calls, key, taken)
    ensures Distinct(closed) && forall k :: k in closed <==> k in groups
  {
    groups, calls, taken, ran := Dispatch(steps, key);
    DoneContextEndsLoop(steps, ran, false);
    ReceivedIsTaken(steps, ran, taken);
    closed := CloseAll(groups.Keys);
  }

  /** The deferred loop that closes every stream, in whatever order the map yields them. */
  method CloseAll<K(==)>(keys: set<K>) returns (closed: seq<K>)
    ensures Distinct(closed) && forall k :: k in closed <==> k in keys
  {
    closed := [];
    var todo := keys;
    while todo != {}
      invariant todo <= keys && Distinct(closed)
      invariant forall k :: k in closed <==> k in keys - todo
    {
      var k :| k in todo;
      assert k !in closed;
      closed := closed + [k];
      todo := todo - {k};
    }
  }

  /** Nothing is lost or duplicated across the per-key streams. */
  lemma GroupsHoldTheSource<T, K(!new)>(groups: map<K, seq<T>>, calls: seq<K>, key: T -> K, taken: seq<T>)
    requires Grouped(groups, calls, key, taken)
    ensures Distinct(calls) && Together(key, calls, taken) == multiset(taken)
    ensures forall k :: k in calls ==> k in groups && groups[k] == Select(key, k, taken) && groups[k] != []
  {
    FirstAppearancesAre(key, taken);
    SplitIsPartition(key, calls, taken);
  }

  // ---- Switch ----

  /** The first case whose predicate matches, or -1. */
  method FirstMatch<T>(cases: seq<T -> bool>, v: T) returns (r: int)
    ensures r == MatchIndex(cases, v)
    ensures -1 <= r < |cases|
    ensures r >= 0 ==> cases[r](v)
    ensures forall i :: 0 <= i < (if r >= 0 then r else |cases|) ==> !cases[i](v)
  {
    for i := 0 to |cases|
      invariant forall k :: 0 <= k < i ==> !cases[k](v)
    {
      if cases[i](v) {
        MatchIndexIs(cases, v, i);
        return i;
      }
    }
    MatchIndexIs(cases, v, -1);
    return -1;
  }

  ghost function MatchIndex<T>(cases: seq<T -> bool>, v: T): int {
    if i :| 0 <= i < |cases| && cases[i](v) && forall k :: 0 <= k < i ==> !cases[k](v) then i else -1
  }

  lemma MatchIndexIs<T>(cases: seq<T -> bool>, v: T, r: int)
    requires r == -1 || (0 <= r < |cases| && cases[r](v))
    requires forall k :: 0 <= k < (if r >= 0 then r else |cases|) ==> !cases[k](v)
    ensures MatchIndex(cases, v) == r
  {
  }

  /** SwitchKey's index of the declared keys; None is the panic on a duplicate. */
  method IndexKeys<K(==)>(keys: seq<K>) returns (ok: bool, index: map<K, int>)
    ensures ok <==> Distinct(keys)
    ensures ok ==> forall k :: k in index <==> k in keys
    ensures ok ==> forall i :: 0 <= i < |keys| ==> keys[i] in index && index[keys[i]] == i
  {
    index := map[];
    for i := 0 to |keys|
      invariant Distinct(keys[..i])
      invariant forall k :: k in index <==> k in keys[..i]
      invariant forall k :: 0 <= k < i ==> keys[k] in index && index[keys[k]] == k
    {
      if keys[i] in index {
        var k :| 0 <= k < i && keys[..i][k] == keys[i];
        assert keys[k] == keys[i];
        return false, index;
      }
      index := index[keys[i] := i];
      assert keys[..i + 1] == keys[..i] + [keys[i]];
    }
    assert keys[..|keys|] == keys;
    return true, index;
  }

  /** outs[i] is the i-th case's stream and rest the stream of the items no case takes. */
  ghost predicate Switched<T>(outs: seq<seq<T>>, rest: seq<T>, choose: T -> int, taken: seq<T>) {
    && (forall i :: 0 <= i < |outs| ==> outs[i] == Select(choose, i, taken))
    && rest == Select(choose, -1, taken)
  }

  lemma SwitchedNext<T>(outs: seq<seq<T>>, rest: seq<T>, choose: T -> int, taken: seq<T>, v: T)
    requires Switched(outs, rest, choose, taken) && -1 <= choose(v) < |outs|
    ensures Switched(if choose(v) >= 0 then outs[choose(v) := outs[choose(v)] + [v]] else outs,
                     if choose(v) >= 0 then rest else rest + [v], choose, taken + [v])
  {
    forall i ensures Select(choose, i, taken + [v]) == Select(choose, i, taken) + if choose(v) == i then [v] else [] {
      SelectSnoc(choose, i, taken, v);
    }
  }

  /** The deferred loop of Switch and SwitchKey: the case streams in order, then rest. */
  method CloseCases(n: nat) returns (closed: seq<int>)
    ensures |closed| == n + 1 && Distinct(closed)
    ensures closed[n] == -1 && forall i :: 0 <= i < n ==> closed[i] == i
  {
    closed := [];
    for i := 0 to n
      invariant |closed| == i && forall k :: 0 <= k < i ==> closed[k] == k
    {
      closed := closed + [i];
    }
    closed := closed + [-1];
  }

  ghost predicate Switching<T, E>(steps: seq<Step<T, E>>, i: nat, n: nat, choose: T -> int, outs: seq<seq<T>>, rest: seq<T>)
    requires i <= |steps|
  {
    |outs| == n && Switched(outs, rest, choose, Taken(steps[..i]))
  }

  /** The case that step i takes. returned tells that the goroutine returned instead. */
  method SwitchStep<T, E>(steps: seq<Step<T, E>>, i: nat, n: nat, choose: T -> int, outs: seq<seq<T>>, rest: seq<T>,
                          valuesOpen: bool, errorsOpen: bool, restErrs: seq<E>)
    returns (outs': seq<seq<T>>, rest': seq<T>, valuesOpen': bool, errorsOpen': bool, restErrs': seq<E>, returned: bool)
    requires i < |steps| && (steps[i].event.Value? ==> -1 <= choose(steps[i].event.v) < n)
    requires Switching(steps, i, n, choose, outs, rest) && Tracking(steps, i, valuesOpen, errorsOpen, restErrs)
    ensures returned <==>
              || steps[i].event.Cancelled?
              || (!steps[i].sent && ((steps[i].event.Value? && valuesOpen) || (steps[i].event.Failure? && errorsOpen)))
    ensures !returned ==> Switching(steps, i + 1, n, choose, outs', rest')
    ensures !returned ==> Tracking(steps, i + 1, valuesOpen', errorsOpen', restErrs')
  {
    TakenNext(steps, i);
    assert Taken(steps[..i]) + [] == Taken(steps[..i]);
    outs', rest', valuesOpen', errorsOpen', restErrs', returned := outs, rest, valuesOpen, errorsOpen, restErrs, false;
    match steps[i].event {
      case Cancelled => returned := true;
      case ValuesClosed => valuesOpen' := false;
      case ErrorsClosed => errorsOpen' := false;
      case Value(v) =>
        if valuesOpen {
          if !steps[i].sent {
            returned := true;
          } else {
            SwitchedNext(outs, rest, choose, Taken(steps[..i]), v);
            var idx := choose(v);
            if idx >= 0 { outs' := outs[idx := outs[idx] + [v]]; } else { rest' := rest + [v]; }
          }
        }
      case Failure(e) =>
        if errorsOpen {
          if steps[i].sent { restErrs' := restErrs + [e]; } else { returned := true; }
        }
      case Timer =>
    }
  }

  lemma NothingSwitchedYet<T, E>(steps: seq<Step<T, E>>, n: nat, choose: T -> int, outs: seq<seq<T>>)
    requires |outs| == n && forall i | 0 <= i < n :: outs[i] == []
    ensures Switching(steps, 0, n, choose, outs, []) && Tracking(steps, 0, true, true, [])
    ensures ItemsSent(steps, 0) && ErrorsSent(steps, 0)
  {}

  /** The dispatch loop of Switch and SwitchKey. */
  method SwitchLoop<T, E>(steps: seq<Step<T, E>>, n: nat, choose: T -> int)
    returns (outs: seq<seq<T>>, rest: seq<T>, restErrs: seq<E>, ran: nat)
    requires forall v: T :: -1 <= choose(v) < n
    ensures EndsAt(steps, ran, false) && ItemsSent(steps, ran) && ErrorsSent(steps, ran)
    ensures ran < |steps| && (ValuesOpen(steps[..ran]) || ErrorsOpen(steps[..ran])) ==>
              steps[ran].event.Cancelled? || !ItemsSent(steps, ran + 1) || !ErrorsSent(steps, ran + 1)
    ensures Switching(steps, ran, n, choose, outs, rest) && restErrs == Failed(steps[..ran])
  {
    hide Switching, ValuesOpen, ErrorsOpen, Failed;
    outs, rest, restErrs, ran := seq(n, i => []), [], [], 0;
    var valuesOpen, errorsOpen := true, true;
    NothingSwitchedYet(steps, n, choose, outs);
    while ran < |steps| && (valuesOpen || errorsOpen)
      invariant ran <= |steps| && Switching(steps, ran, n, choose, outs, rest)
      invariant Tracking(steps, ran, valuesOpen, errorsOpen, restErrs)
      invariant forall i | 0 <= i < ran :: !steps[i].event.Cancelled?
      invariant ItemsSent(steps, ran) && ErrorsSent(steps, ran)
    {
      var outs', rest', valuesOpen', errorsOpen', restErrs', returned :=
        SwitchStep(steps, ran, n, choose, outs, rest, valuesOpen, errorsOpen, restErrs);
      if returned { return; }
      outs, rest, valuesOpen, errorsOpen, restErrs, ran := outs', rest', valuesOpen', errorsOpen', restErrs', ran + 1;
    }
  }

  /** Case streams get the items chosen for them, the rest stream every other item and all errors,
      each in source order; in the end every case stream (its number) and rest (-1) is closed once,
      however the loop ended. It ends at the first step that sees a done context, if a channel is open
      then and no send was given up before; what came out is what the steps before that give. */
  method SwitchBy<T, E>(steps: seq<Step<T, E>>, n: nat, choose: T -> int)
    returns (outs: seq<seq<T>>, rest: seq<T>, restErrs: seq<E>, closed: seq<int>, ran: nat)
    requires forall v: T :: -1 <= choose(v) < n
    ensures |outs| == n && EndsAt(steps, ran, false) && ItemsSent(steps, ran) && ErrorsSent(steps, ran)
    ensures ran < |steps| && (ValuesOpen(steps[..ran]) || ErrorsOpen(steps[..ran])) ==>
              steps[ran].event.Cancelled? || !ItemsSent(steps, ran + 1) || !ErrorsSent(steps, ran + 1)
    ensures Switched(outs, rest, choose, Taken(steps[..ran])) && restErrs == Failed(steps[..ran])
    ensures Taken(steps[..ran]) <= Taken(steps) && restErrs <= Failed(steps)
    ensures forall c: nat | c < |steps| && steps[c].event.Cancelled? && Uncancelled(steps[..c]) &&
              (ValuesOpen(steps[..c]) || ErrorsOpen(steps[..c])) :: ran == c
    ensures Uncancelled(steps) ==> Switched(outs, rest, choose, Taken(steps)) && restErrs == Failed(steps)
    ensures |closed| == n + 1 && Distinct(closed)
    ensures closed[n] == -1 && forall i :: 0 <= i < n ==> closed[i] == i
  {
    outs, rest, restErrs, ran := SwitchLoop(steps, n, choose);
    DoneContextEndsLoop(steps, ran, false);
    TakenSoFar(steps, ran);
    assert ran == |steps| ==> steps[..ran] == steps;
    closed := CloseCases(n);
  }

  /** -1 and the case numbers. */
  function CaseNumbers(n: nat): (cases: seq<int>)
    ensures |cases| == n + 1
  {
    seq(n + 1, i => i - 1)
  }

  /** Every item goes to exactly one stream. */
  lemma SwitchHoldsTheSource<T>(n: nat, choose: T -> int, taken: seq<T>)
    requires forall i :: 0 <= i < |taken| ==> -1 <= choose(taken[i]) < n
    ensures Together(choose, CaseNumbers(n), taken) == multiset(taken)
  {
    var cases := CaseNumbers(n);
    forall i | 0 <= i < |taken| ensures choose(taken[i]) in cases { assert cases[choose(taken[i]) + 1] == choose(taken[i]); }
    SplitIsPartition(choose, cases, taken);
  }
}
