/** A started sink port whose context lives goes on: a push can be accepted and everything accepted can
    be brought to every sink, by the port's own steps. */
module SinkProgress {
  import opened Logs
  import opened SinkPush
  import opened SinkClosing
  import opened SinkDraining
  import opened Wire

  // ---- What the schedule says ----

  /** The item of the latest Push that caller t has made. */
  function EnteredBy(acts: seq<Action>, t: int): Option<Item> {
    if acts == [] then None
    else if Last(acts).Enter? && Last(acts).t == t then Some(Last(acts).v)
    else EnteredBy(Init(acts), t)
  }

  function ItemOf(entered: Option<Item>): seq<Item> {
    match entered case Some(v) => [v] case None => []
  }

  /** The items of the pushes that were sent, to the push channel's buffer or to the relay. */
  function SentIn(acts: seq<Action>): seq<Item> {
    if acts == [] then []
    else
      SentIn(Init(acts)) +
      match Last(acts)
      case Offer(t) => ItemOf(EnteredBy(Init(acts), t))
      case HandPush(t) => ItemOf(EnteredBy(Init(acts), t))
      case _ => []
  }

  function ItemOfPusher(p: Pusher): Item {
    match p case Entered(v) => v case Offering(v) => v
  }

  ghost predicate AsScheduled(s: State, acts: seq<Action>) {
    && s.accepted == SentIn(acts)
    && forall t | t in s.pushers :: EnteredBy(acts, t) == Some(ItemOfPusher(s.pushers[t]))
  }

  lemma ScheduledStep(c: Config, s: State, acts: seq<Action>)
    requires acts != [] && Shape(c, s) && AsScheduled(s, Init(acts)) && Enabled(c, s, Last(acts))
    ensures AsScheduled(Fire(c, s, Last(acts)), acts)
  {
    var a := Last(acts);
    if CallerStep(a) {
      CallerScheduled(c, s, acts);
    } else if a.HandPush? {
    } else {
      OthersLeaveCallers(c, s, a);
    }
  }

  lemma CallerScheduled(c: Config, s: State, acts: seq<Action>)
    requires acts != [] && Shape(c, s) && AsScheduled(s, Init(acts)) && Enabled(c, s, Last(acts)) && CallerStep(Last(acts))
    ensures AsScheduled(Fire(c, s, Last(acts)), acts)
  {
    var a := Last(acts);
    if a.Enter? || a.Check? || a.Offer? { EntryScheduled(c, s, acts); } else { LeavingPushesNothing(c, s, a); }
  }

  lemma EntryScheduled(c: Config, s: State, acts: seq<Action>)
    requires acts != [] && Shape(c, s) && AsScheduled(s, Init(acts)) && Enabled(c, s, Last(acts))
    requires Last(acts).Enter? || Last(acts).Check? || Last(acts).Offer?
    ensures AsScheduled(Fire(c, s, Last(acts)), acts)
  {
    match Last(acts)
    case Enter(_, _) =>
    case Check(_) =>
    case Offer(_) =>
    case _ =>
  }

  lemma LeavingPushesNothing(c: Config, s: State, a: Action)
    requires Enabled(c, s, a) && CallerStep(a) && !a.Enter? && !a.Check? && !a.Offer?
    ensures var s' := Fire(c, s, a);
            s'.accepted == s.accepted && forall t | t in s'.pushers :: t in s.pushers && s'.pushers[t] == s.pushers[t]
  {
    match a
    case Start =>
    case GiveUp(_) =>
    case CloseMark(_) =>
    case CloseChannel =>
    case CloseReturn(_) =>
    case _ =>
  }

  /** What counts as accepted are the items of the Push calls whose send happened, in that order. */
  lemma {:induction false} AcceptedIsSchedule(c: Config, acts: seq<Action>)
    requires Exec(c, acts).Some?
    ensures Exec(c, acts).value.accepted == SentIn(acts)
    ensures AsScheduled(Exec(c, acts).value, acts)
  {
    if acts == [] {
    } else {
      AcceptedIsSchedule(c, Init(acts));
      RunKeepsInv(c, Init(acts));
      ScheduledStep(c, Exec(c, Init(acts)).value, acts);
    }
  }

  // ---- Going on ----

  /** Push-started or being closed, but not yet closed to pushes, and the context lives. */
  ghost predicate Working(s: State) {
    Running(s) && !s.pushClosed && !s.cancelled
  }

  /** Nothing is under way: every accepted item has been consumed everywhere. */
  ghost predicate AtRest(s: State) {
    s.pushQueue == [] && s.relay.Idle? && s.drain.Selecting? && forall k | IsSink(s, k) :: s.sinks[k].queue == []
  }

  /** Steps of the relay, the drain and the adapters. */
  ghost predicate Moves(a: Action) {
    a.RelayTake? || a.HandOver? || a.SinkSend? || a.SinkHand? || a.SendEnd? || a.Consume?
  }

  ghost predicate SamePushers(s: State, t: State) {
    t.pushers == s.pushers && t.mode == s.mode && t.pushClosed == s.pushClosed && t.cancelled == s.cancelled
    && t.accepted == s.accepted
  }

  /** While anything is under way some move brings it nearer to the sinks. */
  lemma NextMove(c: Config, s: State) returns (a: Action)
    requires Shape(c, s) && EndsInOrder(s) && Working(s) && !AtRest(s)
    ensures Moves(a) && Enabled(c, s, a) && LessLeft(Fire(c, s, a), s) && SamePushers(s, Fire(c, s, a))
  {
    if s.drain.Sending? {
      a := AdvanceSending(c, s);
    } else if s.relay.Holding? {
      a := HandOver;
    } else if s.pushQueue != [] {
      a := RelayTake;
    } else {
      var k :| IsSink(s, k) && s.sinks[k].queue != [];
      a := Consume(k);
      ConsumeAdvances(c, s, k);
    }
    OthersLeaveCallers(c, s, a);
  }

  ghost predicate OnlyMoves(acts: seq<Action>, n: nat) {
    forall i | n <= i < |acts| :: Moves(acts[i])
  }

  lemma OnlyMovesAlso(acts: seq<Action>, a: Action, acts': seq<Action>)
    requires acts + [a] <= acts' && Moves(a) && OnlyMoves(acts', |acts| + 1)
    ensures acts <= acts' && OnlyMoves(acts', |acts|)
  {
    hide Moves;
    assert acts'[|acts|] == a;
  }

  lemma {:induction false} CanComeToRest(c: Config, acts: seq<Action>) returns (acts': seq<Action>)
    requires Exec(c, acts).Some? && Working(Exec(c, acts).value)
    ensures acts <= acts' && OnlyMoves(acts', |acts|) && Exec(c, acts').Some?
    ensures AtRest(Exec(c, acts').value) && SamePushers(Exec(c, acts).value, Exec(c, acts').value)
    ensures Working(Exec(c, acts').value)
    decreases |Exec(c, acts).value.pushQueue|, RelayRank(Exec(c, acts).value.relay), OpenEnds(Exec(c, acts).value),
              DrainRank(Exec(c, acts).value.drain, |Exec(c, acts).value.sinks|), Load(Exec(c, acts).value.sinks)
  {
    hide Enabled, Fire, Shape, EndsInOrder, Moves;
    RunKeepsInv(c, acts);
    var s := Exec(c, acts).value;
    if AtRest(s) {
      acts' := acts;
    } else {
      var a := NextMove(c, s);
      ExecSnoc(c, acts, a);
      acts' := CanComeToRest(c, acts + [a]);
      OnlyMovesAlso(acts, a, acts');
    }
  }

  lemma RestDelivers(c: Config, s: State)
    requires Inv(c, s) && Working(s) && AtRest(s)
    ensures Delivered(s)
  {
    forall k | IsSink(s, k) ensures s.sinks[k].consumed == s.accepted {
      assert FlowAt(s, k);
    }
  }

  /** Everything accepted so far can be consumed by every sink before anything else happens. */
  lemma {:induction false} AcceptedCanBeConsumed(c: Config, acts: seq<Action>) returns (acts': seq<Action>)
    requires Exec(c, acts).Some? && Working(Exec(c, acts).value)
    ensures acts <= acts' && OnlyMoves(acts', |acts|) && Exec(c, acts').Some? && !Exec(c, acts').value.cancelled
    ensures Exec(c, acts').value.accepted == Exec(c, acts).value.accepted && Delivered(Exec(c, acts').value)
  {
    acts' := CanComeToRest(c, acts);
    RunKeepsInv(c, acts');
    RestDelivers(c, Exec(c, acts').value);
  }

  /** After n the port moves and caller t pushes, and nothing else. */
  ghost predicate MovesAndPush(acts: seq<Action>, n: nat, t: int) {
    forall i | n <= i < |acts| :: Moves(acts[i]) || acts[i] == Check(t) || acts[i] == HandPush(t)
  }

  lemma PushSteps(acts: seq<Action>, moved: seq<Action>, t: int)
    requires acts <= moved && OnlyMoves(moved, |acts|)
    ensures MovesAndPush(moved + [Check(t)] + [HandPush(t)], |acts|, t)
    ensures MovesAndPush(moved + [HandPush(t)], |acts|, t)
  {
    hide Moves;
  }

  /** A Push that has been let in on a started port can be accepted, whatever fills the buffers: no state
      of an uncancelled run keeps it from that. */
  lemma {:induction false} WaitingPushCanBeAccepted(c: Config, acts: seq<Action>, t: int) returns (acts': seq<Action>)
    requires Exec(c, acts).Some? && !Exec(c, acts).value.cancelled
    requires Exec(c, acts).value.mode == PushFed && t in Exec(c, acts).value.pushers
    ensures acts <= acts' && MovesAndPush(acts', |acts|, t) && Exec(c, acts').Some? && !Exec(c, acts').value.cancelled
    ensures t !in Exec(c, acts').value.pushers && Working(Exec(c, acts').value)
    ensures Exec(c, acts').value.accepted == Exec(c, acts).value.accepted + [ItemOfPusher(Exec(c, acts).value.pushers[t])]
  {
    RunKeepsInv(c, acts);
    var moved := CanComeToRest(c, acts);
    PushSteps(acts, moved, t);
    RunKeepsInv(c, moved);
    acts' := moved;
    if Exec(c, moved).value.pushers[t].Entered? {
      ExecSnoc(c, moved, Check(t));
      acts' := moved + [Check(t)];
    }
    ExecSnoc(c, acts', HandPush(t));
    acts' := acts' + [HandPush(t)];
  }

  lemma PushEnters(c: Config, acts: seq<Action>, t: int, v: Item)
    requires Exec(c, acts).Some? && Shape(c, Exec(c, acts).value)
    requires Exec(c, acts).value.mode == PushFed && t !in Exec(c, acts).value.pushers
    ensures var s, s' := Exec(c, acts).value, Exec(c, acts + [Enter(t, v)]);
            s' == Some(s.(pushers := s.pushers[t := Entered(v)]))
  {
    ExecSnoc(c, acts, Enter(t, v));
  }

  /** So the next Push of any caller can be accepted and consumed by every sink. */
  lemma {:induction false} NextPushCanArrive(c: Config, acts: seq<Action>, t: int, v: Item) returns (acts': seq<Action>)
    requires Exec(c, acts).Some? && !Exec(c, acts).value.cancelled
    requires Exec(c, acts).value.mode == PushFed && t !in Exec(c, acts).value.pushers
    ensures acts <= acts' && Exec(c, acts').Some? && !Exec(c, acts').value.cancelled
    ensures Exec(c, acts').value.accepted == Exec(c, acts).value.accepted + [v] && Delivered(Exec(c, acts').value)
  {
    hide Enabled, Fire, Shape, EndsInOrder, Flow, Moves, Delivered;
    RunKeepsInv(c, acts);
    PushEnters(c, acts, t, v);
    var accepted := WaitingPushCanBeAccepted(c, acts + [Enter(t, v)], t);
    acts' := AcceptedCanBeConsumed(c, accepted);
  }

  /** And a Close that finds the port started and nobody holding the lock can do all of its work and
      return, with everything accepted delivered. */
  lemma {:induction false} CloseCanComplete(c: Config, acts: seq<Action>, t: int) returns (acts': seq<Action>)
    requires Exec(c, acts).Some? && Exec(c, acts).value.mode == PushFed && Unlocked(Exec(c, acts).value)
    ensures acts + [CloseMark(t)] + [CloseChannel] <= acts' && OwnSteps(acts', |acts| + 2)
    ensures Exec(c, acts').Some? && Exec(c, acts').value.mode == Closed && t in Exec(c, acts').value.returned
    ensures Exec(c, acts').value.accepted == Exec(c, acts).value.accepted
    ensures !Exec(c, acts).value.cancelled ==> Delivered(Exec(c, acts').value)
  {
    hide EndsInOrder, Flow, Delivered, OwnSteps;
    RunKeepsInv(c, acts);
    ExecSnoc(c, acts, CloseMark(t));
    ExecSnoc(c, acts + [CloseMark(t)], CloseChannel);
    var closed := acts + [CloseMark(t)] + [CloseChannel];
    acts' := CloseCanReturn(c, closed, t);
    ClosedIsFinal(c, closed, acts');
  }

  /** A Start that finds nobody holding the lock starts the port if it is the first, and otherwise changes
      nothing. */
  lemma {:induction false} StartTakesOver(c: Config, acts: seq<Action>)
    requires Exec(c, acts).Some? && Unlocked(Exec(c, acts).value)
    ensures var s := Exec(c, acts).value;
            Exec(c, acts + [Start]) == Some(if s.mode == Unfed then s.(mode := PushFed) else s)
  {
    ExecSnoc(c, acts, Start);
  }
}
