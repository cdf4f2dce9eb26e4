/** stream.BroadcastHub: one source offered to every current subscriber, without ever waiting. */
module Broadcast {
  import opened Logs
  import opened Wire

  // ---- One subscriber's channel ----

  /** What happens on one channel: the hub offers a value, a reader takes a buffered one, a reader
      finds nothing and waits, a waiting reader gives up. */
  datatype Event = Offered(v: Item) | Taken | Waits | GivesUp

  /** received is what readers have got so far, waiting how many of them are blocked. */
  datatype Channel = Channel(queue: seq<Item>, waiting: int, received: seq<Item>)

  ghost function EmptyChannel(): Channel {
    Channel([], 0, [])
  }

  /** A non-blocking send on a channel of capacity cap: to a waiting reader, else to the buffer, else
      the value is dropped. */
  ghost function Offer(cap: int, c: Channel, v: Item): Channel {
    if c.waiting > 0 then c.(waiting := c.waiting - 1, received := c.received + [v])
    else if |c.queue| < cap then c.(queue := c.queue + [v])
    else c
  }

  ghost predicate Possible(c: Channel, e: Event) {
    match e
    case Offered(_) => true
    case Taken => c.queue != []
    case Waits => c.queue == []
    case GivesUp => c.waiting > 0
  }

  ghost function React(cap: int, c: Channel, e: Event): Channel
    requires Possible(c, e)
  {
    match e
    case Offered(v) => Offer(cap, c, v)
    case Taken => c.(queue := c.queue[1..], received := c.received + [c.queue[0]])
    case Waits => c.(waiting := c.waiting + 1)
    case GivesUp => c.(waiting := c.waiting - 1)
  }

  /** The channel after a history of its own events. */
  ghost function Replay(cap: int, log: seq<Event>): Option<Channel> {
    if log == [] then Some(EmptyChannel())
    else
      match Replay(cap, Init(log))
      case None => None
      case Some(c) => if Possible(c, Last(log)) then Some(React(cap, c, Last(log))) else None
  }

  ghost function Offers(log: seq<Event>): seq<Item> {
    if log == [] then []
    else Offers(Init(log)) + if Last(log).Offered? then [Last(log).v] else []
  }

  /** How many offers found the buffer full and nobody waiting. */
  ghost function Misses(cap: int, log: seq<Event>): int
    requires Replay(cap, log).Some?
  {
    if log == [] then 0
    else
      var before := Replay(cap, Init(log)).value;
      Misses(cap, Init(log)) +
      if Last(log).Offered? && before.waiting <= 0 && |before.queue| >= cap then 1 else 0
  }

  /** The books of one channel: what readers got and can get is a subsequence of the offers, short by
      the misses. */
  ghost predicate Accounted(cap: int, c: Channel, offers: seq<Item>, misses: int) {
    && c.waiting >= 0 && (c.waiting > 0 ==> c.queue == []) && |c.queue| <= cap
    && Subseq(c.received + c.queue, offers)
    && |c.received| + |c.queue| + misses == |offers| && misses >= 0
    && (misses == 0 ==> c.received + c.queue == offers)
  }

  lemma OfferAccounted(cap: int, c: Channel, offers: seq<Item>, misses: int, v: Item)
    requires cap >= 0 && Accounted(cap, c, offers, misses)
    ensures Accounted(cap, Offer(cap, c, v), offers + [v], misses + if c.waiting <= 0 && |c.queue| >= cap then 1 else 0)
  {
    var got, after := c.received + c.queue, Offer(cap, c, v);
    SubseqSnoc(got, offers, v);
    if c.waiting > 0 || |c.queue| < cap {
      assert after.received + after.queue == got + [v];
    }
  }

  /** A subscriber gets a subsequence of what it was offered and loses exactly the offers that found
      its own buffer full and no reader waiting. */
  lemma {:induction false} LosesOnlyWhenFull(cap: int, log: seq<Event>)
    requires cap >= 0 && Replay(cap, log).Some?
    ensures Accounted(cap, Replay(cap, log).value, Offers(log), Misses(cap, log))
  {
    if log == [] {
    } else {
      LosesOnlyWhenFull(cap, Init(log));
      var before, e := Replay(cap, Init(log)).value, Last(log);
      if e.Offered? {
        OfferAccounted(cap, before, Offers(Init(log)), Misses(cap, Init(log)), e.v);
      } else {
        var c := React(cap, before, e);
        assert Replay(cap, log) == Some(c);
        assert Offers(log) == Offers(Init(log)) && Misses(cap, log) == Misses(cap, Init(log));
        assert c.received + c.queue == before.received + before.queue;
      }
    }
  }

  /** With no buffer an offer is lost unless a reader is already waiting: the hub does not wait for
      one. */
  lemma {:induction false} ZeroBufferDrops(log: seq<Event>, v: Item)
    requires Replay(0, log).Some? && Replay(0, log).value.waiting == 0
    ensures Replay(0, log + [Offered(v)]) == Replay(0, log)
  {
    LosesOnlyWhenFull(0, log);
    assert Init(log + [Offered(v)]) == log;
  }

  // ---- The hub ----

  /** The hub's goroutine: waiting for the source, in fanoutValue with the subscribers still to be
      offered v, in the deferred closing loop, gone. It holds the mutex in the middle two. */
  datatype Hub = Idle | Sending(v: Item, todo: set<int>) | Closing(todo: set<int>) | Exited

  /** A subscriber's channel with its own history, the length of the published sequence when it
      subscribed, and whether it has been closed. */
  datatype Sub = Sub(chan: Channel, log: seq<Event>, from: int, closed: bool)

  datatype State = State(hub: Hub, subs: set<int>, chans: map<int, Sub>, next: int, published: seq<Item>,
                         atExit: set<int>, panicked: bool)

  datatype Action =
    | Subscribe | Unsubscribe(id: int)
    | Publish(v: Item) | OfferTo(id: int) | EndPublish
    | Read(id: int, e: Event)
    | Exit | CloseOne(id: int) | EndExit

  ghost predicate Unlocked(s: State) {
    s.hub.Idle? || s.hub.Exited?
  }

  ghost predicate Enabled(s: State, a: Action) {
    match a
    case Subscribe => Unlocked(s)
    case Unsubscribe(_) => Unlocked(s)
    case Publish(_) => s.hub.Idle?
    case OfferTo(id) => s.hub.Sending? && id in s.hub.todo && id in s.chans
    case EndPublish => s.hub.Sending? && s.hub.todo == {}
    case Read(id, e) => id in s.chans && !e.Offered? && Possible(s.chans[id].chan, e)
    case Exit => s.hub.Idle?
    case CloseOne(id) => s.hub.Closing? && id in s.hub.todo && id in s.chans
    case EndExit => s.hub.Closing? && s.hub.todo == {}
  }

  ghost function Happen(cap: int, sub: Sub, e: Event): Sub
    requires Possible(sub.chan, e)
  {
    sub.(chan := React(cap, sub.chan, e), log := sub.log + [e])
  }

  ghost function Fire(cap: int, s: State, a: Action): State
    requires Enabled(s, a)
  {
    match a
    case Subscribe =>
      s.(subs := s.subs + {s.next}, next := s.next + 1,
         chans := s.chans[s.next := Sub(EmptyChannel(), [], |s.published|, false)])
    case Unsubscribe(id) => s.(subs := s.subs - {id})
    case Publish(v) => s.(hub := Sending(v, s.subs), published := s.published + [v])
    case OfferTo(id) =>
      s.(hub := Sending(s.hub.v, s.hub.todo - {id}),
         chans := s.chans[id := Happen(cap, s.chans[id], Offered(s.hub.v))],
         panicked := s.panicked || s.chans[id].closed)
    case EndPublish => s.(hub := Idle)
    case Read(id, e) => s.(chans := s.chans[id := Happen(cap, s.chans[id], e)])
    case Exit => s.(hub := Closing(s.subs), atExit := s.subs)
    case CloseOne(id) =>
      s.(hub := Closing(s.hub.todo - {id}),
         chans := s.chans[id := s.chans[id].(closed := true)],
         panicked := s.panicked || s.chans[id].closed)
    case EndExit => s.(hub := Exited)
  }

  ghost function Exec(cap: int, acts: seq<Action>): Option<State> {
    if acts == [] then Some(State(Idle, {}, map[], 0, [], {}, false))
    else
      match Exec(cap, Init(acts))
      case None => None
      case Some(s) => if Enabled(s, Last(acts)) then Some(Fire(cap, s, Last(acts))) else None
  }

  // ---- The invariant ----

  /** What a subscriber still in the map has been offered: everything since it subscribed, except the
      value going round if its turn has not come. */
  ghost predicate OfferedSince(s: State, id: int)
    requires id in s.chans
  {
    var sub := s.chans[id];
    && 0 <= sub.from <= |s.published|
    && Offers(sub.log) <= s.published[sub.from..]
    && (id in s.subs && !(s.hub.Sending? && id in s.hub.todo) ==> Offers(sub.log) == s.published[sub.from..])
    && (id in s.subs && s.hub.Sending? && id in s.hub.todo ==> Offers(sub.log) + [s.hub.v] == s.published[sub.from..])
  }

  ghost predicate SubOk(cap: int, s: State, id: int)
    requires id in s.chans
  {
    var sub := s.chans[id];
    && Replay(cap, sub.log) == Some(sub.chan)
    && OfferedSince(s, id)
    && (sub.closed <==> (s.hub.Closing? || s.hub.Exited?) && id in s.atExit && !(s.hub.Closing? && id in s.hub.todo))
  }

  ghost predicate HubOk(s: State) {
    && !s.panicked && s.next >= 0
    && s.subs <= s.chans.Keys
    && (forall id :: id in s.chans ==> 0 <= id < s.next)
    && (s.hub.Sending? ==> s.hub.todo <= s.subs)
    && (s.hub.Closing? ==> s.hub.todo <= s.atExit && s.atExit == s.subs)
    && (s.hub.Exited? ==> s.atExit <= s.chans.Keys)
  }

  ghost predicate Inv(cap: int, s: State) {
    HubOk(s) && forall id :: id in s.chans ==> SubOk(cap, s, id)
  }

  lemma {:induction false} ReplaySnoc(cap: int, sub: Sub, e: Event)
    requires Replay(cap, sub.log) == Some(sub.chan) && Possible(sub.chan, e)
    ensures Replay(cap, sub.log + [e]) == Some(React(cap, sub.chan, e))
    ensures Offers(sub.log + [e]) == Offers(sub.log) + if e.Offered? then [e.v] else []
  {
    assert Init(sub.log + [e]) == sub.log;
  }

  lemma HubKept(cap: int, s: State, a: Action)
    requires Inv(cap, s) && Enabled(s, a)
    ensures HubOk(Fire(cap, s, a))
  {
    if a.OfferTo? {
      assert SubOk(cap, s, a.id);
    } else if a.CloseOne? {
      assert SubOk(cap, s, a.id);
      assert !s.chans[a.id].closed;
    } else if a.EndExit? {
      assert s.atExit <= s.chans.Keys;
    }
  }

  lemma OfferKeeps(cap: int, s: State, id: int)
    requires Inv(cap, s) && Enabled(s, OfferTo(id))
    ensures SubOk(cap, Fire(cap, s, OfferTo(id)), id)
  {
    assert SubOk(cap, s, id);
    ReplaySnoc(cap, s.chans[id], Offered(s.hub.v));
  }

  lemma ReadKeeps(cap: int, s: State, id: int, e: Event)
    requires Inv(cap, s) && Enabled(s, Read(id, e))
    ensures SubOk(cap, Fire(cap, s, Read(id, e)), id)
  {
    assert SubOk(cap, s, id);
    ReplaySnoc(cap, s.chans[id], e);
  }

  lemma SubKept(cap: int, s: State, a: Action, id: int)
    requires Inv(cap, s) && Enabled(s, a) && id in Fire(cap, s, a).chans
    ensures SubOk(cap, Fire(cap, s, a), id)
  {
    if a.OfferTo? && a.id == id {
      OfferKeeps(cap, s, id);
    } else if a.Read? && a.id == id {
      ReadKeeps(cap, s, id, a.e);
    } else if id in s.chans {
      assert SubOk(cap, s, id);
      if a.Publish? { assert (s.published + [a.v])[s.chans[id].from..] == s.published[s.chans[id].from..] + [a.v]; }
    }
  }

  lemma {:induction false} RunKeepsInv(cap: int, acts: seq<Action>)
    requires Exec(cap, acts).Some?
    ensures Inv(cap, Exec(cap, acts).value)
  {
    if acts == [] {
    } else {
      RunKeepsInv(cap, Init(acts));
      var s, a := Exec(cap, Init(acts)).value, Last(acts);
      HubKept(cap, s, a);
      forall id | id in Fire(cap, s, a).chans ensures SubOk(cap, Fire(cap, s, a), id) {
        SubKept(cap, s, a, id);
      }
    }
  }

  // ---- What every run guarantees ----

  /** No subscriber's channel is sent on after it is closed, or closed twice. */
  lemma {:induction false} NeverPanics(cap: int, acts: seq<Action>)
    requires Exec(cap, acts).Some?
    ensures !Exec(cap, acts).value.panicked
  {
    RunKeepsInv(cap, acts);
  }

  /** A subscriber receives a subsequence of what was published while it was subscribed, missing
      exactly what came when its own buffer was full; with no misses and nothing going round it has
      or can still read all of it. */
  lemma {:induction false} SubscriberSees(cap: int, acts: seq<Action>, id: int)
    requires cap >= 0 && Exec(cap, acts).Some? && id in Exec(cap, acts).value.chans
    ensures var s := Exec(cap, acts).value;
            var sub := s.chans[id];
            && Replay(cap, sub.log) == Some(sub.chan)
            && 0 <= sub.from <= |s.published| && Offers(sub.log) <= s.published[sub.from..]
            && Subseq(sub.chan.received + sub.chan.queue, Offers(sub.log))
            && |sub.chan.received| + |sub.chan.queue| + Misses(cap, sub.log) == |Offers(sub.log)|
            && (id in s.subs && !s.hub.Sending? && Misses(cap, sub.log) == 0 ==>
                  sub.chan.received + sub.chan.queue == s.published[sub.from..])
  {
    RunKeepsInv(cap, acts);
    assert SubOk(cap, Exec(cap, acts).value, id);
    LosesOnlyWhenFull(cap, Exec(cap, acts).value.chans[id].log);
  }

  // ---- Subscribers do not disturb each other ----

  function Subscribes(acts: seq<Action>): nat {
    if acts == [] then 0 else Subscribes(Init(acts)) + if Last(acts).Subscribe? then 1 else 0
  }

  /** A step without what concerns other subscribers only, and with id called 0. The Subscribe that
      creates id is the one that n = id others came before. */
  function PurgeStep(n: nat, id: int, a: Action): seq<Action> {
    match a
    case Subscribe => if n == id then [Subscribe] else []
    case Unsubscribe(other) => if other == id then [Unsubscribe(0)] else []
    case OfferTo(other) => if other == id then [OfferTo(0)] else []
    case Read(other, e) => if other == id then [Read(0, e)] else []
    case CloseOne(other) => if other == id then [CloseOne(0)] else []
    case Publish(_) => [a]
    case EndPublish => [a]
    case Exit => [a]
    case EndExit => [a]
  }

  function Purge(acts: seq<Action>, id: int): seq<Action> {
    if acts == [] then [] else Purge(Init(acts), id) + PurgeStep(Subscribes(Init(acts)), id, Last(acts))
  }

  function OnlyId(ids: set<int>, id: int): set<int> {
    if id in ids then {0} else {}
  }

  ghost function HubFor(hub: Hub, id: int): Hub {
    match hub
    case Sending(v, todo) => Sending(v, OnlyId(todo, id))
    case Closing(todo) => Closing(OnlyId(todo, id))
    case _ => hub
  }

  /** A hub as it looks to id when it is the only subscriber there has ever been. */
  ghost function Alone(s: State, id: int): State {
    State(HubFor(s.hub, id), OnlyId(s.subs, id), if id in s.chans then map[0 := s.chans[id]] else map[],
          if id < s.next then 1 else 0, s.published, OnlyId(s.atExit, id), false)
  }

  /** The step of the lonely hub, if there is one, leads where the step of the full one leads. */
  ghost predicate Mirrored(cap: int, s: State, a: Action, id: int, steps: seq<Action>)
    requires Enabled(s, a)
  {
    if steps == [] then Alone(Fire(cap, s, a), id) == Alone(s, id)
    else
      && steps == [steps[0]] && Enabled(Alone(s, id), steps[0])
      && Fire(cap, Alone(s, id), steps[0]) == Alone(Fire(cap, s, a), id)
  }

  lemma MembershipMirrored(cap: int, s: State, a: Action, id: int)
    requires Inv(cap, s) && Enabled(s, a) && id >= 0
    requires a.Subscribe? || a.Unsubscribe?
    ensures Mirrored(cap, s, a, id, PurgeStep(s.next, id, a))
  {
    if a.Subscribe? && s.next == id {
      assert id !in s.chans && id !in s.subs;
      assert Fire(cap, Alone(s, id), Subscribe).chans == Alone(Fire(cap, s, a), id).chans;
    }
  }

  lemma HubMirrored(cap: int, s: State, a: Action, id: int)
    requires Inv(cap, s) && Enabled(s, a) && id >= 0
    requires a.Publish? || a.EndPublish? || a.Exit? || a.EndExit?
    ensures Mirrored(cap, s, a, id, PurgeStep(s.next, id, a))
  {}

  lemma ChannelMirrored(cap: int, s: State, a: Action, id: int)
    requires Inv(cap, s) && Enabled(s, a) && id >= 0
    requires a.OfferTo? || a.Read? || a.CloseOne?
    ensures Mirrored(cap, s, a, id, PurgeStep(s.next, id, a))
  {
    assert SubOk(cap, s, a.id);
    if a.id == id {
      var t := Fire(cap, Alone(s, id), PurgeStep(s.next, id, a)[0]);
      assert t.chans == map[0 := Fire(cap, s, a).chans[id]];
      assert {0} - {0} == OnlyId({}, id);
    }
  }

  lemma StepMirrored(cap: int, s: State, a: Action, id: int)
    requires Inv(cap, s) && Enabled(s, a) && id >= 0
    ensures Mirrored(cap, s, a, id, PurgeStep(s.next, id, a))
  {
    if a.Subscribe? || a.Unsubscribe? {
      MembershipMirrored(cap, s, a, id);
    } else if a.OfferTo? || a.Read? || a.CloseOne? {
      ChannelMirrored(cap, s, a, id);
    } else {
      HubMirrored(cap, s, a, id);
    }
  }

  lemma {:induction false} ExecSnoc(cap: int, acts: seq<Action>, a: Action)
    requires Exec(cap, acts).Some? && Enabled(Exec(cap, acts).value, a)
    ensures Exec(cap, acts + [a]) == Some(Fire(cap, Exec(cap, acts).value, a))
  {
    assert Init(acts + [a]) == acts;
  }

  lemma {:induction false} NextCountsSubscribes(cap: int, acts: seq<Action>)
    requires Exec(cap, acts).Some?
    ensures Exec(cap, acts).value.next == Subscribes(acts)
  {
    if acts == [] {
    } else {
      NextCountsSubscribes(cap, Init(acts));
    }
  }

  /** Take any run and leave out whatever other subscribers do and whatever the hub does for them:
      the rest is again a run, of a hub with one subscriber, and leaves it where it was, with the
      same values received, readable and missed. */
  lemma {:induction false} PurgedRun(cap: int, acts: seq<Action>, id: int)
    requires Exec(cap, acts).Some? && id >= 0
    ensures Exec(cap, Purge(acts, id)) == Some(Alone(Exec(cap, acts).value, id))
    decreases |acts|
  {
    if acts == [] {
    } else {
      var s, a := Exec(cap, Init(acts)).value, Last(acts);
      PurgedRun(cap, Init(acts), id);
      RunKeepsInv(cap, Init(acts));
      NextCountsSubscribes(cap, Init(acts));
      StepMirrored(cap, s, a, id);
      var steps := PurgeStep(s.next, id, a);
      if steps == [] {
        assert Purge(acts, id) == Purge(Init(acts), id);
      } else {
        ExecSnoc(cap, Purge(Init(acts), id), steps[0]);
      }
    }
  }

  /** In any two runs that differ only in other subscribers, and in what the hub does for them, one's
      own channel is the same. */
  lemma {:induction false} NonInterference(cap: int, acts: seq<Action>, id: int, acts': seq<Action>, id': int)
    requires Exec(cap, acts).Some? && id in Exec(cap, acts).value.chans
    requires Exec(cap, acts').Some? && id' in Exec(cap, acts').value.chans
    requires Purge(acts, id) == Purge(acts', id')
    ensures Exec(cap, acts).value.chans[id] == Exec(cap, acts').value.chans[id']
  {
    RunKeepsInv(cap, acts);
    RunKeepsInv(cap, acts');
    PurgedRun(cap, acts, id);
    PurgedRun(cap, acts', id');
    assert Alone(Exec(cap, acts).value, id).chans[0] == Exec(cap, acts).value.chans[id];
    assert Alone(Exec(cap, acts').value, id').chans[0] == Exec(cap, acts').value.chans[id'];
  }

  // ---- Blocking and closing ----

  /** The hub never blocks: while it holds the mutex each of its remaining offers or closings can
      happen at once, whatever state the channels are in. */
  lemma {:induction false} HubNeverBlocks(cap: int, acts: seq<Action>)
    requires Exec(cap, acts).Some? && !Unlocked(Exec(cap, acts).value)
    ensures var s := Exec(cap, acts).value;
            if s.hub.todo == {} then Enabled(s, if s.hub.Sending? then EndPublish else EndExit)
            else forall id :: id in s.hub.todo ==> Enabled(s, if s.hub.Sending? then OfferTo(id) else CloseOne(id))
  {
    RunKeepsInv(cap, acts);
  }

  /** When the hub is gone exactly the channels of those subscribed at its exit are closed. */
  lemma {:induction false} ClosedAtExit(cap: int, acts: seq<Action>, id: int)
    requires Exec(cap, acts).Some? && Exec(cap, acts).value.hub.Exited? && id in Exec(cap, acts).value.chans
    ensures Exec(cap, acts).value.chans[id].closed <==> id in Exec(cap, acts).value.atExit
  {
    RunKeepsInv(cap, acts);
    assert SubOk(cap, Exec(cap, acts).value, id);
  }

  /** A channel open with nobody left to close it: unsubscribed, or subscribed after the exit. */
  ghost predicate Orphan(s: State, id: int) {
    id in s.chans && !s.chans[id].closed && id < s.next && (id !in s.subs || s.hub.Exited?)
  }

  lemma OrphanStays(cap: int, s: State, a: Action, id: int)
    requires Inv(cap, s) && Orphan(s, id) && Enabled(s, a)
    ensures Orphan(Fire(cap, s, a), id)
  {
  }

  /** An unsubscribed channel is never closed, not even when the hub exits, and neither is one that
      subscribed too late. */
  lemma {:induction false} OrphanNeverCloses(cap: int, before: seq<Action>, acts: seq<Action>, id: int)
    requires before <= acts && Exec(cap, before).Some? && Exec(cap, acts).Some? && Orphan(Exec(cap, before).value, id)
    ensures Orphan(Exec(cap, acts).value, id)
    decreases |acts|
  {
    if acts == before {
    } else {
      assert before <= Init(acts);
      OrphanNeverCloses(cap, before, Init(acts), id);
      RunKeepsInv(cap, Init(acts));
      OrphanStays(cap, Exec(cap, Init(acts)).value, Last(acts), id);
    }
  }

  function LeftOpen(): seq<Action> {
    [Subscribe] + [Unsubscribe(0)] + [Exit] + [EndExit]
  }

  /** A run of a hub that is over while a channel it once served is open for good: its subscriber had
      unsubscribed. */
  lemma UnsubscribedIsLeftOpen(cap: int)
    ensures Exec(cap, LeftOpen()).Some?
    ensures Exec(cap, LeftOpen()).value.hub.Exited? && Orphan(Exec(cap, LeftOpen()).value, 0)
  {
    assert [] + [Subscribe] == [Subscribe];
    ExecSnoc(cap, [], Subscribe);
    ExecSnoc(cap, [Subscribe], Unsubscribe(0));
    ExecSnoc(cap, [Subscribe] + [Unsubscribe(0)], Exit);
    ExecSnoc(cap, [Subscribe] + [Unsubscribe(0)] + [Exit], EndExit);
  }

  function TooLate(): seq<Action> {
    [Exit] + [EndExit] + [Subscribe]
  }

  /** And one of a hub that accepted a subscriber after its end. */
  lemma LateSubscriberIsLeftOpen(cap: int)
    ensures Exec(cap, TooLate()).Some?
    ensures Exec(cap, TooLate()).value.hub.Exited? && Orphan(Exec(cap, TooLate()).value, 0)
  {
    assert [] + [Exit] == [Exit];
    ExecSnoc(cap, [], Exit);
    ExecSnoc(cap, [Exit], EndExit);
    ExecSnoc(cap, [Exit] + [EndExit], Subscribe);
  }
}
