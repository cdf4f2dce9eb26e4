/** What a broadcast hub can do from wherever a run has left it. */
module BroadcastProgress {
  import opened Logs
  import opened Wire
  import opened Broadcast

  // ---- What the schedule says ----

  /** The values the hub's goroutine has taken from the source. */
  function PublishedIn(acts: seq<Action>): seq<Item> {
    if acts == [] then [] else PublishedIn(Init(acts)) + if Last(acts).Publish? then [Last(acts).v] else []
  }

  /** The subscribers, numbered by their Subscribe calls, less those that have unsubscribed. */
  function Subscribed(acts: seq<Action>): set<int> {
    if acts == [] then {}
    else
      match Last(acts)
      case Subscribe => Subscribed(Init(acts)) + {Subscribes(Init(acts))}
      case Unsubscribe(id) => Subscribed(Init(acts)) - {id}
      case _ => Subscribed(Init(acts))
  }

  /** What has happened on subscriber id's channel. */
  function HappenedTo(acts: seq<Action>, id: int): seq<Event> {
    if acts == [] then []
    else
      var before := HappenedTo(Init(acts), id);
      match Last(acts)
      case OfferTo(other) =>
        if other == id && PublishedIn(Init(acts)) != [] then before + [Offered(Last(PublishedIn(Init(acts))))] else before
      case Read(other, e) => if other == id then before + [e] else before
      case _ => before
  }

  ghost predicate AsScheduled(s: State, acts: seq<Action>) {
    && s.published == PublishedIn(acts) && s.subs == Subscribed(acts) && s.next == Subscribes(acts)
    && (s.hub.Sending? ==> s.published != [] && s.hub.v == Last(s.published))
    && (forall id :: id in s.chans <==> 0 <= id < s.next)
    && (forall id :: id in s.chans ==> s.chans[id].log == HappenedTo(acts, id))
    && (forall id :: id !in s.chans ==> HappenedTo(acts, id) == [])
  }

  lemma ScheduledStep(cap: int, s: State, acts: seq<Action>)
    requires acts != [] && AsScheduled(s, Init(acts)) && Enabled(s, Last(acts)) && s.next >= 0
    ensures AsScheduled(Fire(cap, s, Last(acts)), acts)
  {
    hide React, Possible;
    match Last(acts)
    case OfferTo(id) => assert id in s.chans;
    case Read(id, e) => assert id in s.chans;
    case _ =>
  }

  /** The hub's books are the schedule's: what it has published are the values of its Publish steps, its
      subscribers those who have subscribed and not unsubscribed, each with a channel of its own whose
      history is the offers made to it and its reads, in order. */
  lemma {:induction false} HistoriesAreSchedule(cap: int, acts: seq<Action>)
    requires Exec(cap, acts).Some?
    ensures AsScheduled(Exec(cap, acts).value, acts)
  {
    if acts == [] {
    } else {
      HistoriesAreSchedule(cap, Init(acts));
      ScheduledStep(cap, Exec(cap, Init(acts)).value, acts);
    }
  }

  // ---- The hub's own steps ----

  ghost predicate HubStep(a: Action) {
    a.Publish? || a.OfferTo? || a.EndPublish? || a.Exit? || a.CloseOne? || a.EndExit?
  }

  /** The run goes on by steps of the hub's goroutine alone. */
  ghost predicate HubGoesOn(cap: int, acts: seq<Action>, acts': seq<Action>) {
    && Exec(cap, acts).Some? && Exec(cap, acts').Some? && acts <= acts'
    && forall i | |acts| <= i < |acts'| :: HubStep(acts'[i])
  }

  lemma HubMoves(cap: int, start: seq<Action>, acts: seq<Action>, a: Action) returns (acts': seq<Action>)
    requires HubGoesOn(cap, start, acts) && Enabled(Exec(cap, acts).value, a) && HubStep(a)
    ensures HubGoesOn(cap, start, acts') && Exec(cap, acts').value == Fire(cap, Exec(cap, acts).value, a)
  {
    ExecSnoc(cap, acts, a);
    acts' := acts + [a];
  }

  lemma SomeOf<T>(ids: set<T>) returns (id: T)
    requires ids != {}
    ensures id in ids
  {
    id :| id in ids;
  }

  /** The channel of one of the ids after an offer of v, and of another left alone. */
  ghost predicate OfferedTo(cap: int, ids: set<int>, v: Item, before: map<int, Sub>, after: map<int, Sub>) {
    && after.Keys == before.Keys
    && forall id :: id in before ==>
         after[id] ==
           if id in ids then before[id].(chan := Offer(cap, before[id].chan, v), log := before[id].log + [Offered(v)])
           else before[id]
  }

  /** A fan-out under way can always be finished: each subscriber still to come is offered the value
      once, the others nothing. */
  lemma {:induction false} FinishFanOut(cap: int, start: seq<Action>, acts: seq<Action>) returns (acts': seq<Action>)
    requires HubGoesOn(cap, start, acts) && Exec(cap, acts).value.hub.Sending?
    ensures HubGoesOn(cap, start, acts')
    ensures var s, t := Exec(cap, acts).value, Exec(cap, acts').value;
            && t == s.(hub := Idle, chans := t.chans)
            && OfferedTo(cap, s.hub.todo, s.hub.v, s.chans, t.chans)
    decreases Exec(cap, acts).value.hub.todo
  {
    var s := Exec(cap, acts).value;
    RunKeepsInv(cap, acts);
    if s.hub.todo == {} {
      acts' := HubMoves(cap, start, acts, EndPublish);
    } else {
      var id := SomeOf(s.hub.todo);
      assert SubOk(cap, s, id);
      var mid := HubMoves(cap, start, acts, OfferTo(id));
      acts' := FinishFanOut(cap, start, mid);
    }
  }

  /** An idle hub can take any value and offer it, once, to everyone subscribed and to nobody else, and
      it is idle again: no subscriber can keep it from that. */
  lemma ValueCanBePublished(cap: int, acts: seq<Action>, v: Item) returns (acts': seq<Action>)
    requires Exec(cap, acts).Some? && Exec(cap, acts).value.hub.Idle?
    ensures HubGoesOn(cap, acts, acts')
    ensures var s, t := Exec(cap, acts).value, Exec(cap, acts').value;
            && t.hub.Idle? && t.published == s.published + [v] && t.subs == s.subs
            && OfferedTo(cap, s.subs, v, s.chans, t.chans)
  {
    var mid := HubMoves(cap, acts, acts, Publish(v));
    acts' := FinishFanOut(cap, acts, mid);
  }

  /** So a subscriber with room in its buffer, or with a reader waiting, can get the next value. */
  lemma SubscriberCanGet(cap: int, acts: seq<Action>, v: Item, id: int) returns (acts': seq<Action>)
    requires cap >= 0 && Exec(cap, acts).Some? && Exec(cap, acts).value.hub.Idle? && id in Exec(cap, acts).value.subs
    requires id in Exec(cap, acts).value.chans
    requires var c := Exec(cap, acts).value.chans[id].chan; c.waiting > 0 || |c.queue| < cap
    ensures HubGoesOn(cap, acts, acts') && id in Exec(cap, acts').value.chans
    ensures var c, c' := Exec(cap, acts).value.chans[id].chan, Exec(cap, acts').value.chans[id].chan;
            c'.received + c'.queue == c.received + c.queue + [v]
  {
    RunKeepsInv(cap, acts);
    var sub := Exec(cap, acts).value.chans[id];
    assert SubOk(cap, Exec(cap, acts).value, id);
    LosesOnlyWhenFull(cap, sub.log);
    acts' := ValueCanBePublished(cap, acts, v);
    OfferArrives(cap, sub.chan, v);
  }

  lemma OfferArrives(cap: int, c: Channel, v: Item)
    requires c.waiting > 0 || |c.queue| < cap
    requires c.waiting > 0 ==> c.queue == []
    ensures var c' := Offer(cap, c, v); c'.received + c'.queue == c.received + c.queue + [v]
  {}

  /** The closing loop can always be finished. */
  lemma {:induction false} FinishClosing(cap: int, start: seq<Action>, acts: seq<Action>) returns (acts': seq<Action>)
    requires HubGoesOn(cap, start, acts) && Exec(cap, acts).value.hub.Closing?
    ensures HubGoesOn(cap, start, acts') && Exec(cap, acts').value.hub.Exited?
    ensures Exec(cap, acts').value.atExit == Exec(cap, acts).value.subs == Exec(cap, acts').value.subs
    decreases Exec(cap, acts).value.hub.todo
  {
    var s := Exec(cap, acts).value;
    RunKeepsInv(cap, acts);
    if s.hub.todo == {} {
      acts' := HubMoves(cap, start, acts, EndExit);
    } else {
      var id := SomeOf(s.hub.todo);
      var mid := HubMoves(cap, start, acts, CloseOne(id));
      acts' := FinishClosing(cap, start, mid);
    }
  }

  /** From wherever it is the hub can come to its end by its own steps, and every subscriber then finds
      its channel closed. */
  lemma HubCanExit(cap: int, acts: seq<Action>) returns (acts': seq<Action>)
    requires Exec(cap, acts).Some? && !Exec(cap, acts).value.hub.Exited?
    ensures HubGoesOn(cap, acts, acts') && Exec(cap, acts').value.hub.Exited?
    ensures forall id :: id in Exec(cap, acts).value.subs ==>
      id in Exec(cap, acts').value.chans && Exec(cap, acts').value.chans[id].closed
  {
    acts' := acts;
    if Exec(cap, acts').value.hub.Sending? { acts' := FinishFanOut(cap, acts, acts'); }
    if Exec(cap, acts').value.hub.Idle? { acts' := HubMoves(cap, acts, acts', Exit); }
    acts' := FinishClosing(cap, acts, acts');
    forall id | id in Exec(cap, acts).value.subs
      ensures id in Exec(cap, acts').value.chans && Exec(cap, acts').value.chans[id].closed
    {
      AtExitAreClosed(cap, acts', id);
    }
  }

  lemma AtExitAreClosed(cap: int, acts: seq<Action>, id: int)
    requires Exec(cap, acts).Some? && Exec(cap, acts).value.hub.Exited? && id in Exec(cap, acts).value.atExit
    ensures id in Exec(cap, acts).value.chans && Exec(cap, acts).value.chans[id].closed
  {
    RunKeepsInv(cap, acts);
    assert SubOk(cap, Exec(cap, acts).value, id);
  }

  // ---- The subscribers' own steps ----

  /** While the hub does not hold the mutex anyone can subscribe, and gets an open, empty channel of its own
      that is offered everything published from then on; and anyone can unsubscribe, whose channel is then
      left as it is. */
  lemma MembershipCanChange(cap: int, acts: seq<Action>, id: int)
    requires Exec(cap, acts).Some? && Unlocked(Exec(cap, acts).value)
    ensures var s, t := Exec(cap, acts).value, Exec(cap, acts + [Subscribe]);
            && t.Some? && s.next !in s.chans && t.value.subs == s.subs + {s.next} && s.next !in s.subs
            && t.value.chans == s.chans[s.next := Sub(EmptyChannel(), [], |PublishedIn(acts)|, false)]
    ensures var s, t := Exec(cap, acts).value, Exec(cap, acts + [Unsubscribe(id)]);
            t.Some? && t.value.subs == s.subs - {id} && t.value.chans == s.chans
  {
    RunKeepsInv(cap, acts);
    HistoriesAreSchedule(cap, acts);
    ExecSnoc(cap, acts, Subscribe);
    ExecSnoc(cap, acts, Unsubscribe(id));
  }

  /** What is in a channel's buffer can be read, in order, whoever still holds what. */
  lemma {:induction false} BufferedCanBeRead(cap: int, acts: seq<Action>, id: int) returns (acts': seq<Action>)
    requires Exec(cap, acts).Some? && id in Exec(cap, acts).value.chans
    ensures acts <= acts' && Exec(cap, acts').Some? && id in Exec(cap, acts').value.chans
    ensures forall i | |acts| <= i < |acts'| :: acts'[i] == Read(id, Taken)
    ensures var c, c' := Exec(cap, acts).value.chans[id].chan, Exec(cap, acts').value.chans[id].chan;
            c'.received == c.received + c.queue && c'.queue == []
    decreases |Exec(cap, acts).value.chans[id].chan.queue|
  {
    var c := Exec(cap, acts).value.chans[id].chan;
    if c.queue == [] {
      acts' := acts;
    } else {
      ExecSnoc(cap, acts, Read(id, Taken));
      acts' := BufferedCanBeRead(cap, acts + [Read(id, Taken)], id);
      assert c.received + [c.queue[0]] + c.queue[1..] == c.received + c.queue;
    }
  }
}
