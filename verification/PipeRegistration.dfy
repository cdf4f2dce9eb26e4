/** PipePort's mutex-guarded fields before and at Connect: which channels the hub will serve. */
module PipeRegistration {
  import opened Wire
  import opened PipeHub

  /** Ports and streams are numbered in the order they are created. */
  class PipePort {
    const buffer: int
    var inputs: map<string, int>
    var outputs: map<string, int>
    var streams: seq<int>
    var created: int
    var connected: bool
    var hub: Option<Config>
    var served: set<int>

    /** Every port and stream has a number of its own, and once connected the hub serves what had been
        registered by then. */
    ghost predicate Valid()
      reads this
    {
      && buffer > 0 && created >= 0
      && (forall name :: name in inputs ==> 0 <= inputs[name] < created)
      && Numbered(outputs, streams, created)
      && (connected <==> hub.Some?)
      && (connected ==> hub.value.Valid() && |served| == hub.value.Outs())
      && (!connected ==> served == {})
      && (forall k :: k in served ==> 0 <= k < created)
    }

    constructor (requested: int)
      ensures Valid() && !connected && inputs == map[] && outputs == map[] && streams == []
      ensures buffer == if requested <= 0 then 8 else requested
    {
      buffer := if requested <= 0 then 8 else requested;
      inputs, outputs, streams, created, connected, hub, served := map[], map[], [], 0, false, None, {};
    }

    /** The same name gives the same port. */
    method InputPort(name: string) returns (port: int)
      requires Valid()
      modifies this`inputs, this`created
      ensures Valid()
      ensures name in old(inputs) ==> port == old(inputs[name]) && inputs == old(inputs) && created == old(created)
      ensures name !in old(inputs) ==> port == old(created) && inputs == old(inputs)[name := port] && created == port + 1
    {
      if name in inputs { return inputs[name]; }
      port := created;
      inputs := inputs[name := port];
      created := created + 1;
    }

    method OutputPort(name: string) returns (port: int)
      requires Valid()
      modifies this`outputs, this`created
      ensures Valid()
      ensures name in old(outputs) ==> port == old(outputs[name]) && outputs == old(outputs) && created == old(created)
      ensures name !in old(outputs) ==> port == old(created) && outputs == old(outputs)[name := port] && created == port + 1
    {
      if name in outputs { return outputs[name]; }
      port := created;
      outputs := outputs[name := port];
      created := created + 1;
    }

    /** Each call makes a channel of its own. One made after Connect is never served. */
    method Stream() returns (ch: int)
      requires Valid()
      modifies this`streams, this`created
      ensures Valid()
      ensures ch == old(created) && streams == old(streams) + [ch] && created == ch + 1
      ensures old(connected) ==> ch !in served
    {
      ch := created;
      streams := streams + [ch];
      created := created + 1;
    }

    /** The first call fixes the topology: one output per registered OutputPort and Stream, one producer
        per InputPort besides Push's. Later calls change nothing. */
    method Connect() returns (started: Option<Config>)
      requires Valid()
      modifies this`connected, this`hub, this`served
      ensures Valid() && connected
      ensures old(connected) ==> started == None && hub == old(hub) && served == old(served)
      ensures !old(connected) ==> started == hub == Some(Config(|outputs|, |streams|, |inputs|, buffer))
      ensures !old(connected) ==> served == ServedChannels(outputs, streams)
    {
      hide Numbered, ServedChannels;
      if connected { return None; }
      connected := true;
      started := Some(Config(|outputs|, |streams|, |inputs|, buffer));
      hub := started;
      served := ServedChannels(outputs, streams);
      Served(outputs, streams, created);
    }
  }

  /** Output ports and streams are different channels, numbered below created. */
  ghost predicate Numbered(outputs: map<string, int>, streams: seq<int>, created: int) {
    && (forall name :: name in outputs ==> 0 <= outputs[name] < created)
    && (forall i :: 0 <= i < |streams| ==> 0 <= streams[i] < created)
    && (forall m, n :: m in outputs && n in outputs && outputs[m] == outputs[n] ==> m == n)
    && (forall i, j :: 0 <= i < j < |streams| ==> streams[i] != streams[j])
    && (forall m, i :: m in outputs && 0 <= i < |streams| ==> outputs[m] != streams[i])
  }

  function PortChannels(outputs: map<string, int>): set<int> {
    set name | name in outputs :: outputs[name]
  }

  function StreamChannels(streams: seq<int>): set<int> {
    set ch | ch in streams
  }

  /** What the hub sends to: every registered output port and stream. */
  function ServedChannels(outputs: map<string, int>, streams: seq<int>): set<int> {
    PortChannels(outputs) + StreamChannels(streams)
  }

  /** The hub has one output channel for each thing registered. */
  lemma Served(outputs: map<string, int>, streams: seq<int>, created: int)
    requires Numbered(outputs, streams, created)
    ensures forall k :: k in ServedChannels(outputs, streams) ==> 0 <= k < created
    ensures |ServedChannels(outputs, streams)| == |outputs| + |streams|
  {
    PortsCount(outputs);
    StreamsCount(streams);
    assert PortChannels(outputs) !! StreamChannels(streams);
  }

  lemma {:induction false} PortsCount(outputs: map<string, int>)
    requires forall m, n :: m in outputs && n in outputs && outputs[m] == outputs[n] ==> m == n
    ensures |PortChannels(outputs)| == |outputs|
    decreases |outputs|
  {
    if outputs.Keys == {} {
    } else {
      var n :| n in outputs.Keys;
      var rest := outputs - {n};
      assert |outputs| == |outputs.Keys| && rest.Keys == outputs.Keys - {n};
      PortsCount(rest);
      var k := outputs[n];
      assert k !in PortChannels(rest);
      forall x ensures x in PortChannels(outputs) <==> x in PortChannels(rest) || x == k {
        if x in PortChannels(outputs) {
          var name :| name in outputs && outputs[name] == x;
          if name != n { assert name in rest && rest[name] == x; }
        }
      }
      assert PortChannels(outputs) == PortChannels(rest) + {k};
    }
  }

  lemma {:induction false} StreamsCount(streams: seq<int>)
    requires forall i, j :: 0 <= i < j < |streams| ==> streams[i] != streams[j]
    ensures |StreamChannels(streams)| == |streams|
  {
    if streams == [] {
    } else {
      var n := |streams| - 1;
      StreamsCount(streams[..n]);
      assert streams == streams[..n] + [streams[n]];
      assert StreamChannels(streams) == StreamChannels(streams[..n]) + {streams[n]};
    }
  }
}
