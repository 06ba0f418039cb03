/** The streaming server's subscription registry: which listeners hear which channel,
    which channels Redis is asked for, and what each websocket session has subscribed to. */
module Streaming {
  import opened Text

  /** The callback made for one subscription of a session; each is a new object. */
  datatype Listener = Listener(session: nat, serial: nat)

  datatype Command = SUBSCRIBE(channel: string) | UNSUBSCRIBE(channel: string)

  /** `subscriptions` maps the joined channel ids to the listener; `inFlight` holds the
      subscribe requests whose promise chain has not finished. */
  datatype Session = Session(subscriptions: map<string, Listener>, inFlight: multiset<seq<string>>, open: bool)

  datatype Registry = Registry(
    subs: map<string, seq<Listener>>,
    commands: seq<Command>,
    redis: set<string>,
    sessions: map<nat, Session>,
    serial: nat)

  const EMPTY_REGISTRY := Registry(map[], [], {}, map[], 0)

  // ----- The channel lists

  function Without(listeners: seq<Listener>, l: Listener): (r: seq<Listener>)
    ensures forall x :: x in r <==> x in listeners && x != l
  {
    if listeners == [] then []
    else
      var rest := Without(listeners[1..], l);
      assert forall x :: x in listeners <==> x == listeners[0] || x in listeners[1..];
      if listeners[0] == l then rest else [listeners[0]] + rest
  }

  function Listening(r: Registry, channel: string): seq<Listener> {
    if channel in r.subs then r.subs[channel] else []
  }

  function Subscribe(r: Registry, channel: string, l: Listener): Registry {
    var asked := if Listening(r, channel) == [] then r.commands + [SUBSCRIBE(channel)] else r.commands;
    r.(subs := r.subs[channel := Listening(r, channel) + [l]], commands := asked)
  }

  function Unsubscribe(r: Registry, channel: string, l: Listener): Registry {
    if channel !in r.subs then r else
    var left := Without(r.subs[channel], l);
    if left == [] then r.(subs := r.subs - {channel}, commands := r.commands + [UNSUBSCRIBE(channel)])
    else r.(subs := r.subs[channel := left])
  }

  function SubscribeAll(r: Registry, channels: seq<string>, l: Listener): Registry
    decreases |channels|
  {
    if channels == [] then r else SubscribeAll(Subscribe(r, channels[0], l), channels[1..], l)
  }

  function UnsubscribeAll(r: Registry, channels: seq<string>, l: Listener): Registry
    decreases |channels|
  {
    if channels == [] then r else UnsubscribeAll(Unsubscribe(r, channels[0], l), channels[1..], l)
  }

  // ----- Sessions

  function KeyOf(channels: seq<string>): string {
    Join(channels, ";")
  }

  function ChannelsOf(key: string): seq<string> {
    Fields(key, ';')
  }

  function Record(r: Registry, s: nat, key: string, l: Listener): Registry
    requires s in r.sessions
  {
    var session := r.sessions[s];
    r.(sessions := r.sessions[s := session.(subscriptions := session.subscriptions[key := l])])
  }

  function Forget(r: Registry, s: nat, key: string): Registry
    requires s in r.sessions
  {
    var session := r.sessions[s];
    r.(sessions := r.sessions[s := session.(subscriptions := session.subscriptions - {key})])
  }

  /** `onConnection`: one listener for the access token's and the account's system channel. */
  function Open(r: Registry, s: nat, tokenChannel: string, systemChannel: string): Registry {
    var l := Listener(s, r.serial);
    var r1 := r.(sessions := r.sessions[s := Session(map[], multiset{}, true)], serial := r.serial + 1);
    var r2 := Subscribe(Subscribe(r1, tokenChannel, l), systemChannel, l);
    Record(Record(r2, s, tokenChannel, l), s, systemChannel, l)
  }

  function Begin(r: Registry, s: nat, channels: seq<string>): Registry
    requires s in r.sessions
  {
    var session := r.sessions[s];
    r.(sessions := r.sessions[s := session.(inFlight := session.inFlight + multiset{channels})])
  }

  function Settle(r: Registry, s: nat, channels: seq<string>): Registry
    requires s in r.sessions
  {
    var session := r.sessions[s];
    r.(sessions := r.sessions[s := session.(inFlight := session.inFlight - multiset{channels})])
  }

  /** The end of the promise chain of a subscribe request.  Nothing asks whether the socket
      is still open. */
  function Complete(r: Registry, s: nat, channels: seq<string>): Registry
    requires s in r.sessions
  {
    var r1 := Settle(r, s, channels);
    var key := KeyOf(channels);
    if key in r1.sessions[s].subscriptions then r1 else
    var l := Listener(s, r1.serial);
    SubscribeAllKeepsSessions(r1.(serial := r1.serial + 1), channels, l);
    Record(SubscribeAll(r1.(serial := r1.serial + 1), channels, l), s, key, l)
  }

  function RemoveSubscription(r: Registry, s: nat, channels: seq<string>): Registry
    requires s in r.sessions
  {
    var key := KeyOf(channels);
    if key !in r.sessions[s].subscriptions then r else
    UnsubscribeAllKeepsSessions(r, channels, r.sessions[s].subscriptions[key]);
    Forget(UnsubscribeAll(r, channels, r.sessions[s].subscriptions[key]), s, key)
  }

  /** The close handler, going through the keys it found in the order it found them. */
  function RemoveKeys(r: Registry, s: nat, keys: seq<string>): (r': Registry)
    requires s in r.sessions
    ensures s in r'.sessions
    decreases |keys|
  {
    if keys == [] then r else
    RemoveSubscriptionKeepsSession(r, s, ChannelsOf(keys[0]));
    RemoveKeys(RemoveSubscription(r, s, ChannelsOf(keys[0])), s, keys[1..])
  }

  function Close(r: Registry, s: nat, keys: seq<string>): Registry
    requires s in r.sessions
  {
    RemoveKeys(r.(sessions := r.sessions[s := r.sessions[s].(open := false)]), s, keys)
  }

  lemma {:induction false} SubscribeAllKeepsSessions(r: Registry, channels: seq<string>, l: Listener)
    ensures SubscribeAll(r, channels, l).sessions == r.sessions && SubscribeAll(r, channels, l).serial == r.serial
    decreases |channels|
  {
    if channels != [] { SubscribeAllKeepsSessions(Subscribe(r, channels[0], l), channels[1..], l); }
  }

  lemma {:induction false} UnsubscribeAllKeepsSessions(r: Registry, channels: seq<string>, l: Listener)
    ensures UnsubscribeAll(r, channels, l).sessions == r.sessions && UnsubscribeAll(r, channels, l).serial == r.serial
    decreases |channels|
  {
    if channels != [] { UnsubscribeAllKeepsSessions(Unsubscribe(r, channels[0], l), channels[1..], l); }
  }

  lemma RemoveSubscriptionKeepsSession(r: Registry, s: nat, channels: seq<string>)
    requires s in r.sessions
    ensures s in RemoveSubscription(r, s, channels).sessions
  {
    if KeyOf(channels) in r.sessions[s].subscriptions {
      UnsubscribeAllKeepsSessions(r, channels, r.sessions[s].subscriptions[KeyOf(channels)]);
    }
  }

  // ----- Redis

  function Execute(redis: set<string>, c: Command): set<string> {
    match c
    case SUBSCRIBE(channel) => redis + {channel}
    case UNSUBSCRIBE(channel) => redis - {channel}
  }

  /** What Redis is subscribed to once it has executed the commands sent so far. */
  function Drained(redis: set<string>, commands: seq<Command>): set<string>
    decreases |commands|
  {
    if commands == [] then redis else Drained(Execute(redis, commands[0]), commands[1..])
  }

  function ExecuteOne(r: Registry): Registry {
    if r.commands == [] then r
    else r.(redis := Execute(r.redis, r.commands[0]), commands := r.commands[1..])
  }

  // ----- The server object

  class StreamingServer {
    var subs: map<string, seq<Listener>>
    var commands: seq<Command>
    var redis: set<string>
    var sessions: map<nat, Session>
    var serial: nat

    constructor ()
      ensures State() == EMPTY_REGISTRY
    {
      subs, commands, redis, sessions, serial := map[], [], {}, map[], 0;
    }

    function State(): Registry
      reads this
    {
      Registry(subs, commands, redis, sessions, serial)
    }

    method SubscribeListener(channel: string, l: Listener)
      modifies this
      ensures State() == Subscribe(old(State()), channel, l)
    {
      var listeners := if channel in subs then subs[channel] else [];
      if |listeners| == 0 {
        commands := commands + [SUBSCRIBE(channel)];
      }
      subs := subs[channel := listeners + [l]];
    }

    method UnsubscribeListener(channel: string, l: Listener)
      modifies this
      ensures State() == Unsubscribe(old(State()), channel, l)
    {
      if channel !in subs { return; }
      var left := Without(subs[channel], l);
      if |left| == 0 {
        commands := commands + [UNSUBSCRIBE(channel)];
        subs := subs - {channel};
      } else {
        subs := subs[channel := left];
      }
    }

    method StreamFrom(channels: seq<string>, l: Listener)
      modifies this
      ensures State() == SubscribeAll(old(State()), channels, l)
    {
      var i := 0;
      while i < |channels|
        invariant 0 <= i <= |channels|
        invariant SubscribeAll(State(), channels[i..], l) == SubscribeAll(old(State()), channels, l)
      {
        assert channels[i..][0] == channels[i] && channels[i..][1..] == channels[i + 1..];
        SubscribeListener(channels[i], l);
        i := i + 1;
      }
    }

    method SubscribeWebsocketToSystemChannel(s: nat, tokenChannel: string, systemChannel: string)
      modifies this
      ensures State() == Open(old(State()), s, tokenChannel, systemChannel)
    {
      sessions := sessions[s := Session(map[], multiset{}, true)];
      var l := Listener(s, serial);
      serial := serial + 1;
      SubscribeListener(tokenChannel, l);
      SubscribeListener(systemChannel, l);
      var session := sessions[s];
      sessions := sessions[s := session.(subscriptions := session.subscriptions[tokenChannel := l])];
      session := sessions[s];
      sessions := sessions[s := session.(subscriptions := session.subscriptions[systemChannel := l])];
    }

    method SubscribeWebsocketToChannel(s: nat, channels: seq<string>)
      requires s in sessions
      modifies this
      ensures State() == Complete(old(State()), s, channels)
    {
      var session := sessions[s];
      sessions := sessions[s := session.(inFlight := session.inFlight - multiset{channels})];
      var key := KeyOf(channels);
      if key in sessions[s].subscriptions { return; }
      var l := Listener(s, serial);
      serial := serial + 1;
      SubscribeAllKeepsSessions(State(), channels, l);
      StreamFrom(channels, l);
      session := sessions[s];
      sessions := sessions[s := session.(subscriptions := session.subscriptions[key := l])];
    }

    method RemoveSession(s: nat, channels: seq<string>)
      requires s in sessions
      modifies this
      ensures State() == RemoveSubscription(old(State()), s, channels)
    {
      hide Unsubscribe, UnsubscribeAll, KeyOf;
      var key := KeyOf(channels);
      if key !in sessions[s].subscriptions { return; }
      var l := sessions[s].subscriptions[key];
      UnsubscribeAllKeepsSessions(State(), channels, l);
      StopListening(channels, l);
      var session := sessions[s];
      sessions := sessions[s := session.(subscriptions := session.subscriptions - {key})];
    }

    /** The listener taken off each of the channels. */
    method StopListening(channels: seq<string>, l: Listener)
      modifies this
      ensures State() == UnsubscribeAll(old(State()), channels, l)
    {
      hide Unsubscribe;
      var i := 0;
      while i < |channels|
        invariant 0 <= i <= |channels|
        invariant UnsubscribeAll(State(), channels[i..], l) == UnsubscribeAll(old(State()), channels, l)
      {
        assert channels[i..][0] == channels[i] && channels[i..][1..] == channels[i + 1..];
        UnsubscribeListener(channels[i], l);
        i := i + 1;
      }
    }

    method OnWebsocketClose(s: nat, keys: seq<string>)
      requires s in sessions
      modifies this
      ensures State() == Close(old(State()), s, keys)
    {
      sessions := sessions[s := sessions[s].(open := false)];
      var i := 0;
      while i < |keys|
        invariant 0 <= i <= |keys| && s in sessions
        invariant RemoveKeys(State(), s, keys[i..]) == Close(old(State()), s, keys)
      {
        assert keys[i..][0] == keys[i] && keys[i..][1..] == keys[i + 1..];
        RemoveSubscriptionKeepsSession(State(), s, ChannelsOf(keys[i]));
        RemoveSession(s, ChannelsOf(keys[i]));
        i := i + 1;
      }
    }
  }
}
