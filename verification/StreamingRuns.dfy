/** What every run of the subscription registry keeps. */
module StreamingRuns {
  import opened Text
  import opened Streaming

  datatype Event =
    | OpenE(s: nat, tokenChannel: string, systemChannel: string)
    | BeginE(s: nat, channels: seq<string>)
    | CompleteE(s: nat, channels: seq<string>)
    | FailE(s: nat, channels: seq<string>)
    | UnsubscribeE(s: nat, channels: seq<string>)
    | CloseE(s: nat, keys: seq<string>)
    | RedisE

  /** Channel ids as `channelNameToIds` makes them: at least one, none with a semicolon. */
  predicate ChannelIds(channels: seq<string>) {
    channels != [] && forall i | 0 <= i < |channels| :: ';' !in channels[i]
  }

  predicate Lists(keys: seq<string>, subscriptions: map<string, Listener>) {
    && (forall i, j | 0 <= i < j < |keys| :: keys[i] != keys[j])
    && (forall i | 0 <= i < |keys| :: keys[i] in subscriptions)
    && |keys| == |subscriptions|
  }

  /** A promise chain may end, and an unsubscribe may run, after the socket has closed. */
  predicate Enabled(r: Registry, e: Event) {
    match e
    case OpenE(s, tokenChannel, systemChannel) =>
      s !in r.sessions && tokenChannel != systemChannel && ChannelIds([tokenChannel, systemChannel])
    case BeginE(s, channels) => s in r.sessions && r.sessions[s].open && ChannelIds(channels)
    case CompleteE(s, channels) => s in r.sessions && channels in r.sessions[s].inFlight && ChannelIds(channels)
    case FailE(s, channels) => s in r.sessions && channels in r.sessions[s].inFlight
    case UnsubscribeE(s, channels) => s in r.sessions && ChannelIds(channels)
    case CloseE(s, keys) => s in r.sessions && r.sessions[s].open && Lists(keys, r.sessions[s].subscriptions)
    case RedisE => true
  }

  function Step(r: Registry, e: Event): Registry
    requires Enabled(r, e)
  {
    match e
    case OpenE(s, tokenChannel, systemChannel) => Open(r, s, tokenChannel, systemChannel)
    case BeginE(s, channels) => Begin(r, s, channels)
    case CompleteE(s, channels) => Complete(r, s, channels)
    case FailE(s, channels) => Settle(r, s, channels)
    case UnsubscribeE(s, channels) => RemoveSubscription(r, s, channels)
    case CloseE(s, keys) => Close(r, s, keys)
    case RedisE => ExecuteOne(r)
  }

  predicate IsRun(r: Registry, events: seq<Event>)
    decreases |events|
  {
    events == [] || (Enabled(r, events[0]) && IsRun(Step(r, events[0]), events[1..]))
  }

  function Run(r: Registry, events: seq<Event>): Registry
    requires IsRun(r, events)
    decreases |events|
  {
    if events == [] then r else Run(Step(r, events[0]), events[1..])
  }

  // ----- Redis hears exactly the channels that have listeners

  /** No command is sent for nothing: each subscribes to a channel that Redis is not subscribed
      to by then, or unsubscribes from one that it is. */
  predicate Frugal(redis: set<string>, commands: seq<Command>)
    decreases |commands|
  {
    commands == [] ||
    ((match commands[0]
      case SUBSCRIBE(channel) => channel !in redis
      case UNSUBSCRIBE(channel) => channel in redis) &&
     Frugal(Execute(redis, commands[0]), commands[1..]))
  }

  ghost predicate Tidy(r: Registry) {
    && (forall channel | channel in r.subs :: r.subs[channel] != [])
    && Drained(r.redis, r.commands) == r.subs.Keys
    && Frugal(r.redis, r.commands)
  }

  lemma {:induction false} DrainedAppend(redis: set<string>, commands: seq<Command>, c: Command)
    ensures Drained(redis, commands + [c]) == Execute(Drained(redis, commands), c)
    ensures Frugal(redis, commands + [c]) <==>
      Frugal(redis, commands) && Execute(Drained(redis, commands), c) != Drained(redis, commands)
    decreases |commands|
  {
    if commands == [] {
      assert commands + [c] == [c] && [c][1..] == [];
    } else {
      assert (commands + [c])[1..] == commands[1..] + [c];
      DrainedAppend(Execute(redis, commands[0]), commands[1..], c);
    }
  }

  lemma SubscribeTidy(r: Registry, channel: string, l: Listener)
    requires Tidy(r)
    ensures Tidy(Subscribe(r, channel, l))
  {
    DrainedAppend(r.redis, r.commands, SUBSCRIBE(channel));
  }

  lemma UnsubscribeTidy(r: Registry, channel: string, l: Listener)
    requires Tidy(r)
    ensures Tidy(Unsubscribe(r, channel, l))
  {
    DrainedAppend(r.redis, r.commands, UNSUBSCRIBE(channel));
  }

  // ----- Who hears a channel

  predicate Hears(r: Registry, channel: string, l: Listener) {
    l in Listening(r, channel)
  }

  lemma {:induction false} SubscribeAllEffect(r: Registry, channels: seq<string>, l: Listener)
    requires Tidy(r)
    ensures var r' := SubscribeAll(r, channels, l);
      && Tidy(r') && r'.sessions == r.sessions && r'.serial == r.serial
      && forall c, x :: Hears(r', c, x) <==> Hears(r, c, x) || (c in channels && x == l)
    decreases |channels|
  {
    if channels != [] {
      var next := Subscribe(r, channels[0], l);
      SubscribeTidy(r, channels[0], l);
      SubscribeAllEffect(next, channels[1..], l);
      assert forall c :: c in channels <==> c == channels[0] || c in channels[1..];
    }
  }

  lemma {:induction false} UnsubscribeAllEffect(r: Registry, channels: seq<string>, l: Listener)
    requires Tidy(r)
    ensures var r' := UnsubscribeAll(r, channels, l);
      && Tidy(r') && r'.sessions == r.sessions && r'.serial == r.serial
      && forall c, x :: Hears(r', c, x) <==> Hears(r, c, x) && !(c in channels && x == l)
    decreases |channels|
  {
    if channels != [] {
      var next := Unsubscribe(r, channels[0], l);
      UnsubscribeTidy(r, channels[0], l);
      UnsubscribeAllEffect(next, channels[1..], l);
      assert forall c :: c in channels <==> c == channels[0] || c in channels[1..];
    }
  }

  // ----- The registered listeners are the recorded ones

  ghost predicate Recorded(r: Registry, s: nat, key: string, channel: string, l: Listener) {
    s in r.sessions && key in r.sessions[s].subscriptions && r.sessions[s].subscriptions[key] == l
    && channel in ChannelsOf(key)
  }

  ghost predicate Agrees(r: Registry) {
    forall channel, l :: Hears(r, channel, l) <==> exists s, key :: Recorded(r, s, key, channel, l)
  }

  /** Listeners belong to their session, are never reused, and two subscriptions share one
      only on different channels, as the two system subscriptions do. */
  ghost predicate Owned(r: Registry) {
    && (forall s, key | s in r.sessions && key in r.sessions[s].subscriptions ::
          r.sessions[s].subscriptions[key].session == s && r.sessions[s].subscriptions[key].serial < r.serial)
    && (forall s, k1, k2, c, l | Recorded(r, s, k1, c, l) && Recorded(r, s, k2, c, l) :: k1 == k2)
  }

  ghost predicate Sound(r: Registry) {
    Tidy(r) && Agrees(r) && Owned(r)
  }

  lemma KeyChannels(channels: seq<string>)
    requires ChannelIds(channels)
    ensures ChannelsOf(KeyOf(channels)) == channels
  {
    forall p | p in channels ensures ';' !in p {
      var i :| 0 <= i < |channels| && channels[i] == p;
    }
    FieldsOfJoin(channels, ';');
  }

  /** The close handler gets the channel ids back from the joined key exactly when no id has a
      semicolon in it (and there is at least one). */
  lemma KeyRoundTripsIff(channels: seq<string>)
    ensures ChannelsOf(KeyOf(channels)) == channels <==> ChannelIds(channels)
  {
    if ChannelIds(channels) {
      KeyChannels(channels);
    } else {
      FieldsHoldNone(KeyOf(channels), ';');
    }
  }

  lemma {:induction false} KeyOfChannelsOf(key: string)
    ensures KeyOf(ChannelsOf(key)) == key
    decreases |key|
  {
    var n := LenTo(key, ';');
    if n < |key| {
      KeyOfChannelsOf(key[n + 1..]);
      assert key == key[..n] + ";" + key[n + 1..];
    } else {
      assert key[..n] == key;
    }
  }

  /** Adding one subscription whose listener is used on none of its channels yet. */
  lemma RecordSound(r: Registry, s: nat, key: string, l: Listener, r': Registry)
    requires Sound(r) && s in r.sessions && key !in r.sessions[s].subscriptions
    requires l.session == s && l.serial < r'.serial && r.serial <= r'.serial
    requires forall k, c | Recorded(r, s, k, c, l) :: c !in ChannelsOf(key)
    requires Tidy(r') && r'.sessions == Record(r, s, key, l).sessions
    requires forall c, x :: Hears(r', c, x) <==> Hears(r, c, x) || (c in ChannelsOf(key) && x == l)
    ensures Sound(r')
  {
    hide ChannelsOf, Hears, Tidy;
    forall t, k, c, x ensures Recorded(r', t, k, c, x)
      <==> Recorded(r, t, k, c, x) || (t == s && k == key && c in ChannelsOf(key) && x == l) {}
    forall c, x ensures Hears(r', c, x) <==> exists t, k :: Recorded(r', t, k, c, x) {
      if Hears(r, c, x) {
        var t, k :| Recorded(r, t, k, c, x);
        assert Recorded(r', t, k, c, x);
      }
      if c in ChannelsOf(key) && x == l { assert Recorded(r', s, key, c, x); }
    }
  }

  /** A listener with a serial not given out yet is recorded nowhere. */
  lemma FreshUnrecorded(r: Registry, s: nat)
    requires Owned(r)
    ensures forall k, c :: !Recorded(r, s, k, c, Listener(s, r.serial))
  {
  }

  lemma CompleteSound(r: Registry, s: nat, channels: seq<string>)
    requires Sound(r) && s in r.sessions && ChannelIds(channels)
    ensures Sound(Complete(r, s, channels))
  {
    var r1 := Settle(r, s, channels);
    SettleSound(r, s, r1);
    var key := KeyOf(channels);
    if key !in r1.sessions[s].subscriptions {
      var l := Listener(s, r1.serial);
      KeyChannels(channels);
      var heard := SubscribeAll(r1.(serial := r1.serial + 1), channels, l);
      SubscribeAllEffect(r1.(serial := r1.serial + 1), channels, l);
      var r' := Complete(r, s, channels);
      assert r' == Record(heard, s, key, l);
      forall c, x ensures Hears(r', c, x) <==> Hears(r1, c, x) || (c in channels && x == l) {
        assert Hears(r', c, x) <==> Hears(heard, c, x);
      }
      FreshUnrecorded(r1, s);
      RecordSound(r1, s, key, l, r');
    }
  }

  /** Requests in flight and the open flag play no part in the invariant. */
  lemma SettleSound(r: Registry, s: nat, r': Registry)
    requires Sound(r) && s in r.sessions
    requires exists f, o :: r' == r.(sessions := r.sessions[s := r.sessions[s].(inFlight := f, open := o)])
    ensures Sound(r')
  {
    hide ChannelsOf;
    forall t, k, c, x ensures Recorded(r', t, k, c, x) <==> Recorded(r, t, k, c, x) {}
    forall c, x ensures Hears(r', c, x) <==> exists t, k :: Recorded(r', t, k, c, x) {
      assert Hears(r', c, x) <==> Hears(r, c, x);
    }
  }

  lemma RemoveSound(r: Registry, s: nat, channels: seq<string>)
    requires Sound(r) && s in r.sessions
    requires ChannelsOf(KeyOf(channels)) == channels
    ensures Sound(RemoveSubscription(r, s, channels))
    ensures s in RemoveSubscription(r, s, channels).sessions
    ensures RemoveSubscription(r, s, channels).sessions
      == r.sessions[s := r.sessions[s].(subscriptions := r.sessions[s].subscriptions - {KeyOf(channels)})]
  {
    var key := KeyOf(channels);
    if key in r.sessions[s].subscriptions {
      var l := r.sessions[s].subscriptions[key];
      UnsubscribeAllEffect(r, channels, l);
      ForgetSound(r, s, key, l, RemoveSubscription(r, s, channels));
    } else {
      assert r.sessions[s].subscriptions - {key} == r.sessions[s].subscriptions;
    }
  }

  lemma ForgetSound(r: Registry, s: nat, key: string, l: Listener, r': Registry)
    requires Sound(r) && s in r.sessions && key in r.sessions[s].subscriptions && r.sessions[s].subscriptions[key] == l
    requires Tidy(r') && r'.serial == r.serial && r'.sessions == Forget(r, s, key).sessions
    requires forall c, x :: Hears(r', c, x) <==> Hears(r, c, x) && !(c in ChannelsOf(key) && x == l)
    ensures Sound(r')
  {
    hide ChannelsOf, Hears, Tidy;
    forall t, k, c, x ensures Recorded(r', t, k, c, x) <==> Recorded(r, t, k, c, x) && !(t == s && k == key) {}
    forall c, x ensures Hears(r', c, x) <==> exists t, k :: Recorded(r', t, k, c, x) {
      if Hears(r', c, x) {
        var t, k :| Recorded(r, t, k, c, x);
        assert Recorded(r', t, k, c, x);
      }
      if t, k :| Recorded(r', t, k, c, x) {
        assert Recorded(r, t, k, c, x) && x.session == t && l.session == s;
        assert c in ChannelsOf(key) && x == l ==> Recorded(r, s, key, c, x);
      }
    }
  }

  lemma SingleKey(channel: string)
    requires ';' !in channel
    ensures ChannelsOf(channel) == [channel]
  {
    KeyChannels([channel]);
  }

  function WithSession(r: Registry, s: nat): Registry {
    r.(sessions := r.sessions[s := Session(map[], multiset{}, true)])
  }

  /** The registry of a new session after its first subscription. */
  function FirstSubscribed(r: Registry, s: nat, channel: string): Registry {
    var l := Listener(s, r.serial);
    var heard := Subscribe(WithSession(r, s).(serial := r.serial + 1), channel, l);
    Record(heard, s, channel, l)
  }

  lemma FirstSound(r: Registry, s: nat, channel: string)
    requires Sound(r) && s !in r.sessions && ';' !in channel
    ensures var r' := FirstSubscribed(r, s, channel);
      && Sound(r') && r'.serial == r.serial + 1
      && r'.sessions == r.sessions[s := Session(map[channel := Listener(s, r.serial)], multiset{}, true)]
  {
    var r0, l := WithSession(r, s), Listener(s, r.serial);
    EmptySessionSound(r, s, r0);
    hide Sound, Subscribe;
    SingleKey(channel);
    SubscribeRecordSound(r0, s, channel, l, r.serial + 1);
    SubscribeKeeps(r0.(serial := r.serial + 1), channel, l);
  }

  lemma OpenSound(r: Registry, s: nat, tokenChannel: string, systemChannel: string)
    requires Sound(r) && Enabled(r, OpenE(s, tokenChannel, systemChannel))
    ensures Sound(Open(r, s, tokenChannel, systemChannel))
  {
    assert [tokenChannel, systemChannel][0] == tokenChannel && [tokenChannel, systemChannel][1] == systemChannel;
    hide Sound, Subscribe;
    FirstSound(r, s, tokenChannel);
    SecondSound(r, s, tokenChannel, systemChannel);
    OpenInOrder(r, s, tokenChannel, systemChannel);
  }

  lemma SecondSound(r: Registry, s: nat, tokenChannel: string, systemChannel: string)
    requires s !in r.sessions && tokenChannel != systemChannel && ';' !in tokenChannel && ';' !in systemChannel
    requires var r2 := FirstSubscribed(r, s, tokenChannel);
      && Sound(r2) && r2.serial == r.serial + 1
      && r2.sessions == r.sessions[s := Session(map[tokenChannel := Listener(s, r.serial)], multiset{}, true)]
    ensures var r2, l := FirstSubscribed(r, s, tokenChannel), Listener(s, r.serial);
      s in Subscribe(r2, systemChannel, l).sessions &&
      Sound(Record(Subscribe(r2, systemChannel, l), s, systemChannel, l))
  {
    var r2, l := FirstSubscribed(r, s, tokenChannel), Listener(s, r.serial);
    hide Sound, Subscribe, FirstSubscribed, ChannelsOf;
    SingleKey(tokenChannel);
    SingleKey(systemChannel);
    SubscribeKeeps(r2, systemChannel, l);
    SubscribeRecordSound(r2, s, systemChannel, l, r2.serial);
    assert r2.(serial := r2.serial) == r2;
  }

  lemma OpenInOrder(r: Registry, s: nat, tokenChannel: string, systemChannel: string)
    ensures var r2, l := FirstSubscribed(r, s, tokenChannel), Listener(s, r.serial);
      s in Subscribe(r2, systemChannel, l).sessions &&
      Open(r, s, tokenChannel, systemChannel) == Record(Subscribe(r2, systemChannel, l), s, systemChannel, l)
  {
    var r1, l := WithSession(r, s).(serial := r.serial + 1), Listener(s, r.serial);
    SubscribeKeeps(r1, tokenChannel, l);
    SubscribeThenRecord(Subscribe(r1, tokenChannel, l), s, tokenChannel, systemChannel, l);
    hide Subscribe;
  }

  lemma SubscribeKeeps(r: Registry, channel: string, l: Listener)
    ensures var r' := Subscribe(r, channel, l);
      r'.sessions == r.sessions && r'.serial == r.serial && r'.redis == r.redis
  {
  }

  /** Recording a subscription and subscribing to another channel can be done in either order. */
  lemma SubscribeThenRecord(r: Registry, s: nat, recorded: string, channel: string, l: Listener)
    requires s in r.sessions
    ensures s in Subscribe(r, channel, l).sessions
    ensures Subscribe(Record(r, s, recorded, l), channel, l) == Record(Subscribe(r, channel, l), s, recorded, l)
  {
  }

  /** One more channel for a listener that is not on it yet. */
  lemma SubscribeRecordSound(r: Registry, s: nat, channel: string, l: Listener, serial: nat)
    requires Sound(r) && s in r.sessions && channel !in r.sessions[s].subscriptions && ChannelsOf(channel) == [channel]
    requires l.session == s && l.serial < serial && r.serial <= serial
    requires forall k | k in r.sessions[s].subscriptions :: channel !in ChannelsOf(k)
    ensures Sound(Record(Subscribe(r.(serial := serial), channel, l), s, channel, l))
  {
    var r1 := r.(serial := serial);
    var r' := Record(Subscribe(r1, channel, l), s, channel, l);
    HearsAfterSubscribe(r1, channel, l, r');
    RecordSound(r, s, channel, l, r');
  }

  lemma HearsAfterSubscribe(r: Registry, channel: string, l: Listener, r': Registry)
    requires Tidy(r) && r'.subs == Subscribe(r, channel, l).subs
    requires r'.redis == r.redis && r'.commands == Subscribe(r, channel, l).commands
    ensures Tidy(r') && forall c, x :: Hears(r', c, x) <==> Hears(r, c, x) || (c in [channel] && x == l)
  {
    SubscribeTidy(r, channel, l);
  }

  lemma EmptySessionSound(r: Registry, s: nat, r': Registry)
    requires Sound(r) && s !in r.sessions
    requires r' == r.(sessions := r.sessions[s := Session(map[], multiset{}, true)])
    ensures Sound(r')
  {
    hide ChannelsOf;
    forall t, k, c, x ensures Recorded(r', t, k, c, x) <==> Recorded(r, t, k, c, x) {}
    forall c, x ensures Hears(r', c, x) <==> exists t, k :: Recorded(r', t, k, c, x) {
      assert Hears(r', c, x) <==> Hears(r, c, x);
    }
  }

  lemma ExecuteSound(r: Registry)
    requires Sound(r)
    ensures Sound(ExecuteOne(r))
  {
    hide ChannelsOf;
    var r' := ExecuteOne(r);
    forall t, k, c, x ensures Recorded(r', t, k, c, x) <==> Recorded(r, t, k, c, x) {}
    forall c, x ensures Hears(r', c, x) <==> exists t, k :: Recorded(r', t, k, c, x) {
      assert Hears(r', c, x) <==> Hears(r, c, x);
    }
  }

  // ----- Closing

  lemma {:induction false} RemoveKeysSound(r: Registry, s: nat, keys: seq<string>)
    requires Sound(r) && s in r.sessions
    ensures Sound(RemoveKeys(r, s, keys))
    ensures RemoveKeys(r, s, keys).sessions
      == r.sessions[s := r.sessions[s].(subscriptions := r.sessions[s].subscriptions - (set k | k in keys))]
    decreases |keys|
  {
    if keys == [] {
      var none := set k | k in keys;
      assert none == {} && r.sessions[s].subscriptions - none == r.sessions[s].subscriptions;
    } else {
      KeyOfChannelsOf(keys[0]);
      RemoveSound(r, s, ChannelsOf(keys[0]));
      RemoveKeysSound(RemoveSubscription(r, s, ChannelsOf(keys[0])), s, keys[1..]);
      var subscriptions := r.sessions[s].subscriptions;
      assert (subscriptions - {keys[0]}) - (set k | k in keys[1..]) == subscriptions - (set k | k in keys);
    }
  }

  lemma {:induction false} DistinctSize(keys: seq<string>)
    requires forall i, j | 0 <= i < j < |keys| :: keys[i] != keys[j]
    ensures |set k | k in keys| == |keys|
    decreases |keys|
  {
    if keys != [] {
      DistinctSize(keys[1..]);
      assert (set k | k in keys) == {keys[0]} + set k | k in keys[1..];
    }
  }

  lemma ListedKeysAreAll(keys: seq<string>, subscriptions: map<string, Listener>)
    requires Lists(keys, subscriptions)
    ensures subscriptions - (set k | k in keys) == map[]
  {
    DistinctSize(keys);
    var listed := set k | k in keys;
    assert listed <= subscriptions.Keys && |subscriptions.Keys| == |listed|;
    assert subscriptions.Keys == listed + (subscriptions.Keys - listed);
    assert subscriptions.Keys - listed == {};
  }

  ghost predicate Silent(r: Registry, s: nat) {
    forall c, l | Hears(r, c, l) :: l.session != s
  }

  lemma NoSubscriptionsNoListeners(r: Registry, s: nat)
    requires Sound(r) && s in r.sessions
    ensures Silent(r, s) <==> r.sessions[s].subscriptions == map[]
  {
    if r.sessions[s].subscriptions != map[] {
      var key :| key in r.sessions[s].subscriptions;
      var l := r.sessions[s].subscriptions[key];
      assert ChannelsOf(key)[0] in ChannelsOf(key);
      assert Recorded(r, s, key, ChannelsOf(key)[0], l);
      assert Hears(r, ChannelsOf(key)[0], l);
    }
    if !Silent(r, s) {
      var c, l :| Hears(r, c, l) && l.session == s;
      var t, key :| Recorded(r, t, key, c, l);
      assert t == s;
    }
  }

  /** Closing a socket takes every listener of its session off every channel. */
  lemma CloseSilences(r: Registry, s: nat, keys: seq<string>)
    requires Sound(r) && Enabled(r, CloseE(s, keys))
    ensures var r' := Close(r, s, keys);
      && Sound(r') && Silent(r', s)
      && r'.sessions == r.sessions[s := Session(map[], r.sessions[s].inFlight, false)]
  {
    var r1 := r.(sessions := r.sessions[s := r.sessions[s].(open := false)]);
    var session := r.sessions[s];
    assert r1 == r.(sessions := r.sessions[s := session.(inFlight := session.inFlight, open := false)]);
    SettleSound(r, s, r1);
    RemoveKeysSound(r1, s, keys);
    ListedKeysAreAll(keys, session.subscriptions);
    NoSubscriptionsNoListeners(Close(r, s, keys), s);
  }

  // ----- Runs

  lemma StepSound(r: Registry, e: Event)
    requires Sound(r) && Enabled(r, e)
    ensures Sound(Step(r, e))
  {
    match e
    case OpenE(s, tokenChannel, systemChannel) => OpenSound(r, s, tokenChannel, systemChannel);
    case BeginE(s, channels) => SettleSound(r, s, Begin(r, s, channels));
    case CompleteE(s, channels) => CompleteSound(r, s, channels);
    case FailE(s, channels) => SettleSound(r, s, Settle(r, s, channels));
    case UnsubscribeE(s, channels) =>
      KeyChannels(channels);
      RemoveSound(r, s, channels);
    case CloseE(s, keys) => CloseSilences(r, s, keys);
    case RedisE => ExecuteSound(r);
  }

  lemma {:induction false} RunSound(r: Registry, events: seq<Event>)
    requires Sound(r) && IsRun(r, events)
    ensures Sound(Run(r, events))
    decreases |events|
  {
    if events != [] {
      StepSound(r, events[0]);
      RunSound(Step(r, events[0]), events[1..]);
    }
  }

  lemma NothingIsSound()
    ensures Sound(EMPTY_REGISTRY)
  {
  }

  /** In every run: no channel list is empty, Redis will be subscribed to exactly the channels
      with listeners once it has executed what was sent, no command is redundant, and the
      registered listeners are exactly those the sessions' subscription maps name. */
  lemma SoundEver(events: seq<Event>)
    requires IsRun(EMPTY_REGISTRY, events)
    ensures var r := Run(EMPTY_REGISTRY, events);
      && (forall channel | channel in r.subs :: r.subs[channel] != [])
      && Drained(r.redis, r.commands) == r.subs.Keys
      && Frugal(r.redis, r.commands)
      && forall channel, l :: Hears(r, channel, l) <==> exists s, key :: Recorded(r, s, key, channel, l)
  {
    NothingIsSound();
    RunSound(EMPTY_REGISTRY, events);
  }

  /** A step of some other session, or of Redis, leaves this session's record alone. */
  lemma OtherStep(r: Registry, e: Event, s: nat)
    requires Sound(r) && Enabled(r, e) && s in r.sessions
    requires e.RedisE? || e.s != s
    ensures s in Step(r, e).sessions && Step(r, e).sessions[s] == r.sessions[s]
  {
    match e
    case CompleteE(t, channels) =>
      var r1 := Settle(r, t, channels);
      SubscribeAllKeepsSessions(r1.(serial := r1.serial + 1), channels, Listener(t, r1.serial));
    case UnsubscribeE(t, channels) =>
      KeyChannels(channels);
      RemoveSound(r, t, channels);
    case CloseE(t, keys) => CloseSilences(r, t, keys);
    case _ =>
  }

  predicate Closed(r: Registry, s: nat) {
    s in r.sessions && !r.sessions[s].open
  }

  /** A session that was closed with no subscribe in flight never registers a listener again. */
  lemma {:induction false} ClosedStaysSilent(r: Registry, events: seq<Event>, s: nat)
    requires Sound(r) && IsRun(r, events) && Closed(r, s)
    requires r.sessions[s].subscriptions == map[] && r.sessions[s].inFlight == multiset{}
    ensures Silent(Run(r, events), s)
    decreases |events|
  {
    if events == [] {
      NoSubscriptionsNoListeners(r, s);
    } else {
      var e := events[0];
      StepSound(r, e);
      if e.RedisE? || e.s != s { OtherStep(r, e, s); }
      ClosedStaysSilent(Step(r, e), events[1..], s);
    }
  }

  // ----- Subscribe requests that finish after the close

  predicate Leaves(e: Event, s: nat, key: string) {
    e.UnsubscribeE? && e.s == s && KeyOf(e.channels) == key
  }

  /** A later unsubscribe of the session names the same channels. */
  predicate Undone(events: seq<Event>, s: nat, key: string)
    decreases |events|
  {
    events != [] && (Leaves(events[0], s, key) || Undone(events[1..], s, key))
  }

  predicate EachUndone(events: seq<Event>, s: nat)
    decreases |events|
  {
    events == [] ||
    ((events[0].CompleteE? && events[0].s == s ==> Undone(events[1..], s, KeyOf(events[0].channels))) &&
     EachUndone(events[1..], s))
  }

  function Keys(r: Registry, s: nat): set<string>
    requires s in r.sessions
  {
    r.sessions[s].subscriptions.Keys
  }

  lemma CompleteKeys(r: Registry, s: nat, channels: seq<string>)
    requires s in r.sessions
    ensures var r' := Complete(r, s, channels);
      s in r'.sessions && r'.sessions[s].open == r.sessions[s].open && Keys(r', s) == Keys(r, s) + {KeyOf(channels)}
  {
    hide KeyOf, SubscribeAll;
    var r1 := Settle(r, s, channels);
    SubscribeAllKeepsSessions(r1.(serial := r1.serial + 1), channels, Listener(s, r1.serial));
  }

  /** What a step of its own does to the subscriptions of a closed session. */
  lemma OwnStepWhileClosed(r: Registry, e: Event, s: nat)
    requires Sound(r) && Enabled(r, e) && Closed(r, s) && !e.RedisE? && e.s == s
    ensures Closed(Step(r, e), s)
    ensures Keys(Step(r, e), s) ==
      if e.CompleteE? then Keys(r, s) + {KeyOf(e.channels)}
      else if e.UnsubscribeE? then Keys(r, s) - {KeyOf(e.channels)}
      else Keys(r, s)
  {
    hide Complete, RemoveSubscription, KeyOf, Sound;
    match e
    case CompleteE(_, channels) => CompleteKeys(r, s, channels);
    case UnsubscribeE(_, channels) =>
      KeyChannels(channels);
      RemoveSound(r, s, channels);
    case _ =>
  }

  /** A closed session ends with no subscription exactly if all it has, and all it still makes,
      are undone later. */
  lemma {:induction false} ClosedRun(r: Registry, events: seq<Event>, s: nat)
    requires Sound(r) && IsRun(r, events) && Closed(r, s)
    ensures Closed(Run(r, events), s)
    ensures Keys(Run(r, events), s) == {}
      <==> AllUndone(Keys(r, s), events, s) && EachUndone(events, s)
    decreases |events|
  {
    if events == [] {
      if Keys(r, s) != {} {
        var key :| key in Keys(r, s);
        assert !Undone(events, s, key);
      }
    } else {
      var e := events[0];
      StepSound(r, e);
      if e.RedisE? || e.s != s { OtherStep(r, e, s); } else { OwnStepWhileClosed(r, e, s); }
      hide Sound, Step, Enabled, KeyOf, AllUndone;
      ClosedRun(Step(r, e), events[1..], s);
      AllUndoneStep(Keys(r, s), events, s);
    }
  }

  ghost predicate AllUndone(keys: set<string>, events: seq<Event>, s: nat) {
    forall key | key in keys :: Undone(events, s, key)
  }

  lemma AllUndoneStep(keys: set<string>, events: seq<Event>, s: nat)
    requires events != []
    ensures var e, rest := events[0], events[1..];
      AllUndone(keys, events, s) <==>
        AllUndone(if e.UnsubscribeE? && e.s == s then keys - {KeyOf(e.channels)} else keys, rest, s)
    ensures events[0].CompleteE? ==>
      var key := KeyOf(events[0].channels);
      AllUndone(keys + {key}, events[1..], s) <==> AllUndone(keys, events[1..], s) && Undone(events[1..], s, key)
  {
    hide KeyOf;
  }

  lemma {:induction false} RunNamesChannelIds(r: Registry, events: seq<Event>, i: nat)
    requires IsRun(r, events) && i < |events|
    ensures events[i].CompleteE? || events[i].UnsubscribeE? ==> ChannelIds(events[i].channels)
    decreases |events|
  {
    if i > 0 { RunNamesChannelIds(Step(r, events[0]), events[1..], i - 1); }
  }

  lemma {:induction false} UndoneAt(events: seq<Event>, s: nat, key: string)
    ensures Undone(events, s, key)
      <==> exists j :: 0 <= j < |events| && Leaves(events[j], s, key)
    decreases |events|
  {
    if events != [] {
      UndoneAt(events[1..], s, key);
      if Undone(events[1..], s, key) {
        var j :| 0 <= j < |events[1..]| && Leaves(events[1..][j], s, key);
        assert events[j + 1] == events[1..][j];
      }
      if j :| 0 < j < |events| && Leaves(events[j], s, key) {
        assert events[1..][j - 1] == events[j];
      }
    }
  }

  /** The session asked for these channels to be left after it subscribed to them. */
  ghost predicate LaterUnsubscribed(events: seq<Event>, i: nat, s: nat)
    requires i < |events| && events[i].CompleteE?
  {
    exists j :: i < j < |events| && events[j] == UnsubscribeE(s, events[i].channels)
  }

  ghost predicate EachLaterUnsubscribed(events: seq<Event>, s: nat) {
    forall i | 0 <= i < |events| && events[i].CompleteE? && events[i].s == s :: LaterUnsubscribed(events, i, s)
  }

  lemma {:induction false} EachUndoneAt(r: Registry, events: seq<Event>, s: nat)
    requires IsRun(r, events)
    ensures EachUndone(events, s) <==> EachLaterUnsubscribed(events, s)
    decreases |events|
  {
    if events != [] {
      var rest := events[1..];
      EachUndoneAt(Step(r, events[0]), rest, s);
      forall i | 0 <= i < |rest| && rest[i].CompleteE?
        ensures LaterUnsubscribed(events, i + 1, s) <==> LaterUnsubscribed(rest, i, s)
      {
        LaterInRest(events, i, s);
      }
      if events[0].CompleteE? && events[0].s == s { FirstUndone(r, events, s); }
      EachLaterStep(events, s);
    }
  }

  lemma LaterInRest(events: seq<Event>, i: nat, s: nat)
    requires i + 1 < |events| && events[i + 1].CompleteE?
    ensures LaterUnsubscribed(events, i + 1, s) <==> LaterUnsubscribed(events[1..], i, s)
  {
    var rest := events[1..];
    if LaterUnsubscribed(events, i + 1, s) {
      var j :| i + 1 < j < |events| && events[j] == UnsubscribeE(s, events[i + 1].channels);
      assert rest[j - 1] == events[j];
    }
    if LaterUnsubscribed(rest, i, s) {
      var j :| i < j < |rest| && rest[j] == UnsubscribeE(s, rest[i].channels);
      assert events[j + 1] == rest[j];
    }
  }

  lemma EachLaterStep(events: seq<Event>, s: nat)
    requires events != []
    ensures EachLaterUnsubscribed(events, s) <==>
      EachLaterUnsubscribed(events[1..], s) &&
      (events[0].CompleteE? && events[0].s == s ==> LaterUnsubscribed(events, 0, s))
  {
    var rest := events[1..];
    if EachLaterUnsubscribed(events, s) {
      forall i | 0 <= i < |rest| && rest[i].CompleteE? && rest[i].s == s ensures LaterUnsubscribed(rest, i, s) {
        assert events[i + 1] == rest[i];
        LaterInRest(events, i, s);
      }
    } else {
      var i :| 0 <= i < |events| && events[i].CompleteE? && events[i].s == s && !LaterUnsubscribed(events, i, s);
      if i > 0 {
        LaterInRest(events, i - 1, s);
        assert rest[i - 1] == events[i];
      }
    }
  }

  /** Channel ids are told apart by their joined key. */
  lemma FirstUndone(r: Registry, events: seq<Event>, s: nat)
    requires IsRun(r, events) && events != [] && events[0].CompleteE? && events[0].s == s
    ensures Undone(events[1..], s, KeyOf(events[0].channels)) <==> LaterUnsubscribed(events, 0, s)
  {
    var channels, rest := events[0].channels, events[1..];
    UndoneAt(rest, s, KeyOf(channels));
    RunNamesChannelIds(r, events, 0);
    KeyChannels(channels);
    if Undone(rest, s, KeyOf(channels)) {
      var j :| 0 <= j < |rest| && Leaves(rest[j], s, KeyOf(channels));
      assert events[j + 1] == rest[j];
      RunNamesChannelIds(r, events, j + 1);
      KeyChannels(rest[j].channels);
      assert events[j + 1] == UnsubscribeE(s, channels);
    }
    if j :| 0 < j < |events| && events[j] == UnsubscribeE(s, channels) {
      assert rest[j - 1] == events[j];
    }
  }

  /** After a close the session's listeners are all gone exactly when every subscribe request of
      it that completes late is followed by an unsubscribe from the same channels; one that is
      not leaks its listeners. */
  lemma LateSubscribeLeaks(r: Registry, s: nat, keys: seq<string>, events: seq<Event>)
    requires Sound(r) && Enabled(r, CloseE(s, keys)) && IsRun(Close(r, s, keys), events)
    ensures Silent(Run(Close(r, s, keys), events), s) <==> EachLaterUnsubscribed(events, s)
  {
    CloseSilences(r, s, keys);
    var r' := Close(r, s, keys);
    ClosedRun(r', events, s);
    EachUndoneAt(r', events, s);
    RunSound(r', events);
    NoSubscriptionsNoListeners(Run(r', events), s);
  }

  // ----- Listeners hear a message in the order in which they subscribed

  /** Every channel's listeners stand in the order in which they were made, all before `n`. */
  ghost predicate OrderedUpTo(r: Registry, n: nat) {
    forall channel | channel in r.subs :: InOrder(r.subs[channel], n)
  }

  ghost predicate InOrder(listeners: seq<Listener>, n: nat) {
    && (forall i, j | 0 <= i < j < |listeners| :: listeners[i].serial <= listeners[j].serial)
    && (forall i | 0 <= i < |listeners| :: listeners[i].serial < n)
  }

  lemma SubscribeOrdered(r: Registry, channel: string, l: Listener)
    requires OrderedUpTo(r, l.serial + 1)
    ensures OrderedUpTo(Subscribe(r, channel, l), l.serial + 1)
  {
    var before := Listening(r, channel);
    assert InOrder(before, l.serial + 1);
    assert InOrder(before + [l], l.serial + 1);
    hide InOrder;
  }

  lemma {:induction false} WithoutOrdered(listeners: seq<Listener>, l: Listener, n: nat)
    requires InOrder(listeners, n)
    ensures InOrder(Without(listeners, l), n)
    decreases |listeners|
  {
    if listeners != [] {
      WithoutOrdered(listeners[1..], l, n);
      var rest := Without(listeners[1..], l);
      if listeners[0] != l {
        forall j | 0 <= j < |rest| ensures listeners[0].serial <= rest[j].serial {
          assert rest[j] in listeners[1..];
        }
      }
    }
  }

  lemma UnsubscribeOrdered(r: Registry, channel: string, l: Listener, n: nat)
    requires OrderedUpTo(r, n)
    ensures OrderedUpTo(Unsubscribe(r, channel, l), n)
  {
    if channel in r.subs { WithoutOrdered(r.subs[channel], l, n); }
    hide InOrder, Without;
  }

  lemma {:induction false} SubscribeAllOrdered(r: Registry, channels: seq<string>, l: Listener)
    requires OrderedUpTo(r, l.serial + 1)
    ensures OrderedUpTo(SubscribeAll(r, channels, l), l.serial + 1)
    decreases |channels|
  {
    if channels != [] {
      SubscribeOrdered(r, channels[0], l);
      hide OrderedUpTo, Subscribe;
      SubscribeAllOrdered(Subscribe(r, channels[0], l), channels[1..], l);
    }
  }

  lemma {:induction false} UnsubscribeAllOrdered(r: Registry, channels: seq<string>, l: Listener, n: nat)
    requires OrderedUpTo(r, n)
    ensures OrderedUpTo(UnsubscribeAll(r, channels, l), n)
    decreases |channels|
  {
    if channels != [] {
      UnsubscribeOrdered(r, channels[0], l, n);
      hide OrderedUpTo, Unsubscribe;
      UnsubscribeAllOrdered(Unsubscribe(r, channels[0], l), channels[1..], l, n);
    }
  }

  lemma RemoveOrdered(r: Registry, s: nat, channels: seq<string>, n: nat)
    requires OrderedUpTo(r, n) && s in r.sessions
    ensures OrderedUpTo(RemoveSubscription(r, s, channels), n)
    ensures RemoveSubscription(r, s, channels).serial == r.serial
    ensures s in RemoveSubscription(r, s, channels).sessions
  {
    var key := KeyOf(channels);
    if key in r.sessions[s].subscriptions {
      UnsubscribeAllOrdered(r, channels, r.sessions[s].subscriptions[key], n);
      UnsubscribeAllKeepsSessions(r, channels, r.sessions[s].subscriptions[key]);
    }
    hide UnsubscribeAll, KeyOf, InOrder;
  }

  lemma {:induction false} RemoveKeysOrdered(r: Registry, s: nat, keys: seq<string>, n: nat)
    requires OrderedUpTo(r, n) && s in r.sessions
    ensures OrderedUpTo(RemoveKeys(r, s, keys), n) && RemoveKeys(r, s, keys).serial == r.serial
    decreases |keys|
  {
    if keys != [] {
      RemoveOrdered(r, s, ChannelsOf(keys[0]), n);
      hide OrderedUpTo, RemoveSubscription, ChannelsOf;
      RemoveKeysOrdered(RemoveSubscription(r, s, ChannelsOf(keys[0])), s, keys[1..], n);
    }
  }

  lemma OpenOrdered(r: Registry, s: nat, tokenChannel: string, systemChannel: string)
    requires OrderedUpTo(r, r.serial)
    ensures var r' := Open(r, s, tokenChannel, systemChannel); OrderedUpTo(r', r'.serial)
  {
    var l := Listener(s, r.serial);
    var r1 := WithSession(r, s).(serial := r.serial + 1);
    assert OrderedUpTo(r1, r.serial + 1);
    SubscribeOrdered(r1, tokenChannel, l);
    SubscribeOrdered(Subscribe(r1, tokenChannel, l), systemChannel, l);
    SubscribeKeeps(r1, tokenChannel, l);
    SubscribeKeeps(Subscribe(r1, tokenChannel, l), systemChannel, l);
    hide Subscribe, InOrder;
  }

  lemma CompleteOrdered(r: Registry, s: nat, channels: seq<string>)
    requires OrderedUpTo(r, r.serial) && s in r.sessions
    ensures var r' := Complete(r, s, channels); OrderedUpTo(r', r'.serial)
  {
    var r1, l := Settle(r, s, channels), Listener(s, r.serial);
    var r2 := r1.(serial := r1.serial + 1);
    assert OrderedUpTo(r2, r.serial + 1);
    SubscribeAllOrdered(r2, channels, l);
    SubscribeAllKeepsSessions(r2, channels, l);
    hide SubscribeAll, KeyOf, InOrder;
  }

  lemma StepOrdered(r: Registry, e: Event)
    requires OrderedUpTo(r, r.serial) && Enabled(r, e)
    ensures OrderedUpTo(Step(r, e), Step(r, e).serial)
  {
    match e
    case OpenE(s, tokenChannel, systemChannel) => OpenOrdered(r, s, tokenChannel, systemChannel);
    case CompleteE(s, channels) => CompleteOrdered(r, s, channels);
    case UnsubscribeE(s, channels) => RemoveOrdered(r, s, channels, r.serial);
    case CloseE(s, keys) =>
      RemoveKeysOrdered(r.(sessions := r.sessions[s := r.sessions[s].(open := false)]), s, keys, r.serial);
    case _ =>
  }

  /** In every run, each channel's listeners stand in the order in which they subscribed. */
  lemma {:induction false} OrderedEver(r: Registry, events: seq<Event>)
    requires OrderedUpTo(r, r.serial) && IsRun(r, events)
    ensures OrderedUpTo(Run(r, events), Run(r, events).serial)
    decreases |events|
  {
    if events != [] {
      StepOrdered(r, events[0]);
      hide Step, Enabled, OrderedUpTo;
      OrderedEver(Step(r, events[0]), events[1..]);
    }
  }
}
