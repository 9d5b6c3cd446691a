/**
 * The MQTT client (`tim::mqtt_client`): a handle to at most one broker
 * connection, a connected flag, and an ordered registry of (filter, handler)
 * pairs. The periodic timer, the network events and the public calls are pure
 * steps from one client state to the next, each with the list of effects it
 * causes: packets sent, lifecycle signals fired, handlers invoked.
 */
module MqttClient {
  import opened Wrappers
  import Text
  import TopicMatch

  /** TIM_MQTT_QOS: the quality of service of the will message. */
  const WillQos: nat := 1
  const WillTopic: string := "client/status"
  const WillMessage: string := "disconnected"
  const ProtocolVersion: nat := 5

  /** The options of `mg_mqtt_connect` as the timer sets them. */
  datatype ConnectOptions = ConnectOptions(
    clientId: string, willTopic: string, willMessage: string,
    qos: nat, version: nat, keepalive: nat, clean: bool)

  /** A registry entry: the stored (normalised) filter and an opaque handler. */
  datatype Subscriber = Subscriber(filter: string, handler: nat)

  /**
   * The client: broker URL, the connection handle (`None` for a null handle),
   * the connected flag and the subscriber registry in registration order.
   */
  datatype Client = Client(url: string, handle: Option<nat>, connected: bool, subscribers: seq<Subscriber>)

  /** The state mongoose keeps per connection that the client reads or sets. */
  datatype Connection = Connection(id: nat, tls: bool, draining: bool)

  datatype Effect =
    | SendPing(conn: nat)
    | OpenConnection(url: string, options: ConnectOptions)
    | Halt
    | InitTls(ca: string, cert: string, key: string)
    | SendPong(conn: nat)
    | FireConnected
    | FireDisconnected
    | Deliver(handler: nat, topic: string, payload: string)
    | SendSubscribe(target: Option<nat>, filter: string, qos: nat)
    | SendPublish(target: Option<nat>, topic: string, payload: string, qos: nat, retain: bool)

  datatype Command = PingRequest | OtherCommand(code: nat)

  datatype Event =
    | Open
    | TcpConnect
    | MqttOpen
    | MqttCommand(cmd: Command)
    | MqttMessage(topic: string, payload: string)
    | Close
    | Error(message: string)

  datatype Step = Step(client: Client, effects: seq<Effect>)

  /** The client after construction: no connection, not connected, nothing registered. */
  function NewClient(url: string, pingInterval: nat): (c: Client)
    requires |url| > 0 && pingInterval > 0
    ensures c.url == url && c.handle.None? && !c.connected && c.subscribers == []
  {
    Client(url, None, false, [])
  }

  /** `is_connected()`. */
  function IsConnected(c: Client): (b: bool)
    ensures b <==> c.connected
  {
    c.connected
  }

  // ---------------------------------------------------------------------------
  // The ping timer

  function Options(appName: string): (o: ConnectOptions)
    ensures o.willTopic == WillTopic && o.willMessage == WillMessage
    ensures o.version == ProtocolVersion && o.keepalive == 0 && o.clean && o.qos == WillQos
    ensures o.clientId == appName
  {
    ConnectOptions(appName, WillTopic, WillMessage, WillQos, ProtocolVersion, 0, true)
  }

  /**
   * One tick of the ping timer. With a handle it only pings. Without one it
   * opens a connection with the fixed options; `connectResult` is what
   * `mg_mqtt_connect` returns, and a null result halts the process.
   */
  function Tick(c: Client, appName: string, connectResult: Option<nat>): (r: Step)
    ensures c.handle.Some? ==> r == Step(c, [SendPing(c.handle.value)])
    ensures c.handle.None? ==> 1 <= |r.effects| && r.effects[0] == OpenConnection(c.url, Options(appName))
    ensures c.handle.None? && connectResult.None? ==> r.effects == [OpenConnection(c.url, Options(appName)), Halt]
    ensures c.handle.None? && connectResult.Some? ==> r == Step(c.(handle := connectResult), [OpenConnection(c.url, Options(appName))])
    ensures r.client.connected == c.connected && r.client.subscribers == c.subscribers
  {
    if c.handle.Some? then Step(c, [SendPing(c.handle.value)])
    else
      var request := OpenConnection(c.url, Options(appName));
      if connectResult.None? then Step(c, [request, Halt])
      else Step(c.(handle := connectResult), [request])
  }

  // ---------------------------------------------------------------------------
  // Subscribing, publishing, dispatching

  /** The filter as stored: every '+' rewritten to mongoose's '*', nothing else changed. */
  function Normalise(f: string): (r: string)
    ensures |r| == |f|
    ensures forall i :: 0 <= i < |f| ==> r[i] == (if f[i] == '+' then '*' else f[i])
    ensures '+' !in r
  {
    seq(|f|, i requires 0 <= i < |f| => if f[i] == '+' then '*' else f[i])
  }

  /** Normalising twice is normalising once, and a filter without '+' is stored as given. */
  lemma NormaliseIdempotent(f: string)
    ensures Normalise(Normalise(f)) == Normalise(f)
    ensures '+' !in f ==> Normalise(f) == f
  {
  }

  /**
   * `subscribe(filter, handler, qos)`: appends exactly one registry entry with the
   * normalised filter and sends the original filter to the current handle.
   */
  function Subscribe(c: Client, filter: string, handler: nat, qos: nat): (r: Step)
    requires |filter| > 0
    ensures r.client.subscribers == c.subscribers + [Subscriber(Normalise(filter), handler)]
    ensures r.client.url == c.url && r.client.handle == c.handle && r.client.connected == c.connected
    ensures r.effects == [SendSubscribe(c.handle, filter, qos)]
  {
    Step(c.(subscribers := c.subscribers + [Subscriber(Normalise(filter), handler)]),
         [SendSubscribe(c.handle, filter, qos)])
  }

  /** `publish(topic, data, qos, retain)`: one publish on the current handle; the client is unchanged. */
  function Publish(c: Client, topic: string, payload: string, qos: nat, retain: bool): (r: Step)
    requires |topic| > 0
    ensures r.client == c
    ensures r.effects == [SendPublish(c.handle, topic, payload, qos, retain)]
  {
    Step(c, [SendPublish(c.handle, topic, payload, qos, retain)])
  }

  /** The handler calls for one inbound message: each matching entry in registry order. */
  function Dispatch(subs: seq<Subscriber>, topic: string, payload: string): (r: seq<Effect>)
    ensures |r| <= |subs|
    ensures forall k :: 0 <= k < |r| ==> r[k].Deliver? && r[k].topic == topic && r[k].payload == payload
    ensures forall h :: Deliver(h, topic, payload) in r <==>
              exists s :: s in subs && s.handler == h && TopicMatch.Match(topic, s.filter)
    decreases |subs|
  {
    if |subs| == 0 then []
    else
      var first := if TopicMatch.Match(topic, subs[0].filter) then [Deliver(subs[0].handler, topic, payload)] else [];
      var rest := Dispatch(subs[1..], topic, payload);
      first + rest
  }

  /** Registry order is delivery order: the entries registered earlier are served first. */
  lemma {:induction false} DispatchAppend(a: seq<Subscriber>, b: seq<Subscriber>, topic: string, payload: string)
    ensures Dispatch(a + b, topic, payload) == Dispatch(a, topic, payload) + Dispatch(b, topic, payload)
    decreases |a|
  {
    if |a| > 0 {
      assert (a + b)[0] == a[0];
      assert (a + b)[1..] == a[1..] + b;
      DispatchAppend(a[1..], b, topic, payload);
    } else {
      assert a + b == b;
    }
  }

  /** One entry yields one call exactly when its filter matches. */
  lemma DispatchOne(s: Subscriber, topic: string, payload: string)
    ensures Dispatch([s], topic, payload) ==
            if TopicMatch.Match(topic, s.filter) then [Deliver(s.handler, topic, payload)] else []
  {
    assert [s][1..] == [];
  }

  // ---------------------------------------------------------------------------
  // Network events

  datatype Handled = Handled(client: Client, conn: Connection, effects: seq<Effect>)

  /**
   * The event handler, for an event on connection `conn`; `tlsBase` is the
   * directory of the TLS material.
   */
  function HandleEvent(c: Client, conn: Connection, ev: Event, tlsBase: string): (r: Handled)
    ensures r.client.url == c.url && r.client.subscribers == c.subscribers
    ensures r.client.connected <==> ev.MqttOpen? || (c.connected && !ev.Close? && !ev.Error?)
    ensures r.client.handle == (if ev.Close? then None else c.handle)
    ensures r.conn == conn.(draining := conn.draining || ev.Error?)
    ensures FireConnected in r.effects <==> ev.MqttOpen?
    ensures FireDisconnected in r.effects <==> ev.Close? || ev.Error?
    ensures ev.Open? ==> r.effects == [] && r.client == c && r.conn == conn
    ensures ev.MqttOpen? ==> r.effects == [FireConnected]
    ensures ev.Close? || ev.Error? ==> r.effects == [FireDisconnected]
    ensures ev.MqttCommand? ==> r.effects == (if ev.cmd.PingRequest? then [SendPong(conn.id)] else [])
    ensures ev.MqttMessage? && conn.draining ==> r.effects == []
    ensures ev.MqttMessage? && !conn.draining ==> r.effects == Dispatch(c.subscribers, ev.topic, ev.payload)
    ensures ev.TcpConnect? && conn.tls ==> |r.effects| == 1 && r.effects[0].InitTls?
    ensures ev.TcpConnect? && !conn.tls ==> r.effects == []
  {
    match ev
    case Open => Handled(c, conn, [])
    case TcpConnect =>
      if conn.tls then
        Handled(c, conn, [InitTls(Text.Join(tlsBase, "ca-cert.pem"), Text.Join(tlsBase, "cert.pem"), Text.Join(tlsBase, "key.pem"))])
      else Handled(c, conn, [])
    case MqttOpen => Handled(c.(connected := true), conn, [FireConnected])
    case MqttCommand(cmd) =>
      Handled(c, conn, if cmd.PingRequest? then [SendPong(conn.id)] else [])
    case MqttMessage(topic, payload) =>
      Handled(c, conn, if conn.draining then [] else Dispatch(c.subscribers, topic, payload))
    case Close => Handled(c.(handle := None, connected := false), conn, [FireDisconnected])
    case Error(_) => Handled(c.(connected := false), conn.(draining := true), [FireDisconnected])
  }

  /** A sequence of events on one connection, with all their effects in order. */
  function HandleAll(c: Client, conn: Connection, evs: seq<Event>, tlsBase: string): (r: Handled)
    ensures r.client.subscribers == c.subscribers
    decreases |evs|
  {
    if |evs| == 0 then Handled(c, conn, [])
    else
      var h := HandleEvent(c, conn, evs[0], tlsBase);
      var rest := HandleAll(h.client, h.conn, evs[1..], tlsBase);
      Handled(rest.client, rest.conn, h.effects + rest.effects)
  }

  /**
   * A network error followed by the close of the same connection fires
   * `disconnected` twice, and the connection is dropped only at the close.
   */
  lemma ErrorThenCloseDisconnectsTwice(c: Client, conn: Connection, msg: string, tlsBase: string)
    ensures HandleAll(c, conn, [Error(msg), Close], tlsBase).effects == [FireDisconnected, FireDisconnected]
    ensures HandleEvent(c, conn, Error(msg), tlsBase).client.handle == c.handle
    ensures HandleAll(c, conn, [Error(msg), Close], tlsBase).client.handle.None?
  {
    assert [Error(msg), Close][1..] == [Close];
    assert [Close][1..] == [];
  }

  /**
   * After a network error the timer keeps pinging the draining connection and
   * does not reconnect; only after the close does it open a new connection.
   */
  lemma ReconnectOnlyAfterClose(c: Client, conn: Connection, msg: string, tlsBase: string, appName: string, connectResult: Option<nat>)
    requires c.handle == Some(conn.id)
    ensures var e := HandleEvent(c, conn, Error(msg), tlsBase).client;
            Tick(e, appName, connectResult).effects == [SendPing(conn.id)] && !e.connected
    ensures var d := HandleEvent(c, conn, Close, tlsBase).client;
            Tick(d, appName, connectResult).effects[0] == OpenConnection(c.url, Options(appName))
  {
  }

  /**
   * Registering the same filter and handler twice, as a service that subscribes
   * on every `connected` signal does, makes every matching message reach that
   * handler twice.
   */
  lemma DuplicateSubscriptionDeliversTwice(c: Client, filter: string, handler: nat, qos: nat, topic: string, payload: string)
    requires |filter| > 0
    requires TopicMatch.Match(topic, Normalise(filter))
    ensures var twice := Subscribe(Subscribe(c, filter, handler, qos).client, filter, handler, qos).client;
            Dispatch(twice.subscribers, topic, payload) ==
            Dispatch(c.subscribers, topic, payload) + [Deliver(handler, topic, payload), Deliver(handler, topic, payload)]
  {
    var s := Subscriber(Normalise(filter), handler);
    assert (c.subscribers + [s]) + [s] == c.subscribers + ([s] + [s]);
    DispatchAppend(c.subscribers, [s] + [s], topic, payload);
    DispatchAppend([s], [s], topic, payload);
    DispatchOne(s, topic, payload);
  }
}
