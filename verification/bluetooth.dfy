/**
 * The `useBluetooth` hook as a state record and pure transitions: the
 * exposed connection state, the live-reading string, and the two refs its
 * callbacks share (the line buffer and whether a GATT characteristic is
 * held). Each Web Bluetooth call becomes the event that reports its outcome.
 */
module Bluetooth {
  import opened Base
  import opened Text
  import LineBuffer

  const UnsupportedMessage: string := "Web Bluetooth non supporté. Utilisez Chrome sur Android ou PC."
  const DefaultDeviceName: string := "ESP32"
  const NotConnectedMessage: string := "Non connecté"
  const ConnectionErrorMessage: string := "Erreur de connexion"
  /** Thrown when `gatt.connect()` gives no server; it arrives as `ConnectRejected(ErrorObject(NoGattServerMessage), false)`. */
  const NoGattServerMessage: string := "Impossible de se connecter au serveur GATT"
  const ErrorPrefix: string := "Erreur: "

  /** The state the hook exposes to the page. */
  datatype ConnectionState = ConnectionState(
    isConnected: bool,
    isConnecting: bool,
    deviceName: Option<string>,
    error: Option<string>)

  const Disconnected: ConnectionState := ConnectionState(false, false, None, None)

  /**
   * The whole hook: the exposed state, the live reading, the pending
   * partial line, and whether the characteristic ref is set.
   */
  datatype Session = Session(
    state: ConnectionState,
    liveReading: string,
    buffer: string,
    hasCharacteristic: bool)

  const Initial: Session := Session(Disconnected, "", "", false)

  /** What a failed connection attempt threw: an `Error` with its message, or anything else. */
  datatype Thrown = ErrorObject(message: string) | OtherValue

  /** The text reported for a failed attempt. */
  function FailureMessage(t: Thrown): (m: string)
    ensures t.ErrorObject? ==> m == t.message
    ensures t.OtherValue? ==> m == ConnectionErrorMessage
  {
    match t
    case ErrorObject(m) => m
    case OtherValue => ConnectionErrorMessage
  }

  /** The source tests for `"cancelled"` and for `"User cancelled"`. */
  predicate IsCancellation(message: string) {
    Includes(message, "cancelled") || Includes(message, "User cancelled")
  }

  /** The second test is subsumed by the first: a cancellation is any message mentioning "cancelled". */
  lemma CancellationMeansCancelled(message: string)
    ensures IsCancellation(message) <==> Includes(message, "cancelled")
  {
    if Includes(message, "User cancelled") {
      assert "User cancelled" == "User " + "cancelled";
      IncludesSuffix(message, "User ", "cancelled");
    }
  }

  /** `connect()` begins: without Web Bluetooth only the error is set; otherwise the attempt starts afresh. */
  function StartConnect(s: Session, supported: bool): (r: Session)
    ensures !supported ==>
      && r.state.error == Some(UnsupportedMessage)
      && r.state.isConnecting == s.state.isConnecting && r.state.isConnected == s.state.isConnected
      && r.state.deviceName == s.state.deviceName && r.buffer == s.buffer
    ensures supported ==>
      && r.state.isConnecting && r.state.error == None && r.buffer == ""
      && r.state.isConnected == s.state.isConnected && r.state.deviceName == s.state.deviceName
    ensures r.liveReading == s.liveReading && r.hasCharacteristic == s.hasCharacteristic
  {
    if !supported then s.(state := s.state.(error := Some(UnsupportedMessage)))
    else s.(state := s.state.(isConnecting := true, error := None), buffer := "")
  }

  /** The name shown for a connected device: its own when it has a non-empty one, otherwise `ESP32`. */
  function ShownName(name: Option<string>): (shown: string)
    ensures shown != ""
    ensures name.Some? && name.value != "" ==> shown == name.value
    ensures name.None? || name.value == "" ==> shown == DefaultDeviceName
  {
    match name
    case Some(n) => if n != "" then n else DefaultDeviceName
    case None => DefaultDeviceName
  }

  /** Every GATT step succeeded: the state is replaced wholesale and the characteristic is held. */
  function CompleteConnect(s: Session, name: Option<string>): (r: Session)
    ensures r.state.isConnected && !r.state.isConnecting && r.state.error == None
    ensures r.state.deviceName == Some(ShownName(name))
    ensures r.hasCharacteristic
    ensures r.liveReading == s.liveReading && r.buffer == s.buffer
  {
    Session(ConnectionState(true, false, Some(ShownName(name)), None), s.liveReading, s.buffer, true)
  }

  /**
   * A step of `connect()` threw. Connecting stops; a cancellation shows no
   * error, anything else shows `Erreur: <message>`. The catch block never
   * touches the characteristic ref: `characteristicStored` says it is still
   * set when the catch runs (stored before `startNotifications` threw, and
   * not cleared by the disconnection listener since).
   */
  function FailConnect(s: Session, thrown: Thrown, characteristicStored: bool): (r: Session)
    ensures !r.state.isConnecting
    ensures r.state.error.None? <==> Includes(FailureMessage(thrown), "cancelled")
    ensures r.state.error.Some? ==> r.state.error.value == ErrorPrefix + FailureMessage(thrown)
    ensures r.state.isConnected == s.state.isConnected && r.state.deviceName == s.state.deviceName
    ensures r.hasCharacteristic <==> s.hasCharacteristic || characteristicStored
    ensures r.liveReading == s.liveReading && r.buffer == s.buffer
  {
    var message := FailureMessage(thrown);
    CancellationMeansCancelled(message);
    var error := if IsCancellation(message) then None else Some(ErrorPrefix + message);
    s.(state := s.state.(isConnecting := false, error := error),
       hasCharacteristic := s.hasCharacteristic || characteristicStored)
  }

  /**
   * `disconnect()`'s own assignments: everything exposed is reset and the
   * characteristic dropped. The `gatt.disconnect()` it calls on a connected
   * device fires the `gattserverdisconnected` listener, which is the
   * `DeviceDisconnected` event that follows; only that empties the buffer.
   */
  function Disconnect(s: Session): (r: Session)
    ensures r.state == Disconnected && r.liveReading == "" && !r.hasCharacteristic
    ensures r.buffer == s.buffer
  {
    Session(Disconnected, "", s.buffer, false)
  }

  /** The `gattserverdisconnected` listener: not connected, no name, no characteristic, empty buffer. */
  function DeviceLost(s: Session): (r: Session)
    ensures !r.state.isConnected && r.state.deviceName == None && !r.hasCharacteristic && r.buffer == ""
    ensures r.state.isConnecting == s.state.isConnecting && r.state.error == s.state.error
    ensures r.liveReading == s.liveReading
  {
    s.(state := s.state.(isConnected := false, deviceName := None), hasCharacteristic := false, buffer := "")
  }

  /** A session after an event, and the messages handed to the measurement callback, in order. */
  datatype Delivery = Delivery(session: Session, messages: seq<string>)

  /**
   * `handleNotification`: a notification without a value changes nothing;
   * otherwise the chunk goes through the line buffer, the complete lines'
   * messages are delivered, and the last of them becomes the live reading.
   */
  function Notify(s: Session, value: Option<string>): (d: Delivery)
    ensures value.None? ==> d == Delivery(s, [])
    ensures value.Some? ==>
      && s.buffer + value.value == LineBuffer.Terminated(LineBuffer.Feed(s.buffer, value.value).lines) + d.session.buffer
      && d.messages == LineBuffer.Messages(LineBuffer.Feed(s.buffer, value.value).lines)
      && '\n' !in d.session.buffer
    ensures d.messages == [] ==> d.session.liveReading == s.liveReading
    ensures d.messages != [] ==> d.session.liveReading == d.messages[|d.messages| - 1]
    ensures d.session.state == s.state && d.session.hasCharacteristic == s.hasCharacteristic
  {
    match value
    case None => Delivery(s, [])
    case Some(chunk) => Receive(s, chunk)
  }

  /** A notification that carries a chunk. */
  function Receive(s: Session, chunk: string): (d: Delivery)
    ensures s.buffer + chunk == LineBuffer.Terminated(LineBuffer.Feed(s.buffer, chunk).lines) + d.session.buffer
    ensures d.messages == LineBuffer.Messages(LineBuffer.Feed(s.buffer, chunk).lines)
    ensures '\n' !in d.session.buffer
    ensures d.messages == [] ==> d.session.liveReading == s.liveReading
    ensures d.messages != [] ==> d.session.liveReading == d.messages[|d.messages| - 1]
    ensures d.session.state == s.state && d.session.hasCharacteristic == s.hasCharacteristic
  {
    var fed := LineBuffer.Feed(s.buffer, chunk);
    var messages := LineBuffer.Messages(fed.lines);
    Delivery(Session(s.state, LastOr(messages, s.liveReading), fed.rest, s.hasCharacteristic), messages)
  }

  /** The last message, or `previous` when there is none. */
  function LastOr(messages: seq<string>, previous: string): (r: string)
    ensures messages == [] ==> r == previous
    ensures messages != [] ==> r == messages[|messages| - 1]
  {
    if messages == [] then previous else messages[|messages| - 1]
  }

  /** `simulateData`: the text is shown and delivered as one message, bypassing the line buffer. */
  function Simulate(s: Session, data: string): (d: Delivery)
    ensures d.messages == [data] && d.session.liveReading == data
    ensures d.session.buffer == s.buffer && d.session.state == s.state
    ensures d.session.hasCharacteristic == s.hasCharacteristic
  {
    Delivery(s.(liveReading := data), [data])
  }

  /**
   * `sendCommand`: without a characteristic it throws `Non connecté`;
   * otherwise the result is the payload handed to `writeValue`, the
   * command and a newline. Whether the write itself succeeds is not modelled.
   */
  function SendCommand(s: Session, command: string): (r: Result<string>)
    ensures r.Failure? <==> !s.hasCharacteristic
    ensures r.Failure? ==> r.error == NotConnectedMessage
    ensures r.Success? ==> |r.value| == |command| + 1 && r.value[..|command|] == command && r.value[|command|] == '\n'
  {
    if !s.hasCharacteristic then Failure(NotConnectedMessage) else Success(command + "\n")
  }

  /** A command without a newline reaches the device as exactly one complete line. */
  lemma SendCommandIsOneLine(s: Session, command: string)
    requires s.hasCharacteristic && '\n' !in command
    ensures LineBuffer.Feed("", SendCommand(s, command).value) == LineBuffer.Fed([command], "")
  {
    var payload := SendCommand(s, command).value;
    assert payload == command + "\n";
    LineBuffer.FeedUnique("", payload, [command], "");
  }

  /**
   * The events the hook reacts to: user actions and the outcomes of Web
   * Bluetooth calls. `ConnectResolved` stands for the whole run of
   * `connect()` from storing the characteristic ref to the final
   * `setState`, with no disconnection in between; `ConnectRejected`'s flag
   * is whether the characteristic ref is still set when the catch block
   * runs.
   */
  datatype Event =
    | ConnectRequested(supported: bool)
    | ConnectResolved(deviceName: Option<string>)
    | ConnectRejected(thrown: Thrown, characteristicStored: bool)
    | DisconnectRequested
    | DeviceDisconnected
    | Notification(value: Option<string>)
    | Simulation(data: string)

  /**
   * One event. Only notifications and simulations deliver messages, and a
   * simulation delivers its text alone; only connection outcomes and user
   * actions change the exposed connection state.
   */
  function Step(s: Session, e: Event): (d: Delivery)
    ensures !(e.Notification? || e.Simulation?) ==> d.messages == []
    ensures e.Simulation? ==> d.messages == [e.data]
    ensures e.Notification? || e.Simulation? ==> d.session.state == s.state && d.session.hasCharacteristic == s.hasCharacteristic
  {
    match e
    case ConnectRequested(supported) => Delivery(StartConnect(s, supported), [])
    case ConnectResolved(name) => Delivery(CompleteConnect(s, name), [])
    case ConnectRejected(thrown, stored) => Delivery(FailConnect(s, thrown, stored), [])
    case DisconnectRequested => Delivery(Disconnect(s), [])
    case DeviceDisconnected => Delivery(DeviceLost(s), [])
    case Notification(value) => Notify(s, value)
    case Simulation(data) => Simulate(s, data)
  }

  /** A sequence of events in order, with every delivered message collected. */
  function Run(s: Session, events: seq<Event>): Delivery
    decreases |events|
  {
    if |events| == 0 then Delivery(s, [])
    else
      var first := Step(s, events[0]);
      var later := Run(first.session, events[1..]);
      Delivery(later.session, first.messages + later.messages)
  }

  /** A user disconnect followed by the listener it fires leaves the hook as it was at mount. */
  lemma DisconnectThenLost(s: Session)
    ensures DeviceLost(Disconnect(s)) == Initial
    ensures Run(s, [DisconnectRequested, DeviceDisconnected]) == Delivery(Initial, [])
  {
    assert Run(s, [DisconnectRequested, DeviceDisconnected]) ==
      Delivery(Run(Disconnect(s), [DeviceDisconnected]).session, []);
    assert [DisconnectRequested, DeviceDisconnected][1..] == [DeviceDisconnected];
  }

  /**
   * What holds in every session the hook can reach: the buffer holds no
   * complete line, and a connected session has a name and a characteristic.
   */
  predicate Valid(s: Session) {
    && '\n' !in s.buffer
    && (s.state.isConnected ==> s.hasCharacteristic && s.state.deviceName.Some?)
  }

  lemma StepKeepsValid(s: Session, e: Event)
    requires Valid(s)
    ensures Valid(Step(s, e).session)
  {
  }

  lemma {:induction false} RunKeepsValid(s: Session, events: seq<Event>)
    requires Valid(s)
    ensures Valid(Run(s, events).session)
    decreases |events|
  {
    if |events| > 0 {
      StepKeepsValid(s, events[0]);
      RunKeepsValid(Step(s, events[0]).session, events[1..]);
    }
  }

  /**
   * In any session reached from the start, being connected means commands
   * can be sent. This rests on `ConnectResolved` being one step: no
   * disconnection clears the ref between its storing and the `setState`
   * that marks the session connected.
   */
  lemma ConnectedCanSend(events: seq<Event>, command: string)
    requires Run(Initial, events).session.state.isConnected
    ensures SendCommand(Run(Initial, events).session, command) == Success(command + "\n")
  {
    RunKeepsValid(Initial, events);
  }

  /**
   * The guard is the characteristic ref, not the connected flag: when
   * `startNotifications` throws after the ref was stored, the session is
   * not connected and yet a command passes the guard.
   */
  lemma SendAfterLateFailure(command: string)
    ensures !FailConnect(StartConnect(Initial, true), OtherValue, true).state.isConnected
    ensures SendCommand(FailConnect(StartConnect(Initial, true), OtherValue, true), command).Success?
  {
  }

  /**
   * The disconnection listener can run while `startNotifications` is
   * awaited: it clears the ref, so when the call then throws the ref is no
   * longer set, and commands are refused with `Non connecté`.
   */
  lemma LossDuringLateFailure(thrown: Thrown, command: string)
    ensures SendCommand(Run(Initial, [ConnectRequested(true), DeviceDisconnected, ConnectRejected(thrown, false)]).session, command)
      == Failure(NotConnectedMessage)
  {
    var lost := DeviceLost(StartConnect(Initial, true));
    var last := [ConnectRejected(thrown, false)];
    assert last[1..] == [];
    assert Run(lost, last).session == FailConnect(lost, thrown, false);
    var events := [DeviceDisconnected] + last;
    assert events[1..] == last;
    assert Run(StartConnect(Initial, true), events).session == FailConnect(lost, thrown, false);
    assert [ConnectRequested(true)] + events == [ConnectRequested(true), DeviceDisconnected, ConnectRejected(thrown, false)];
    assert ([ConnectRequested(true)] + events)[1..] == events;
  }

  /** A GATT server that cannot be reached is reported as `Erreur: Impossible de se connecter au serveur GATT`. */
  lemma GattFailureShown(s: Session)
    ensures FailConnect(s, ErrorObject(NoGattServerMessage), false).state.error == Some(ErrorPrefix + NoGattServerMessage)
  {
    NotCancellation(NoGattServerMessage);
  }

  /** In the message, no `c` is followed by an `a`. */
  lemma NoCa(m: string, i: nat)
    requires m == NoGattServerMessage && i + 1 < |m|
    ensures !(m[i] == 'c' && m[i + 1] == 'a')
  {
  }

  /**
   * The proof of `GattFailureShown`, over a name for the message (so that
   * the literal is not evaluated eagerly): an occurrence of `cancelled`
   * would put an `a` right after a `c`.
   */
  lemma NotCancellation(m: string)
    requires m == NoGattServerMessage
    ensures !Includes(m, "cancelled")
  {
    IncludesIff(m, "cancelled");
    forall i: nat | OccursAt(m, "cancelled", i)
      ensures false
    {
      var w := m[i..i + 9];
      assert w[0] == 'c' && w[1] == 'a';
      NoCa(m, i);
    }
  }

  /** The events of a stream of notifications that all carry a value. */
  function Notifications(chunks: seq<string>): (events: seq<Event>)
    ensures |events| == |chunks|
    ensures forall i :: 0 <= i < |chunks| ==> events[i] == Notification(Some(chunks[i]))
  {
    if |chunks| == 0 then [] else [Notification(Some(chunks[0]))] + Notifications(chunks[1..])
  }

  /**
   * Over a stream of notifications, the messages delivered are those of
   * the lines found by feeding the chunks in turn, and the buffer is what
   * is left over; by `ChunkingInvariance`, that is the same as if the whole
   * stream had arrived in one chunk.
   */
  lemma {:induction false} NotificationsDeliverLines(s: Session, chunks: seq<string>)
    ensures Run(s, Notifications(chunks)).messages == LineBuffer.Messages(LineBuffer.FeedAll(s.buffer, chunks).lines)
    ensures Run(s, Notifications(chunks)).session.buffer == LineBuffer.FeedAll(s.buffer, chunks).rest
    decreases |chunks|
  {
    if |chunks| > 0 {
      var events := Notifications(chunks);
      assert events[1..] == Notifications(chunks[1..]);
      var first := Notify(s, Some(chunks[0]));
      var later := Run(first.session, events[1..]);
      assert Run(s, events) == Delivery(later.session, first.messages + later.messages);
      var fed := LineBuffer.Feed(s.buffer, chunks[0]);
      assert first.messages == LineBuffer.Messages(fed.lines) && first.session.buffer == fed.rest;
      var rest := LineBuffer.FeedAll(fed.rest, chunks[1..]);
      assert LineBuffer.FeedAll(s.buffer, chunks) == LineBuffer.Fed(fed.lines + rest.lines, rest.rest);
      NotificationsDeliverLines(first.session, chunks[1..]);
      LineBuffer.MessagesAppend(fed.lines, rest.lines);
    }
  }

  /** Delivered messages do not depend on how the device's stream was cut into notifications. */
  lemma NotificationsIgnoreChunking(s: Session, chunks: seq<string>)
    requires |chunks| > 0
    ensures Run(s, Notifications(chunks)).messages == Notify(s, Some(LineBuffer.Concat(chunks))).messages
    ensures Run(s, Notifications(chunks)).session.buffer == Notify(s, Some(LineBuffer.Concat(chunks))).session.buffer
  {
    NotificationsDeliverLines(s, chunks);
    LineBuffer.ChunkingInvariance(s.buffer, chunks);
  }
}
