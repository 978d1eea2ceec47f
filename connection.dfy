/**
 * The collector's websocket connection (`connectWebSocket`, `closeWebSocket`):
 * a heartbeat that counts missed pongs and declares the connection dead at two,
 * a single `processingBatch` gate that drops messages while a batch is being
 * written, and a reconnect scheduled on every close.
 *
 * The socket library, its timers and the event loop are the environment: each
 * callback the library would run is an `Event`, and each request the handlers
 * make of the library (ping, terminate, close, a timer) is an `Action`. The
 * asynchronous message handler is split at its two `await`s: `Message` runs
 * it up to the batch write, `BatchFinished` resumes it when the write settles,
 * and `PacingElapsed` when the pacing sleep is over.
 */
module Connection {

  /** `TRANSACTION_DELAY_MS`: the pause after a successful batch, gate still held. */
  const TRANSACTION_DELAY_MS: nat := 100
  /** `HEARTBEAT_INTERVAL`: the period of the connection check. */
  const HEARTBEAT_INTERVAL_MS: nat := 25000
  /** The delay before reconnecting a connection the heartbeat declared dead. */
  const DEAD_RECONNECT_MS: nat := 1000
  /** `config.WS_RECONNECT_TIMEOUT_MS`: the delay before reconnecting after a close. */
  const WS_RECONNECT_TIMEOUT_MS: nat := 5000
  /** The number of missed heartbeats at which the connection is dead. */
  const MAX_MISSED_HEARTBEATS: nat := 2

  /** The module variable `ws` and, when it holds a socket, that socket's `readyState`. */
  datatype Socket = NoSocket | Connecting | Open | Closing | Closed

  /**
   * `processingBatch` together with where the message handler is: `Idle`
   * (flag false), `Processing` (flag true, batch write in flight) or `Pacing`
   * (flag true, sleeping after a successful batch).
   */
  datatype Gate = Idle | Processing | Pacing

  datatype State = State(socket: Socket, gate: Gate, missed: nat, heartbeatRunning: bool)
  {
    /** The value of `processingBatch`. */
    predicate ProcessingBatch() {
      gate != Idle
    }
  }

  /** What the library, the timers or the caller do to the connection. */
  datatype Event =
    | Connect                        // `connectWebSocket()`: at start-up or from a reconnect timer
    | Opened                         // the socket's 'open' event
    | Pong                           // the socket's 'pong' event
    | Message(wellFormed: bool)      // a 'message' event; `wellFormed` is false when JSON.parse throws
    | BatchFinished(succeeded: bool) // the awaited batch write resolved or rejected
    | PacingElapsed                  // the awaited pacing sleep is over
    | Tick                           // the heartbeat interval fired
    | SocketClosed                   // the socket's 'close' event
    | SocketError                    // the socket's 'error' event
    | Shutdown                       // `closeWebSocket()`

  /** What the handlers ask of the library and the timers. */
  datatype Action =
    | StartHeartbeat(periodMs: nat)
    | StopHeartbeat
    | Ping
    | Terminate
    | CloseSocket
    | ScheduleReconnect(delayMs: nat)
    | ProcessBatch
    | DropMessage
    | Sleep(ms: nat)

  /** The state when the collector starts: no socket, gate open, no heartbeat. */
  const Initial: State := State(NoSocket, Idle, 0, false)

  /** The connection invariant: a running heartbeat has missed fewer than two beats and belongs to an open socket (or to none, after `closeWebSocket`). */
  ghost predicate Valid(s: State) {
    s.heartbeatRunning ==> s.missed < MAX_MISSED_HEARTBEATS && (s.socket == Open || s.socket == NoSocket)
  }

  /** Asks the socket to close, when there is one still open or opening. */
  function AskClose(socket: Socket): Socket {
    if socket == Connecting || socket == Open then Closing else socket
  }

  /**
   * The handler that runs for one event: the new state and the actions it
   * requests. Every handler keeps the connection invariant.
   */
  function Step(s: State, e: Event): (r: (State, seq<Action>))
    ensures Valid(s) ==> Valid(r.0)
  {
    match e
    case Connect =>
      // A new socket and a new closure: its counter starts at 0 and it has no interval yet.
      (State(Connecting, s.gate, 0, false), [])
    case Opened =>
      (s.(socket := Open, missed := 0, heartbeatRunning := true), [StartHeartbeat(HEARTBEAT_INTERVAL_MS)])
    case Pong =>
      (s.(missed := 0), [])
    case Message(wellFormed) =>
      if s.gate != Idle then (s.(missed := 0), [DropMessage])
      else if !wellFormed then (s.(missed := 0), [])
      else (s.(missed := 0, gate := Processing), [ProcessBatch])
    case BatchFinished(succeeded) =>
      if s.gate != Processing then (s, [])
      else if succeeded then (s.(gate := Pacing), [Sleep(TRANSACTION_DELAY_MS)])
      else (s.(gate := Idle), [])
    case PacingElapsed =>
      if s.gate != Pacing then (s, []) else (s.(gate := Idle), [])
    case Tick =>
      if !s.heartbeatRunning then (s, [])
      else if s.missed + 1 >= MAX_MISSED_HEARTBEATS then
        (s.(missed := s.missed + 1, heartbeatRunning := false, socket := AskClose(s.socket)),
         [StopHeartbeat] + (if s.socket == NoSocket then [] else [Terminate]) + [ScheduleReconnect(DEAD_RECONNECT_MS)])
      else
        (s.(missed := s.missed + 1), if s.socket == Open then [Ping] else [])
    case SocketClosed =>
      (s.(socket := if s.socket == NoSocket then NoSocket else Closed, heartbeatRunning := false),
       (if s.heartbeatRunning then [StopHeartbeat] else []) + [ScheduleReconnect(WS_RECONNECT_TIMEOUT_MS)])
    case SocketError =>
      (s.(socket := AskClose(s.socket), heartbeatRunning := false),
       (if s.heartbeatRunning then [StopHeartbeat] else []) + (if s.socket == NoSocket then [] else [CloseSocket]))
    case Shutdown =>
      if s.socket == NoSocket then (s, []) else (s.(socket := NoSocket), [CloseSocket])
  }

  /** The events one after the other: the final state and every action requested, in order. */
  function Run(s: State, events: seq<Event>): (State, seq<Action>)
    decreases |events|
  {
    if events == [] then (s, [])
    else
      var (s1, a1) := Step(s, events[0]);
      var (s2, a2) := Run(s1, events[1..]);
      (s2, a1 + a2)
  }

  /** Any sequence of events keeps the connection invariant. */
  lemma {:induction false} RunValid(s: State, events: seq<Event>)
    requires Valid(s)
    ensures Valid(Run(s, events).0)
    decreases |events|
  {
    if events != [] {
      RunValid(Step(s, events[0]).0, events[1..]);
    }
  }

  /** `heartbeat()` runs on open, on pong and on every message, and sets the counter to 0. */
  lemma {:induction false} HeartbeatResets(s: State, e: Event)
    requires e == Opened || e == Pong || e.Message?
    ensures Step(s, e).0.missed == 0
  {
  }

  /** A tick of a running heartbeat counts one more missed beat. */
  lemma {:induction false} TickCounts(s: State)
    requires s.heartbeatRunning
    ensures Step(s, Tick).0.missed == s.missed + 1
  {
  }

  /**
   * On the tick that reaches two missed beats the heartbeat stops, the socket
   * is terminated, a reconnect is scheduled after 1000 ms and no ping is sent.
   */
  lemma {:induction false} DeadAtTwoMissed(s: State)
    requires Valid(s) && s.heartbeatRunning && s.missed == MAX_MISSED_HEARTBEATS - 1
    ensures var (t, actions) := Step(s, Tick);
      !t.heartbeatRunning && t.missed == MAX_MISSED_HEARTBEATS &&
      StopHeartbeat in actions && ScheduleReconnect(DEAD_RECONNECT_MS) in actions && Ping !in actions &&
      (s.socket == Open <==> Terminate in actions)
  {
  }

  /** A tick sends a ping exactly when the heartbeat runs, fewer than two beats are missed and the socket is open. */
  lemma {:induction false} PingOnlyWhenAlive(s: State)
    ensures Ping in Step(s, Tick).1 <==>
      s.heartbeatRunning && s.missed + 1 < MAX_MISSED_HEARTBEATS && s.socket == Open
  {
  }

  /** A message that arrives while a batch is in hand is dropped: not parsed, not processed, gate unchanged. */
  lemma {:induction false} BusyDropsMessage(s: State, wellFormed: bool)
    requires s.ProcessingBatch()
    ensures Step(s, Message(wellFormed)) == (s.(missed := 0), [DropMessage])
  {
  }

  /** A batch is started only through an open gate, and starting it closes the gate. */
  lemma {:induction false} BatchOnlyThroughOpenGate(s: State, e: Event)
    requires ProcessBatch in Step(s, e).1
    ensures e == Message(true) && !s.ProcessingBatch() && Step(s, e).0.gate == Processing
  {
  }

  /**
   * The gate is released on every exit of the message handler: a malformed
   * message leaves it open, a failed batch opens it at once, and a successful
   * one after its pacing sleep.
   */
  lemma {:induction false} GateReleasedOnEveryExit(s: State)
    requires !s.ProcessingBatch()
    ensures !Step(s, Message(false)).0.ProcessingBatch()
    ensures !Run(s, [Message(true), BatchFinished(false)]).0.ProcessingBatch()
    ensures !Run(s, [Message(true), BatchFinished(true), PacingElapsed]).0.ProcessingBatch()
  {
    assert [Message(true), BatchFinished(false)][1..] == [BatchFinished(false)];
    assert [Message(true), BatchFinished(true), PacingElapsed][1..] == [BatchFinished(true), PacingElapsed];
    assert [BatchFinished(true), PacingElapsed][1..] == [PacingElapsed];
  }

  /** The pacing sleep follows only a successful batch, and the gate is still held while it lasts. */
  lemma {:induction false} PacingOnlyAfterSuccess(s: State, e: Event, ms: nat)
    requires Sleep(ms) in Step(s, e).1
    ensures e == BatchFinished(true) && s.gate == Processing
    ensures ms == TRANSACTION_DELAY_MS && Step(s, e).0.ProcessingBatch()
  {
  }

  /** Every close stops the heartbeat and schedules a reconnect after `WS_RECONNECT_TIMEOUT_MS`. */
  lemma {:induction false} CloseSchedulesReconnect(s: State)
    ensures var (t, actions) := Step(s, SocketClosed);
      !t.heartbeatRunning && ScheduleReconnect(WS_RECONNECT_TIMEOUT_MS) in actions &&
      (s.heartbeatRunning <==> StopHeartbeat in actions)
  {
  }

  /** An error stops the heartbeat and closes the socket; the reconnect comes with the close that follows. */
  lemma {:induction false} ErrorCloses(s: State)
    requires s.socket != NoSocket
    ensures var (t, actions) := Step(s, SocketError);
      !t.heartbeatRunning && CloseSocket in actions && forall d :: ScheduleReconnect(d) !in actions
  {
  }

  /**
   * When the socket reports the termination of a dead connection with its
   * 'close' event, two reconnects are pending: the heartbeat's own after
   * 1000 ms and the close handler's after 5000 ms.
   */
  lemma {:induction false} DeadConnectionReconnectsTwice(s: State)
    requires Valid(s) && s.heartbeatRunning && s.missed == MAX_MISSED_HEARTBEATS - 1 && s.socket == Open
    ensures var actions := Run(s, [Tick, SocketClosed]).1;
      actions == [StopHeartbeat, Terminate, ScheduleReconnect(DEAD_RECONNECT_MS), ScheduleReconnect(WS_RECONNECT_TIMEOUT_MS)]
  {
    assert [Tick, SocketClosed][1..] == [SocketClosed];
  }

  /** `closeWebSocket` forgets the socket, but the 'close' event it causes still schedules a reconnect. */
  lemma {:induction false} ShutdownStillReconnects(s: State)
    requires s.socket == Open
    ensures var (t, actions) := Run(s, [Shutdown, SocketClosed]);
      t.socket == NoSocket && CloseSocket in actions && ScheduleReconnect(WS_RECONNECT_TIMEOUT_MS) in actions
  {
    assert [Shutdown, SocketClosed][1..] == [SocketClosed];
  }

  /**
   * The module state of the websocket service: the socket, the
   * `processingBatch` gate and the heartbeat closure's counter and interval.
   * Each handler updates the fields in place and returns the actions it
   * requests; each is proved to do what `Step` says.
   */
  class WebSocketClient {
    var socket: Socket
    var gate: Gate
    var missedHeartbeats: nat
    var heartbeatRunning: bool

    function Current(): State
      reads this
    {
      State(socket, gate, missedHeartbeats, heartbeatRunning)
    }

    constructor ()
      ensures Current() == Initial
    {
      socket := NoSocket;
      gate := Idle;
      missedHeartbeats := 0;
      heartbeatRunning := false;
    }

    /** `heartbeat()`. */
    method Heartbeat()
      modifies this
      ensures Current() == old(Current()).(missed := 0)
    {
      missedHeartbeats := 0;
    }

    /** `connectWebSocket()`: a new socket and a new heartbeat closure; the gate is module state and is kept. */
    method ConnectWebSocket() returns (actions: seq<Action>)
      modifies this
      ensures (Current(), actions) == Step(old(Current()), Connect)
    {
      socket := Connecting;
      missedHeartbeats := 0;
      heartbeatRunning := false;
      actions := [];
    }

    /** The 'open' handler. */
    method OnOpen() returns (actions: seq<Action>)
      modifies this
      ensures (Current(), actions) == Step(old(Current()), Opened)
    {
      socket := Open;
      Heartbeat();
      heartbeatRunning := true;
      actions := [StartHeartbeat(HEARTBEAT_INTERVAL_MS)];
    }

    /** The 'pong' handler. */
    method OnPong() returns (actions: seq<Action>)
      modifies this
      ensures (Current(), actions) == Step(old(Current()), Pong)
    {
      Heartbeat();
      actions := [];
    }

    /** The 'message' handler up to its first `await`. */
    method OnMessage(wellFormed: bool) returns (actions: seq<Action>)
      modifies this
      ensures (Current(), actions) == Step(old(Current()), Message(wellFormed))
    {
      Heartbeat();
      if gate != Idle {
        actions := [DropMessage];
        return;
      }
      gate := Processing;
      if !wellFormed {
        // JSON.parse threw: the `finally` block releases the gate at once.
        gate := Idle;
        actions := [];
        return;
      }
      actions := [ProcessBatch];
    }

    /** The message handler resumed when the batch write settles. */
    method OnBatchFinished(succeeded: bool) returns (actions: seq<Action>)
      modifies this
      ensures (Current(), actions) == Step(old(Current()), BatchFinished(succeeded))
    {
      actions := [];
      if gate == Processing {
        if succeeded {
          gate := Pacing;
          actions := [Sleep(TRANSACTION_DELAY_MS)];
        } else {
          gate := Idle;
        }
      }
    }

    /** The message handler resumed after the pacing sleep: the `finally` block. */
    method OnPacingElapsed() returns (actions: seq<Action>)
      modifies this
      ensures (Current(), actions) == Step(old(Current()), PacingElapsed)
    {
      if gate == Pacing {
        gate := Idle;
      }
      actions := [];
    }

    /** `checkConnection()`, run by the heartbeat interval. */
    method CheckConnection() returns (actions: seq<Action>)
      modifies this
      ensures (Current(), actions) == Step(old(Current()), Tick)
    {
      actions := [];
      if !heartbeatRunning {
        return;
      }
      missedHeartbeats := missedHeartbeats + 1;
      if missedHeartbeats >= MAX_MISSED_HEARTBEATS {
        heartbeatRunning := false;
        var terminate := if socket == NoSocket then [] else [Terminate];
        socket := AskClose(socket);
        actions := [StopHeartbeat] + terminate + [ScheduleReconnect(DEAD_RECONNECT_MS)];
        return;
      }
      if socket == Open {
        actions := [Ping];
      }
    }

    /** The 'close' handler. */
    method OnClose() returns (actions: seq<Action>)
      modifies this
      ensures (Current(), actions) == Step(old(Current()), SocketClosed)
    {
      actions := [];
      if heartbeatRunning {
        heartbeatRunning := false;
        actions := [StopHeartbeat];
      }
      if socket != NoSocket {
        socket := Closed;
      }
      actions := actions + [ScheduleReconnect(WS_RECONNECT_TIMEOUT_MS)];
    }

    /** The 'error' handler. */
    method OnError() returns (actions: seq<Action>)
      modifies this
      ensures (Current(), actions) == Step(old(Current()), SocketError)
    {
      var stop := if heartbeatRunning then [StopHeartbeat] else [];
      var close := if socket == NoSocket then [] else [CloseSocket];
      heartbeatRunning := false;
      socket := AskClose(socket);
      actions := stop + close;
    }

    /** `closeWebSocket()`. */
    method CloseWebSocket() returns (actions: seq<Action>)
      modifies this
      ensures (Current(), actions) == Step(old(Current()), Shutdown)
    {
      actions := [];
      if socket != NoSocket {
        socket := NoSocket;
        actions := [CloseSocket];
      }
    }
  }
}
