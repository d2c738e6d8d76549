/**
 * The connection layer of Connection.kt: `Connection` owns a datagram
 * socket and a slot tracker and sends whole frames; `ReusableConnection`
 * holds at most one connection and can be connected and closed again.
 */
module Connections {
  import opened Wrappers
  import opened Events
  import opened Generators
  import opened Multitouch

  /**
   * Why `Connection.connect` fails: the port is not an integer
   * (`NumberFormatException`), the host cannot be resolved
   * (`UnknownHostException`), or the security policy forbids it
   * (`SecurityException`).
   */
  datatype ConnectError = InvalidPort | UnknownHost | Forbidden

  /** `Connection`: a socket and the tracker of the touch surface it serves. */
  class Connection {
    const socket: DatagramSocket
    const mtGen: MultitouchEventGenerator

    constructor ()
      ensures fresh(socket) && fresh(mtGen)
      ensures !socket.connected && !socket.closed && socket.log == []
      ensures mtGen.slots == []
    {
      socket := new DatagramSocket();
      mtGen := new MultitouchEventGenerator();
    }

    /**
     * `connect`: parse the port, resolve the host, then bind the socket.
     * Parsing and resolution are library and network calls outside the
     * model, so any of them may fail; the socket is bound only when none
     * did.
     */
    method Connect(host: string, portString: string) returns (r: Outcome<ConnectError>)
      modifies socket
      ensures r.Pass? ==> socket.connected
      ensures r.Fail? ==> socket.connected == old(socket.connected)
      ensures socket.closed == old(socket.closed) && socket.log == old(socket.log)
    {
      var portParsed: bool :| true;
      var hostResolved: bool :| true;
      var permitted: bool :| true;
      if !portParsed {
        r := Fail(InvalidPort);
      } else if !hostResolved {
        r := Fail(UnknownHost);
      } else if !permitted {
        r := Fail(Forbidden);
      } else {
        socket.Connect();
        r := Pass;
      }
    }

    /** `close`: close the socket. */
    method Close()
      modifies socket
      ensures socket.closed && socket.connected == old(socket.connected) && socket.log == old(socket.log)
    {
      socket.Close();
    }

    /** `sendGyroscopeEvent`: one gyroscope frame. */
    method SendGyroscopeEvent(x: i32, y: i32, z: i32) returns (ok: bool)
      modifies socket
      ensures socket.connected == old(socket.connected) && socket.closed == old(socket.closed)
      ensures SentFrame(ok, old(socket.log), socket.log, GyroscopeEvents(x, y, z))
    {
      ok := SendAllWithSyn(socket, GyroscopeEvents(x, y, z));
    }

    /** `sendButtonEvent`: one button frame. */
    method SendButtonEvent(down: bool, index: i32) returns (ok: bool)
      modifies socket
      ensures socket.connected == old(socket.connected) && socket.closed == old(socket.closed)
      ensures SentFrame(ok, old(socket.log), socket.log, ButtonEvents(down, index))
    {
      ok := SendAllWithSyn(socket, ButtonEvents(down, index));
    }

    /**
     * `sendMultitouchEvent`: one touch frame. The tracker's table changes
     * whether or not the frame could be sent.
     */
    method SendMultitouchEvent(sample: TouchSample) returns (ok: bool)
      requires |mtGen.slots| < MaxSlots
      modifies socket, mtGen
      ensures mtGen.slots == TouchFrame(old(mtGen.slots), sample).0
      ensures socket.connected == old(socket.connected) && socket.closed == old(socket.closed)
      ensures SentFrame(ok, old(socket.log), socket.log, TouchFrame(old(mtGen.slots), sample).1)
    {
      var events := mtGen.MultitouchEvents(sample);
      ok := SendAllWithSyn(socket, events);
    }

    /** `sendScrollEvent`: one scroll frame. */
    method SendScrollEvent(dx: i32, dy: i32) returns (ok: bool)
      modifies socket
      ensures socket.connected == old(socket.connected) && socket.closed == old(socket.closed)
      ensures SentFrame(ok, old(socket.log), socket.log, ScrollEvents(dx, dy))
    {
      ok := SendAllWithSyn(socket, ScrollEvents(dx, dy));
    }
  }

  /** `ReusableConnection`: no connection, or one connection. */
  class ReusableConnection {
    var connection: Connection?

    /**
     * Never partially open: a held connection's socket is connected and not
     * closed. `connect` stores a connection only after it connected, and
     * `close` drops the connection before closing it.
     */
    ghost predicate Valid()
      reads this, if connection != null then {connection.socket} else {}
    {
      connection != null ==> connection.socket.connected && !connection.socket.closed
    }

    constructor ()
      ensures connection == null
      ensures Valid()
    {
      connection := null;
    }

    /**
     * `connect`: a new connection replaces the current one only once it has
     * connected; on failure the current one stays. The connection it
     * replaces is not closed.
     */
    method Connect(host: string, portString: string) returns (r: Outcome<ConnectError>)
      modifies this
      ensures r.Pass? ==> connection != null && fresh(connection) && fresh(connection.socket) && fresh(connection.mtGen)
      ensures r.Pass? ==> connection.socket.connected && !connection.socket.closed && connection.socket.log == []
      ensures r.Pass? ==> connection.mtGen.slots == []
      ensures r.Fail? ==> connection == old(connection)
      ensures old(connection) != null ==> old(connection).socket.closed == old(connection.socket.closed)
      ensures r.Pass? ==> Valid()
      ensures old(Valid()) ==> Valid()
    {
      var newConnection := new Connection();
      r := newConnection.Connect(host, portString);
      if r.Pass? {
        connection := newConnection;
      }
    }

    /** `close`: forget the connection, then close it; a no-op without one. */
    method Close()
      modifies this, if connection != null then {connection.socket} else {}
      ensures connection == null && Valid()
      ensures old(connection) != null ==> old(connection).socket.closed
    {
      var oldConnection := connection;
      connection := null;
      if oldConnection != null {
        oldConnection.Close();
      }
    }

    /**
     * `isConnected`: whether a connection is held; while the invariant
     * holds, exactly when the held socket is connected and open.
     */
    function IsConnected(): (b: bool)
      reads this, if connection != null then {connection.socket} else {}
      ensures b <==> connection != null
      ensures Valid() ==> (b <==> connection != null && connection.socket.connected && !connection.socket.closed)
    {
      connection != null
    }

    /** `sendGyroscopeEvent`: passed to the connection; nothing happens without one. */
    method SendGyroscopeEvent(x: i32, y: i32, z: i32) returns (ok: bool)
      modifies if connection != null then {connection.socket} else {}
      ensures connection == null ==> ok
      ensures connection != null ==>
        && connection.socket.connected == old(connection.socket.connected)
        && connection.socket.closed == old(connection.socket.closed)
        && SentFrame(ok, old(connection.socket.log), connection.socket.log, GyroscopeEvents(x, y, z))
      ensures old(Valid()) ==> Valid()
    {
      ok := true;
      if connection != null {
        ok := connection.SendGyroscopeEvent(x, y, z);
      }
    }

    /** `sendButtonEvent`: passed to the connection; nothing happens without one. */
    method SendButtonEvent(down: bool, index: i32) returns (ok: bool)
      modifies if connection != null then {connection.socket} else {}
      ensures connection == null ==> ok
      ensures connection != null ==>
        && connection.socket.connected == old(connection.socket.connected)
        && connection.socket.closed == old(connection.socket.closed)
        && SentFrame(ok, old(connection.socket.log), connection.socket.log, ButtonEvents(down, index))
      ensures old(Valid()) ==> Valid()
    {
      ok := true;
      if connection != null {
        ok := connection.SendButtonEvent(down, index);
      }
    }

    /** `sendMultitouchEvent`: passed to the connection; nothing happens without one. */
    method SendMultitouchEvent(sample: TouchSample) returns (ok: bool)
      requires connection != null ==> |connection.mtGen.slots| < MaxSlots
      modifies if connection != null then {connection.socket, connection.mtGen} else {}
      ensures connection == null ==> ok
      ensures connection != null ==>
        && connection.socket.connected == old(connection.socket.connected)
        && connection.socket.closed == old(connection.socket.closed)
        && connection.mtGen.slots == TouchFrame(old(connection.mtGen.slots), sample).0
        && SentFrame(ok, old(connection.socket.log), connection.socket.log, TouchFrame(old(connection.mtGen.slots), sample).1)
      ensures old(Valid()) ==> Valid()
    {
      ok := true;
      if connection != null {
        ok := connection.SendMultitouchEvent(sample);
      }
    }

    /** `sendScrollEvent`: passed to the connection; nothing happens without one. */
    method SendScrollEvent(dx: i32, dy: i32) returns (ok: bool)
      modifies if connection != null then {connection.socket} else {}
      ensures connection == null ==> ok
      ensures connection != null ==>
        && connection.socket.connected == old(connection.socket.connected)
        && connection.socket.closed == old(connection.socket.closed)
        && SentFrame(ok, old(connection.socket.log), connection.socket.log, ScrollEvents(dx, dy))
      ensures old(Valid()) ==> Valid()
    {
      ok := true;
      if connection != null {
        ok := connection.SendScrollEvent(dx, dy);
      }
    }
  }
}
