/** The Connection of gonet.go: its configuration, its trigger table and
    the parts of Listen and Send that do not touch a socket. */
module Gonet {
  import opened Wrappers
  import opened Envelope

  /** A trigger function: message data in, output bytes out. */
  type Handler = seq<byte> -> seq<byte>

  class Connection {
    var protocol: string
    var length: int
    /** Command name to trigger function; None is Go's nil function value,
        which Trigger accepts like any other. */
    var triggers: map<string, Option<Handler>>

    /** NewConnection: the given protocol and read length, no triggers. */
    constructor (protocol: string, length: int)
      ensures this.protocol == protocol && this.length == length
      ensures triggers == map[]
    {
      this.protocol := protocol;
      this.length := length;
      triggers := map[];
    }

    /** Installs f for cmd, replacing whatever cmd had; the last write wins. */
    method Trigger(cmd: string, f: Option<Handler>)
      modifies this`triggers
      ensures cmd in triggers && triggers[cmd] == f
      ensures triggers.Keys == old(triggers).Keys + {cmd}
      ensures forall c :: c in old(triggers) && c != cmd ==> triggers[c] == old(triggers)[c]
    {
      triggers := triggers[cmd := f];
    }

    /** lookupTriggers: the handler stored for cmd; a missing command and a
        nil handler both end the process ("Command does not exist"). */
    function LookupTriggers(cmd: string): (r: Result<Handler, Error>)
      reads this
      ensures r.Success? <==> cmd in triggers && triggers[cmd].Some?
      ensures r.Success? ==> triggers[cmd] == Some(r.value)
      ensures r.Failure? ==> r.error == UnknownCommand(cmd)
    {
      if cmd in triggers && triggers[cmd].Some? then Success(triggers[cmd].value)
      else Failure(UnknownCommand(cmd))
    }

    /** The output of the trigger registered for the message's command,
        applied to the message's data. */
    function ResolveMessageTriggers(m: Message): (r: Result<seq<byte>, Error>)
      reads this
      ensures r.Success? <==> m.cmd in triggers && triggers[m.cmd].Some?
      ensures r.Success? ==> r.value == triggers[m.cmd].value(m.data)
      ensures r.Failure? ==> r.error == UnknownCommand(m.cmd)
    {
      match LookupTriggers(m.cmd)
      case Success(f) => Success(f(m.data))
      case Failure(e) => Failure(e)
    }

    /** The bytes Send writes to the socket: the exported message, which
        decodes back to the command and data given. */
    function Send(json: Json, cmd: string, data: seq<byte>): (wire: seq<byte>)
      ensures WellBehaved(json) ==> Decode(json, wire) == Success(NewMessage(cmd, data))
    {
      Export(json, NewMessage(cmd, data))
    }

    /** Listen after the read: the message decoded from the length-byte
        receive buffer filled with the incoming bytes. Only the first length
        bytes get in, and the zero fill behind them is trimmed away. */
    function Listen(json: Json, incoming: seq<byte>): (r: Result<Message, Error>)
      reads this
      ensures length < 0 ==> r == Failure(BufferLengthOutOfRange)
      ensures length >= 0 ==> r == Decode(json, incoming[..Min(|incoming|, length)])
    {
      match ReceiveBuffer(incoming, length)
      case Failure(e) => Failure(e)
      case Success(buffer) =>
        var n := Min(|incoming|, length);
        assert buffer == Zeros(0) + incoming[..n] + Zeros(length - n);
        DecodePadded(json, incoming[..n], 0, length - n);
        Decode(json, buffer)
    }
  }

  /** An envelope that fits the buffer is received intact. */
  lemma {:induction false} ListenRoundTrip(conn: Connection, json: Json, m: Message)
    requires WellBehaved(json)
    requires |Export(json, m)| <= conn.length
    ensures conn.Listen(json, Export(json, m)) == Success(m)
  {
    assert Export(json, m)[..|Export(json, m)|] == Export(json, m);
  }

  /** With JSON's own properties, a too-short buffer always fails: the message
      arrives intact exactly when it fits. */
  lemma {:induction false} ListenFitsExactly(conn: Connection, json: Json, m: Message)
    requires WellBehaved(json) && NoZeroBytes(json) && RejectsPrefixes(json)
    requires conn.length >= 0
    ensures conn.Listen(json, Export(json, m)) == Success(m) <==> |Export(json, m)| <= conn.length
    ensures |Export(json, m)| > conn.length ==> conn.Listen(json, Export(json, m)) == Failure(MalformedEnvelope)
  {
    var e := Export(json, m);
    if |e| > conn.length {
      var p := e[..conn.length];
      assert Unpadded(p) by {
        if p != [] { assert p[0] == e[0] && p[|p| - 1] == e[|p| - 1]; }
      }
      TrimZerosOfUnpadded(p);
      assert json.unmarshal(json.marshal(m)[..conn.length]) == None;
    } else {
      ListenRoundTrip(conn, json, m);
    }
  }

  /** After Trigger(cmd, h1) and then Trigger(cmd, h2), a message for cmd
      gets h2's output, and the table is otherwise as it was. */
  method TriggerTwice(conn: Connection, cmd: string, h1: Handler, h2: Handler, data: seq<byte>)
    returns (out: Result<seq<byte>, Error>)
    modifies conn`triggers
    ensures out == Success(h2(data))
    ensures conn.triggers.Keys == old(conn.triggers).Keys + {cmd}
    ensures forall c :: c in old(conn.triggers) && c != cmd ==> c in conn.triggers && conn.triggers[c] == old(conn.triggers)[c]
  {
    conn.Trigger(cmd, Some(h1));
    conn.Trigger(cmd, Some(h2));
    out := conn.ResolveMessageTriggers(NewMessage(cmd, data));
  }

  /** A message sent for a registered command is received and resolved to
      the handler's output on the data sent. */
  lemma {:induction false} SendListenResolve(sender: Connection, listener: Connection, json: Json,
                                             cmd: string, data: seq<byte>, h: Handler)
    requires WellBehaved(json)
    requires |sender.Send(json, cmd, data)| <= listener.length
    requires cmd in listener.triggers && listener.triggers[cmd] == Some(h)
    ensures listener.Listen(json, sender.Send(json, cmd, data)) == Success(NewMessage(cmd, data))
    ensures listener.ResolveMessageTriggers(NewMessage(cmd, data)) == Success(h(data))
  {
    ListenRoundTrip(listener, json, NewMessage(cmd, data));
  }

  /** An echo trigger returns the data of the message it receives. */
  method EchoScenario(json: Json, data: seq<byte>) returns (out: Result<seq<byte>, Error>)
    requires WellBehaved(json)
    requires |Export(json, NewMessage("echo", data))| <= 1024
    ensures out == Success(data)
  {
    var server := new Connection("tcp", 1024);
    server.Trigger("echo", Some(d => d));
    var client := new Connection("tcp", 1024);
    var received := server.Listen(json, client.Send(json, "echo", data));
    ListenRoundTrip(server, json, NewMessage("echo", data));
    match received
    case Success(m) =>
      out := server.ResolveMessageTriggers(m);
    case Failure(e) =>
      out := Failure(e);
  }
}
