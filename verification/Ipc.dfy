// Length-prefixed messages over one non-blocking socket, and the server that keeps at most one
// client and queues messages until it connects.

module Ipc {
  import opened Prelude

  const MAX_MSG_SIZE: nat := 1024 * 1024

  // ---------------------------------------------------------------------
  // Framing
  // ---------------------------------------------------------------------

  // A payload of 2^32 bytes or more cannot be framed and is skipped.
  function FrameOf(payload: bytes): bytes {
    if |payload| < 0x1_0000_0000 then EncodeUInt(Little, |payload|, 4) + payload else []
  }

  function Frames(payloads: seq<bytes>): bytes {
    if payloads == [] then [] else Frames(payloads[..|payloads| - 1]) + FrameOf(payloads[|payloads| - 1])
  }

  datatype Received = NoneYet | Message(payload: bytes, rest: bytes) | TooLarge

  lemma FramesSnoc(ps: seq<bytes>, p: bytes)
    ensures Frames(ps + [p]) == Frames(ps) + FrameOf(p)
  {
    assert (ps + [p])[..|ps|] == ps;
  }

  lemma FramesOne(p: bytes)
    ensures Frames([p]) == FrameOf(p)
  {
    FramesSnoc([], p);
    assert [] + [p] == [p] && [] + FrameOf(p) == FrameOf(p);
  }

  // The next complete message at the front of the buffer.
  function Receive(buf: bytes): (r: Received)
    ensures r.Message? ==> |r.rest| < |buf|
  {
    if |buf| < 4 then NoneYet
    else
      var len := DecodeUInt(Little, buf[..4]);
      if len > MAX_MSG_SIZE then TooLarge
      else if |buf| < 4 + len then NoneYet
      else Message(buf[4..4 + len], buf[4 + len..])
  }

  // Every complete message of the buffer; `bad` when a header announces too much.
  datatype Decoded = Decoded(payloads: seq<bytes>, rest: bytes, bad: bool)

  function Decode(buf: bytes): Decoded
    decreases |buf|
  {
    match Receive(buf)
    case NoneYet => Decoded([], buf, false)
    case TooLarge => Decoded([], [], true)
    case Message(p, rest) =>
      var d := Decode(rest);
      d.(payloads := [p] + d.payloads)
  }

  // ---------------------------------------------------------------------
  // Writing
  // ---------------------------------------------------------------------

  // What one write call on a non-empty buffer may answer; then the socket would block.
  datatype WriteAnswer = Wrote(n: nat) | WouldBlock | Failed

  datatype Flushed = Flushed(written: bytes, rest: bytes, ok: bool)

  function Flush(buf: bytes, script: seq<WriteAnswer>): Flushed
    decreases |script|
  {
    if buf == [] || script == [] then Flushed([], buf, true)
    else
      match script[0]
      case WouldBlock => Flushed([], buf, true)
      case Failed => Flushed([], buf, false)
      case Wrote(k) =>
        var n := if k < |buf| then k else |buf|;
        if n == 0 then Flushed([], buf, true)
        else
          var f := Flush(buf[n..], script[1..]);
          f.(written := buf[..n] + f.written)
  }

  lemma {:induction false} FlushConserves(buf: bytes, script: seq<WriteAnswer>)
    ensures Flush(buf, script).written + Flush(buf, script).rest == buf
    decreases |script|
  {
    if buf != [] && script != [] && script[0].Wrote? {
      var n := if script[0].n < |buf| then script[0].n else |buf|;
      if n > 0 {
        FlushConserves(buf[n..], script[1..]);
        var f := Flush(buf[n..], script[1..]);
        Assoc(buf[..n], f.written, f.rest);
      }
    }
  }

  // How many bytes the socket takes before a call takes none or fails.
  function Room(script: seq<WriteAnswer>): nat {
    if script == [] || !script[0].Wrote? || script[0].n == 0 then 0 else script[0].n + Room(script[1..])
  }

  // What the socket takes of a buffer of the length.
  function Takes(len: nat, script: seq<WriteAnswer>): nat {
    if Room(script) < len then Room(script) else len
  }

  // The socket fails while there is still something to write.
  predicate Fails(len: nat, script: seq<WriteAnswer>) {
    && len > 0 && script != []
    && (script[0].Failed? || (script[0].Wrote? && 0 < script[0].n < len && Fails(len - script[0].n, script[1..])))
  }

  // The flush writes exactly what the socket takes, from the front, keeps the rest, and fails
  // exactly when the socket does.
  lemma {:induction false} FlushTakes(buf: bytes, script: seq<WriteAnswer>)
    ensures var f, n := Flush(buf, script), Takes(|buf|, script);
            && f.written == buf[..n]
            && f.rest == buf[n..]
            && (f.ok <==> !Fails(|buf|, script))
    decreases |script|
  {
    if buf != [] && script != [] && script[0].Wrote? && script[0].n > 0 {
      var n := if script[0].n < |buf| then script[0].n else |buf|;
      FlushTakes(buf[n..], script[1..]);
      TakeTake(buf, n, Takes(|buf| - n, script[1..]));
    }
  }

  lemma TakeTake(buf: bytes, n: nat, m: nat)
    requires n + m <= |buf|
    ensures buf[..n] + buf[n..][..m] == buf[..n + m]
    ensures buf[n..][m..] == buf[n + m..]
  {}

  // ---------------------------------------------------------------------
  // The server
  // ---------------------------------------------------------------------

  datatype Conn = Conn(readBuf: bytes, writeBuf: bytes)

  datatype Server = Server(connection: Option<Conn>, pending: seq<bytes>)

  // A write, with the connection dropped if the socket failed.
  datatype Outcome = Outcome(server: Server, written: bytes)

  function Write(s: Server, buf: bytes, script: seq<WriteAnswer>): Outcome
    requires s.connection.Some?
  {
    var f := Flush(buf, script);
    Outcome(s.(connection := if f.ok then Some(s.connection.value.(writeBuf := f.rest)) else None), f.written)
  }

  // A new client replaces the old one and gets the greeting and everything that was waiting.
  // A failing first write is noticed only later.
  function Accept(s: Server, hello: bytes, script: seq<WriteAnswer>): Outcome {
    var f := Flush(Frames([hello] + s.pending), script);
    Outcome(Server(Some(Conn([], f.rest)), []), f.written)
  }

  function Send(s: Server, msg: bytes, script: seq<WriteAnswer>): Outcome {
    if s.connection.None? then Outcome(s.(pending := s.pending + [msg]), [])
    else Write(s, s.connection.value.writeBuf + FrameOf(msg), script)
  }

  function FlushAll(s: Server, script: seq<WriteAnswer>): Outcome {
    if s.connection.None? then Outcome(s, []) else Write(s, s.connection.value.writeBuf, script)
  }

  // What draining the socket yielded: bytes, then nothing more for now, or the end or an error.
  datatype Input = Data(chunk: bytes) | Ended(chunk: bytes)

  datatype Taken = Taken(payloads: seq<bytes>, rest: bytes)

  // The messages and the leftover of one readable event; None when the connection is dropped, and
  // with it every message of that event.
  function Take(buf: bytes, input: Input): Option<Taken> {
    var d := Decode(buf + input.chunk);
    if input.Ended? || d.bad then None else Some(Taken(d.payloads, d.rest))
  }

  function ReceiveAll(s: Server, input: Input): (Server, Option<seq<bytes>>) {
    if s.connection.None? then (s, None)
    else
      match Take(s.connection.value.readBuf, input)
      case None => (s.(connection := None), None)
      case Some(t) => (s.(connection := Some(s.connection.value.(readBuf := t.rest))), Some(t.payloads))
  }

  // The payloads that parse, in order.
  function Parsed(payloads: seq<bytes>, parses: bytes -> bool): seq<bytes> {
    if payloads == [] then []
    else
      var n := |payloads| - 1;
      Parsed(payloads[..n], parses) + if parses(payloads[n]) then [payloads[n]] else []
  }

  lemma ParsedSnoc(ps: seq<bytes>, p: bytes, parses: bytes -> bool)
    ensures Parsed(ps + [p], parses) == Parsed(ps, parses) + if parses(p) then [p] else []
  {
    assert (ps + [p])[..|ps|] == ps;
  }

  // ---------------------------------------------------------------------
  // The objects of the code
  // ---------------------------------------------------------------------

  class IpcConn {
    var readBuf: bytes
    var writeBuf: bytes

    function Abstract(): Conn
      reads this
    {
      Conn(readBuf, writeBuf)
    }

    constructor ()
      ensures Abstract() == Conn([], [])
    {
      readBuf, writeBuf := [], [];
    }

    method FillReadBuf(input: Input) returns (eof: bool)
      modifies this`readBuf
      ensures readBuf == old(readBuf) + input.chunk && eof == input.Ended?
    {
      readBuf := readBuf + input.chunk;
      eof := input.Ended?;
    }

    method TryRecv() returns (r: Result<Option<bytes>, ()>)
      modifies this`readBuf
      ensures match Receive(old(readBuf))
              case NoneYet => r == Ok(None) && readBuf == old(readBuf)
              case TooLarge => r.Err? && readBuf == []
              case Message(p, rest) => r == Ok(Some(p)) && readBuf == rest
    {
      if |readBuf| < 4 {
        return Ok(None);
      }
      var len := DecodeUInt(Little, readBuf[..4]);
      if len > MAX_MSG_SIZE {
        readBuf := [];
        return Err(());
      }
      if |readBuf| < 4 + len {
        return Ok(None);
      }
      var payload := readBuf[4..4 + len];
      readBuf := readBuf[4 + len..];
      return Ok(Some(payload));
    }

    method Enqueue(msg: bytes)
      modifies this`writeBuf
      ensures writeBuf == old(writeBuf) + FrameOf(msg)
    {
      if |msg| >= 0x1_0000_0000 {
        return;
      }
      writeBuf := writeBuf + EncodeUInt(Little, |msg|, 4);
      writeBuf := writeBuf + msg;
      Assoc(old(writeBuf), EncodeUInt(Little, |msg|, 4), msg);
    }

    method TryFlush(script: seq<WriteAnswer>) returns (ok: bool, ghost written: bytes)
      modifies this`writeBuf
      ensures Flushed(written, writeBuf, ok) == Flush(old(writeBuf), script)
    {
      var answers := script;
      written := [];
      assert [] + Flush(writeBuf, script).written == Flush(writeBuf, script).written;
      while writeBuf != []
        invariant Flush(old(writeBuf), script) == var f := Flush(writeBuf, answers); f.(written := written + f.written)
        decreases |answers|
      {
        if answers == [] || answers[0].WouldBlock? {
          assert written + [] == written;
          return true, written;
        }
        var answer := answers[0];
        answers := answers[1..];
        if answer.Failed? {
          assert written + [] == written;
          return false, written;
        }
        var n := if answer.n < |writeBuf| then answer.n else |writeBuf|;
        if n == 0 {
          assert written + [] == written;
          return true, written;
        }
        Assoc(written, writeBuf[..n], Flush(writeBuf[n..], answers).written);
        written := written + writeBuf[..n];
        writeBuf := writeBuf[n..];
      }
      assert written + [] == written;
      return true, written;
    }
  }

  // The greeting, then everything that was waiting.
  method Greet(conn: IpcConn, hello: bytes, pending: seq<bytes>)
    requires conn.Abstract() == Conn([], [])
    modifies conn
    ensures conn.Abstract() == Conn([], Frames([hello] + pending))
  {
    conn.Enqueue(hello);
    FramesOne(hello);
    assert conn.writeBuf == [] + FrameOf(hello) == FrameOf(hello);
    ghost var given := [hello];
    var i := 0;
    while i < |pending|
      invariant i <= |pending| && given == [hello] + pending[..i]
      invariant conn.readBuf == [] && conn.writeBuf == Frames(given)
    {
      FramesSnoc(given, pending[i]);
      conn.Enqueue(pending[i]);
      given := given + [pending[i]];
      i := i + 1;
    }
    assert pending[..|pending|] == pending;
  }

  class IpcServer {
    var connection: IpcConn?
    var pending: seq<bytes>

    function Abstract(): Server
      reads this, connection
    {
      Server(if connection == null then None else Some(connection.Abstract()), pending)
    }

    constructor ()
      ensures Abstract() == Server(None, []) && connection == null
    {
      connection, pending := null, [];
    }

    method AcceptClient(hello: bytes, script: seq<WriteAnswer>) returns (ghost written: bytes)
      modifies this
      ensures connection != null && fresh(connection)
      ensures Outcome(Abstract(), written) == Accept(old(Abstract()), hello, script)
    {
      var conn := new IpcConn();
      Greet(conn, hello, pending);
      pending := [];
      var ok;
      ok, written := conn.TryFlush(script);
      connection := conn;
    }

    method SendMessage(msg: bytes, script: seq<WriteAnswer>) returns (ghost written: bytes)
      modifies this, connection
      ensures Outcome(Abstract(), written) == Send(old(Abstract()), msg, script)
      ensures connection == old(connection) || connection == null
    {
      written := [];
      if connection == null {
        pending := pending + [msg];
        return;
      }
      connection.Enqueue(msg);
      var ok;
      ok, written := connection.TryFlush(script);
      if !ok {
        connection := null;
      }
    }

    method FlushPending(script: seq<WriteAnswer>) returns (ghost written: bytes)
      modifies this, connection
      ensures Outcome(Abstract(), written) == FlushAll(old(Abstract()), script)
      ensures connection == old(connection) || connection == null
    {
      written := [];
      if connection != null {
        var ok;
        ok, written := connection.TryFlush(script);
        if !ok {
          connection := null;
        }
      }
    }

    // A payload that does not parse is skipped.
    method RecvAll(input: Input, parses: bytes -> bool) returns (msgs: Option<seq<bytes>>)
      modifies this, connection
      ensures var (s, got) := ReceiveAll(old(Abstract()), input);
              Abstract() == s && msgs == if got.Some? then Some(Parsed(got.value, parses)) else None
      ensures connection == old(connection) || connection == null
    {
      if connection == null {
        return None;
      }
      var conn := connection;
      var eof := conn.FillReadBuf(input);
      if eof {
        connection := null;
        return None;
      }
      ghost var all, writeBuf := conn.readBuf, conn.writeBuf;
      ghost var got: seq<bytes> := [];
      var parsed := [];
      assert [] + Decode(all).payloads == Decode(all).payloads;
      while true
        invariant Decode(all) == var d := Decode(conn.readBuf); d.(payloads := got + d.payloads)
        invariant parsed == Parsed(got, parses)
        invariant conn.writeBuf == writeBuf && connection == conn && pending == old(pending)
        decreases |conn.readBuf|
        modifies conn, this
      {
        var r := conn.TryRecv();
        match r {
          case Ok(Some(payload)) =>
            Assoc(got, [payload], Decode(conn.readBuf).payloads);
            ParsedSnoc(got, payload, parses);
            got := got + [payload];
            if parses(payload) {
              parsed := parsed + [payload];
            }
          case Ok(None) =>
            assert got + [] == got;
            return Some(parsed);
          case Err(_) =>
            connection := null;
            return None;
        }
      }
    }
  }
}
