// Every run of the IPC server, and decoding the stream it writes.

module IpcRuns {
  import opened Prelude
  import opened Ipc

  // ---------------------------------------------------------------------
  // Decoding under any chunking
  // ---------------------------------------------------------------------

  // One connection's reads so far: the leftover while it is open, the messages handed on, and the
  // bytes that reached the server.
  datatype Reading = Reading(buf: Option<bytes>, delivered: seq<bytes>, reached: bytes)

  function TakeIn(r: Reading, input: Input): Reading {
    if r.buf.None? then r
    else
      match Take(r.buf.value, input)
      case None => Reading(None, r.delivered, r.reached + input.chunk)
      case Some(t) => Reading(Some(t.rest), r.delivered + t.payloads, r.reached + input.chunk)
  }

  function ReadAll(inputs: seq<Input>): Reading
    decreases |inputs|
  {
    if inputs == [] then Reading(Some([]), [], [])
    else TakeIn(ReadAll(inputs[..|inputs| - 1]), inputs[|inputs| - 1])
  }

  function ChunkOf(input: Input): bytes {
    input.chunk
  }

  // Everything that was read.
  function Chunks(inputs: seq<Input>): bytes {
    FlatMap(ChunkOf, inputs)
  }

  lemma ReceiveExtends(buf: bytes, more: bytes)
    ensures match Receive(buf)
            case NoneYet => true
            case TooLarge => Receive(buf + more) == TooLarge
            case Message(p, rest) => Receive(buf + more) == Message(p, rest + more)
  {
    if |buf| >= 4 {
      assert (buf + more)[..4] == buf[..4];
      var len := DecodeUInt(Little, buf[..4]);
      if |buf| >= 4 + len {
        assert (buf + more)[4..4 + len] == buf[4..4 + len];
        assert (buf + more)[4 + len..] == buf[4 + len..] + more;
      }
    }
  }

  // Decoding may stop and resume at any point.
  lemma {:induction false} DecodeResumes(a: bytes, b: bytes)
    ensures Decode(a).bad ==> Decode(a + b).bad
    ensures !Decode(a).bad ==>
              var d := Decode(Decode(a).rest + b);
              Decode(a + b) == d.(payloads := Decode(a).payloads + d.payloads)
    decreases |a|
  {
    ReceiveExtends(a, b);
    match Receive(a)
    case NoneYet => assert [] + Decode(a + b).payloads == Decode(a + b).payloads;
    case TooLarge =>
    case Message(p, rest) =>
      DecodeResumes(rest, b);
      var d := Decode(Decode(rest).rest + b);
      Assoc([p], Decode(rest).payloads, d.payloads);
  }

  lemma ReadAllSnoc(inputs: seq<Input>, input: Input)
    ensures ReadAll(inputs + [input]) == TakeIn(ReadAll(inputs), input)
    ensures Chunks(inputs + [input]) == Chunks(inputs) + input.chunk
  {
    assert (inputs + [input])[..|inputs|] == inputs;
    FlatMapAppend(ChunkOf, inputs, [input]);
    FlatMapOne(ChunkOf, input);
  }

  // However the stream is cut, the connection is open exactly when the stream has not ended and no
  // header in it announced too much; then exactly the messages and the leftover of the stream in
  // one piece were delivered and kept.
  lemma {:induction false} ReadIsDecode(inputs: seq<Input>)
    ensures var r, d := ReadAll(inputs), Decode(Chunks(inputs));
            && (r.buf.Some? <==> (forall i :: 0 <= i < |inputs| ==> inputs[i].Data?) && !d.bad)
            && (r.buf.Some? ==> r == Reading(Some(d.rest), d.payloads, Chunks(inputs)))
    decreases |inputs|
  {
    if inputs != [] {
      var most, last := inputs[..|inputs| - 1], inputs[|inputs| - 1];
      assert inputs == most + [last];
      ReadAllSnoc(most, last);
      ReadIsDecode(most);
      DecodeResumes(Chunks(most), last.chunk);
    }
  }

  // The read that closes a connection although it completes a message.
  predicate Loses(r: Reading, input: Input) {
    r.buf.Some? && Take(r.buf.value, input).None? && Receive(r.buf.value + input.chunk).Message?
  }

  predicate LosesAt(inputs: seq<Input>, i: nat)
    requires i < |inputs|
  {
    Loses(ReadAll(inputs[..i]), inputs[i])
  }

  ghost predicate NeverLoses(inputs: seq<Input>) {
    forall i :: 0 <= i < |inputs| ==> !LosesAt(inputs, i)
  }

  lemma NeverLosesSnoc(inputs: seq<Input>, input: Input)
    ensures NeverLoses(inputs + [input]) <==> NeverLoses(inputs) && !Loses(ReadAll(inputs), input)
  {
    var all := inputs + [input];
    forall i | 0 <= i < |inputs| ensures LosesAt(all, i) == LosesAt(inputs, i) {
      assert all[..i] == inputs[..i];
    }
    assert all[..|inputs|] == inputs;
    assert LosesAt(all, |inputs|) == Loses(ReadAll(inputs), input);
  }

  lemma PrefixGrows<T>(a: seq<T>, b: seq<T>)
    ensures a <= a + b && (a == a + b <==> b == [])
  {
    assert |a + b| == |a| + |b|;
    assert a + [] == a;
  }

  lemma DecodesNone(buf: bytes)
    ensures Decode(buf).payloads == [] <==> !Receive(buf).Message?
  {}

  // What one more read does to an open connection.
  lemma TakeInDelivers(r: Reading, input: Input)
    requires r.buf.Some? && !Decode(r.reached).bad
    requires Decode(r.reached).payloads == r.delivered && Decode(r.reached).rest == r.buf.value
    ensures var r' := TakeIn(r, input);
            && r'.delivered <= Decode(r'.reached).payloads
            && (r'.delivered == Decode(r'.reached).payloads <==> !Loses(r, input))
            && (r'.buf.Some? ==> !Decode(r'.reached).bad && Decode(r'.reached).rest == r'.buf.value)
  {
    DecodeResumes(r.reached, input.chunk);
    DecodesNone(r.buf.value + input.chunk);
    PrefixGrows(r.delivered, Decode(r.buf.value + input.chunk).payloads);
  }

  // Over every sequence of reads on one connection, the messages delivered are a prefix of those in
  // the bytes that reached the server, and are all of them if and only if the read that closes the
  // connection, by the end of the stream or by an oversized header, completes no message.
  lemma {:induction false} DeliveredIff(inputs: seq<Input>)
    ensures var r := ReadAll(inputs);
            && r.delivered <= Decode(r.reached).payloads
            && (r.delivered == Decode(r.reached).payloads <==> NeverLoses(inputs))
    decreases |inputs|
  {
    if inputs != [] {
      var most, last := inputs[..|inputs| - 1], inputs[|inputs| - 1];
      assert inputs == most + [last];
      DeliveredIff(most);
      NeverLosesSnoc(most, last);
      ReadAllSnoc(most, last);
      ReadIsDecode(most);
      if ReadAll(most).buf.Some? {
        TakeInDelivers(ReadAll(most), last);
      }
    }
  }

  lemma ReceiveFrame(p: bytes, more: bytes)
    requires |p| < 0x1_0000_0000
    ensures Receive(FrameOf(p) + more) == if |p| <= MAX_MSG_SIZE then Message(p, more) else TooLarge
  {
    Pow256Small();
    UIntRoundTrip(Little, |p|, 4);
    var s := FrameOf(p) + more;
    assert s[..4] == EncodeUInt(Little, |p|, 4);
    assert s[4..4 + |p|] == p && s[4 + |p|..] == more;
  }

  predicate Framable(p: bytes) {
    |p| < 0x1_0000_0000
  }

  lemma {:induction false} FramesCons(p: bytes, ps: seq<bytes>)
    ensures Frames([p] + ps) == FrameOf(p) + Frames(ps)
    decreases |ps|
  {
    var all := [p] + ps;
    if ps == [] {
      assert all[..0] == [] && [] + FrameOf(p) == FrameOf(p) + [];
    } else {
      var n := |ps| - 1;
      FramesCons(p, ps[..n]);
      assert all[..n + 1] == [p] + ps[..n];
      Assoc(FrameOf(p), Frames(ps[..n]), FrameOf(ps[n]));
    }
  }

  // A stream of framed messages decodes back to them exactly when none exceeds 1 MiB; one that
  // does makes the stream undecodable.
  lemma {:induction false} DecodeFramesIff(ps: seq<bytes>)
    requires forall i :: 0 <= i < |ps| ==> Framable(ps[i])
    ensures (forall i :: 0 <= i < |ps| ==> |ps[i]| <= MAX_MSG_SIZE) ==> Decode(Frames(ps)) == Decoded(ps, [], false)
    ensures (exists i :: 0 <= i < |ps| && |ps[i]| > MAX_MSG_SIZE) ==> Decode(Frames(ps)).bad
    decreases |ps|
  {
    if ps != [] {
      var p, rest := ps[0], ps[1..];
      assert ps == [p] + rest;
      FramesCons(p, rest);
      ReceiveFrame(p, Frames(rest));
      DecodeFramesIff(rest);
      if i :| 0 <= i < |ps| && |ps[i]| > MAX_MSG_SIZE {
        assert i > 0 ==> rest[i - 1] == ps[i];
      }
    }
  }

  // The receiver gets exactly the messages that were framed, however the stream is cut, if and
  // only if none of them exceeds 1 MiB.
  lemma StreamRoundTripIff(ps: seq<bytes>, inputs: seq<Input>)
    requires (forall i :: 0 <= i < |ps| ==> Framable(ps[i])) && Chunks(inputs) == Frames(ps)
    requires forall i :: 0 <= i < |inputs| ==> inputs[i].Data?
    ensures ReadAll(inputs) == Reading(Some([]), ps, Frames(ps)) <==>
            forall i :: 0 <= i < |ps| ==> |ps[i]| <= MAX_MSG_SIZE
  {
    DecodeFramesIff(ps);
    ReadIsDecode(inputs);
  }

  lemma ReadOne(input: Input)
    ensures ReadAll([input]) == TakeIn(Reading(Some([]), [], []), input)
    ensures ReadAll([input]).reached == input.chunk
  {
    assert [input][..0] == [] && [] + input.chunk == input.chunk;
  }

  lemma ReadTwo(a: Input, b: Input)
    ensures ReadAll([a, b]) == TakeIn(ReadAll([a]), b)
  {
    assert [a, b][..1] == [a];
  }

  lemma DecodeFrame(p: bytes, more: bytes)
    requires |p| <= MAX_MSG_SIZE
    ensures Decode(FrameOf(p) + more) == Decode(more).(payloads := [p] + Decode(more).payloads)
  {
    ReceiveFrame(p, more);
  }

  lemma ReadFrame(p: bytes)
    requires |p| <= MAX_MSG_SIZE
    ensures Decode(FrameOf(p)).payloads == [p]
    ensures ReadAll([Data(FrameOf(p))]) == Reading(Some([]), [p], FrameOf(p))
  {
    DecodeFrame(p, []);
    assert FrameOf(p) + [] == FrameOf(p) && [p] + [] == [p];
    ReadOne(Data(FrameOf(p)));
    assert [] + FrameOf(p) == FrameOf(p) && [] + [p] == [p];
  }

  // Two inputs that fail. A message read together with the end of the stream is lost; read before
  // it, it is delivered.
  lemma LastMessageLost(p: bytes)
    requires |p| <= MAX_MSG_SIZE
    ensures Decode(FrameOf(p)).payloads == [p]
    ensures ReadAll([Ended(FrameOf(p))]).delivered == []
    ensures ReadAll([Data(FrameOf(p)), Ended([])]).delivered == [p]
  {
    ReadFrame(p);
    ReadOne(Ended(FrameOf(p)));
    ReadTwo(Data(FrameOf(p)), Ended([]));
  }

  lemma HeaderTooLarge(n: nat)
    requires MAX_MSG_SIZE < n < 0x1_0000_0000
    ensures Decode(EncodeUInt(Little, n, 4)) == Decoded([], [], true)
  {
    var header := EncodeUInt(Little, n, 4);
    Pow256Small();
    UIntRoundTrip(Little, n, 4);
    assert header[..4] == header;
  }

  // A message read together with an oversized header is lost too, so the cutting decides.
  lemma OversizedHeaderLoses(p: bytes, n: nat)
    requires |p| <= MAX_MSG_SIZE < n < 0x1_0000_0000
    ensures var header := EncodeUInt(Little, n, 4);
            && Decode(FrameOf(p) + header).payloads == [p]
            && ReadAll([Data(FrameOf(p) + header)]).delivered == []
            && ReadAll([Data(FrameOf(p)), Data(header)]).delivered == [p]
  {
    var header := EncodeUInt(Little, n, 4);
    HeaderTooLarge(n);
    DecodeFrame(p, header);
    ReadFrame(p);
    assert [p] + [] == [p] && [] + header == header && [] + (FrameOf(p) + header) == FrameOf(p) + header;
    ReadOne(Data(FrameOf(p) + header));
    ReadTwo(Data(FrameOf(p)), Data(header));
  }

  // ---------------------------------------------------------------------
  // Runs of the server
  // ---------------------------------------------------------------------

  datatype Event =
    | Accepted(hello: bytes, script: seq<WriteAnswer>)
    | Sent(msg: bytes, script: seq<WriteAnswer>)
    | Tick(script: seq<WriteAnswer>)
    | Readable(input: Input)

  // What one connection was given to send, what went out on it and how much the socket took, what
  // was read from it, and the messages delivered from that.
  datatype Log = Log(hello: bytes, msgs: seq<bytes>, written: bytes, taken: nat, inputs: seq<Input>,
      delivered: seq<bytes>)

  // `log` is the current connection's; `ended` those of the connections before it.
  datatype World = World(server: Server, log: Option<Log>, ended: seq<Log>, sends: seq<bytes>)

  const START := World(Server(None, []), None, [], [])

  // Moves the log of a connection that is gone.
  function Settle(w: World): World {
    if w.server.connection.None? && w.log.Some? then w.(log := None, ended := w.ended + [w.log.value]) else w
  }

  function LogWrite(l: Option<Log>, more: bytes, took: nat): Option<Log> {
    if l.Some? then Some(l.value.(written := l.value.written + more, taken := l.value.taken + took)) else None
  }

  function Buffered(s: Server): bytes {
    if s.connection.Some? then s.connection.value.writeBuf else []
  }

  function LogRead(l: Option<Log>, input: Input, got: Option<seq<bytes>>): Option<Log> {
    if l.None? then None
    else
      var more := if got.Some? then got.value else [];
      Some(l.value.(inputs := l.value.inputs + [input], delivered := l.value.delivered + more))
  }

  function Step(w: World, ev: Event): World {
    match ev
    case Accepted(hello, script) =>
      var o := Accept(w.server, hello, script);
      var took := Takes(|Frames([hello] + w.server.pending)|, script);
      World(o.server, Some(Log(hello, w.server.pending, o.written, took, [], [])),
            if w.log.Some? then w.ended + [w.log.value] else w.ended, w.sends)
    case Sent(msg, script) =>
      var o := Send(w.server, msg, script);
      var l := if w.log.Some? then Some(w.log.value.(msgs := w.log.value.msgs + [msg])) else None;
      var took := Takes(|Buffered(w.server) + FrameOf(msg)|, script);
      Settle(World(o.server, LogWrite(l, o.written, took), w.ended, w.sends + [msg]))
    case Tick(script) =>
      var o := FlushAll(w.server, script);
      Settle(World(o.server, LogWrite(w.log, o.written, Takes(|Buffered(w.server)|, script)), w.ended, w.sends))
    case Readable(input) =>
      var (s, got) := ReceiveAll(w.server, input);
      Settle(w.(server := s, log := LogRead(w.log, input, got)))
  }

  function Run(events: seq<Event>): World
    decreases |events|
  {
    if events == [] then START else Step(Run(events[..|events| - 1]), events[|events| - 1])
  }

  function MsgsOf(l: Log): seq<bytes> {
    l.msgs
  }

  // Messages that some connection was given, then those still waiting.
  function Given(w: World): seq<bytes> {
    FlatMap(MsgsOf, w.ended) + (if w.log.Some? then w.log.value.msgs else []) + w.server.pending
  }

  // The greeting, what was waiting when the client connected, and what was sent since.
  function StreamOf(l: Log): bytes {
    Frames([l.hello] + l.msgs)
  }

  // What went out on the connection is the front of its stream, as much as the socket took.
  predicate Front(l: Log) {
    l.taken <= |StreamOf(l)| && l.written == StreamOf(l)[..l.taken]
  }

  lemma FrontOf(l: Log, rest: bytes)
    requires l.written + rest == StreamOf(l) && |l.written| == l.taken
    ensures Front(l)
  {}

  ghost predicate Inv(w: World) {
    && (w.server.connection.Some? <==> w.log.Some?)
    && (w.log.Some? ==>
          && w.server.pending == []
          && w.log.value.written + w.server.connection.value.writeBuf == StreamOf(w.log.value)
          && |w.log.value.written| == w.log.value.taken)
    && (forall i :: 0 <= i < |w.ended| ==> Front(w.ended[i]))
    && w.sends == Given(w)
  }

  lemma StreamGrows(l: Log, msg: bytes)
    ensures StreamOf(l.(msgs := l.msgs + [msg])) == StreamOf(l) + FrameOf(msg)
  {
    var all := [l.hello] + (l.msgs + [msg]);
    assert all[..|all| - 1] == [l.hello] + l.msgs;
  }

  lemma WriteKeeps(w: World, buf: bytes, script: seq<WriteAnswer>)
    requires w.server.connection.Some? && w.log.Some? && w.server.pending == []
    requires w.log.value.written + buf == StreamOf(w.log.value) && |w.log.value.written| == w.log.value.taken
    requires forall i :: 0 <= i < |w.ended| ==> Front(w.ended[i])
    requires w.sends == Given(w)
    ensures var o := Write(w.server, buf, script);
            Inv(Settle(w.(server := o.server, log := LogWrite(w.log, o.written, Takes(|buf|, script)))))
  {
    var o, f := Write(w.server, buf, script), Flush(buf, script);
    FlushConserves(buf, script);
    FlushTakes(buf, script);
    Assoc(w.log.value.written, f.written, f.rest);
    var l := LogWrite(w.log, o.written, Takes(|buf|, script));
    SettleKeepsGiven(w.(server := o.server, log := l));
    FrontOf(l.value, f.rest);
  }

  lemma SettleKeepsGiven(w: World)
    requires w.log.Some?
    ensures Given(Settle(w)) == Given(w)
  {
    FlatMapAppend(MsgsOf, w.ended, [w.log.value]);
    FlatMapOne(MsgsOf, w.log.value);
    assert FlatMap(MsgsOf, w.ended) + w.log.value.msgs + [] == FlatMap(MsgsOf, w.ended) + w.log.value.msgs;
  }

  lemma AcceptKeeps(w: World, hello: bytes, script: seq<WriteAnswer>)
    requires Inv(w)
    ensures Inv(Step(w, Accepted(hello, script)))
  {
    FlushConserves(Frames([hello] + w.server.pending), script);
    FlushTakes(Frames([hello] + w.server.pending), script);
    if w.log.Some? {
      FrontOf(w.log.value, w.server.connection.value.writeBuf);
    }
    AcceptGiven(w.ended, w.log, w.server.pending);
  }

  // Accepting moves the pending messages to the new connection.
  lemma AcceptGiven(ended: seq<Log>, log: Option<Log>, pending: seq<bytes>)
    requires log.Some? ==> pending == []
    ensures FlatMap(MsgsOf, ended) + (if log.Some? then log.value.msgs else []) + pending ==
            FlatMap(MsgsOf, if log.Some? then ended + [log.value] else ended) + pending + []
  {
    if log.Some? {
      FlatMapAppend(MsgsOf, ended, [log.value]);
      FlatMapOne(MsgsOf, log.value);
    }
  }

  lemma SendKeeps(w: World, msg: bytes, script: seq<WriteAnswer>)
    requires Inv(w)
    ensures Inv(Step(w, Sent(msg, script)))
  {
    var given := FlatMap(MsgsOf, w.ended);
    if w.log.Some? {
      var l := w.log.value;
      var w1 := World(w.server, Some(l.(msgs := l.msgs + [msg])), w.ended, w.sends + [msg]);
      var buf := w.server.connection.value.writeBuf;
      StreamGrows(l, msg);
      Assoc(l.written, buf, FrameOf(msg));
      assert (given + l.msgs + []) + [msg] == given + (l.msgs + [msg]) + [];
      WriteKeeps(w1, buf + FrameOf(msg), script);
    } else {
      assert (given + [] + w.server.pending) + [msg] == given + [] + (w.server.pending + [msg]);
    }
  }

  lemma StepKeeps(w: World, ev: Event)
    requires Inv(w)
    ensures Inv(Step(w, ev))
  {
    match ev
    case Accepted(hello, script) => AcceptKeeps(w, hello, script);
    case Sent(msg, script) => SendKeeps(w, msg, script);
    case Tick(script) =>
      if w.log.Some? {
        WriteKeeps(w, w.server.connection.value.writeBuf, script);
      }
    case Readable(input) =>
      if w.log.Some? {
        var (s, got) := ReceiveAll(w.server, input);
        SettleKeepsGiven(w.(server := s, log := LogRead(w.log, input, got)));
        FrontOf(LogRead(w.log, input, got).value, w.server.connection.value.writeBuf);
      }
  }

  lemma {:induction false} RunInv(events: seq<Event>)
    ensures Inv(Run(events))
    decreases |events|
  {
    if events != [] {
      RunInv(events[..|events| - 1]);
      StepKeeps(Run(events[..|events| - 1]), events[|events| - 1]);
    }
  }

  // For any interleaving of accepts, sends, flushes and reads and any partial writes: what went out
  // on each connection is the front of its stream, the framed greeting, the messages pending when
  // it was accepted and the later sends, exactly as much as its socket took; the current
  // connection buffers the rest; and each message ever sent is given to one connection, in order,
  // or still pending.
  lemma SentStream(events: seq<Event>)
    ensures var w := Run(events);
            && (w.server.connection.Some? <==> w.log.Some?)
            && (w.log.Some? ==>
                  && Front(w.log.value)
                  && w.server.connection.value.writeBuf == StreamOf(w.log.value)[w.log.value.taken..])
            && (forall i :: 0 <= i < |w.ended| ==> Front(w.ended[i]))
            && w.sends == FlatMap(MsgsOf, w.ended) + (if w.log.Some? then w.log.value.msgs else []) + w.server.pending
  {
    RunInv(events);
    var w := Run(events);
    if w.log.Some? {
      FrontOf(w.log.value, w.server.connection.value.writeBuf);
    }
  }

  // ---------------------------------------------------------------------
  // What the server was sent
  // ---------------------------------------------------------------------

  // The log of a connection agrees with reading its inputs.
  predicate ReadLog(l: Log) {
    l.delivered == ReadAll(l.inputs).delivered
  }

  ghost predicate ReadInv(w: World) {
    && (w.server.connection.Some? <==> w.log.Some?)
    && (w.log.Some? ==> ReadLog(w.log.value) && OpenAt(w.log.value, w.server))
    && (forall i :: 0 <= i < |w.ended| ==> ReadLog(w.ended[i]))
  }

  predicate OpenAt(l: Log, s: Server) {
    s.connection.Some? && ReadAll(l.inputs).buf == Some(s.connection.value.readBuf)
  }

  lemma ReadableKeepsReads(w: World, input: Input)
    requires ReadInv(w) && w.log.Some?
    ensures ReadInv(Step(w, Readable(input)))
  {
    var buf := w.server.connection.value.readBuf;
    LogReads(w.log.value, buf, input);
    var (s, got) := ReceiveAll(w.server, input);
    SettleReads(w.(server := s, log := LogRead(w.log, input, got)));
  }

  // One more read of an open connection, in its log.
  lemma LogReads(l: Log, buf: bytes, input: Input)
    requires ReadLog(l) && ReadAll(l.inputs).buf == Some(buf)
    ensures var t := Take(buf, input);
            var l' := LogRead(Some(l), input, if t.Some? then Some(t.value.payloads) else None).value;
            && ReadLog(l')
            && ReadAll(l'.inputs).buf == if t.Some? then Some(t.value.rest) else None
  {
    ReadAllSnoc(l.inputs, input);
    assert l.delivered + [] == l.delivered;
  }

  lemma SettleReads(w: World)
    requires w.log.Some? && ReadLog(w.log.value) && (w.server.connection.Some? ==> OpenAt(w.log.value, w.server))
    requires forall i :: 0 <= i < |w.ended| ==> ReadLog(w.ended[i])
    ensures ReadInv(Settle(w))
  {}

  lemma StepKeepsReads(w: World, ev: Event)
    requires ReadInv(w)
    ensures ReadInv(Step(w, ev))
  {
    match ev
    case Readable(input) =>
      if w.log.Some? {
        ReadableKeepsReads(w, input);
      }
    case _ =>
  }

  lemma {:induction false} RunReads(events: seq<Event>)
    ensures ReadInv(Run(events))
    decreases |events|
  {
    if events != [] {
      RunReads(events[..|events| - 1]);
      StepKeepsReads(Run(events[..|events| - 1]), events[|events| - 1]);
    }
  }

  ghost predicate DeliversAll(l: Log) {
    l.delivered == Decode(ReadAll(l.inputs).reached).payloads
  }

  // Over every run, each connection, the current one and all before it, was delivered all the
  // messages that reached the server on it if and only if the read that closed it, if one did,
  // completed no message; replacing a connection loses none.
  lemma DeliveredInRuns(events: seq<Event>)
    ensures var w := Run(events);
            && (w.log.Some? ==> DeliversAll(w.log.value))
            && (forall i :: 0 <= i < |w.ended| ==> (DeliversAll(w.ended[i]) <==> NeverLoses(w.ended[i].inputs)))
  {
    RunReads(events);
    var w := Run(events);
    if w.log.Some? {
      ReadIsDecode(w.log.value.inputs);
    }
    forall i | 0 <= i < |w.ended| ensures DeliversAll(w.ended[i]) <==> NeverLoses(w.ended[i].inputs) {
      assert ReadLog(w.ended[i]);
      DeliveredIff(w.ended[i].inputs);
    }
  }
}
