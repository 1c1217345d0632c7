// One proxied connection: the client and upstream pumps, the replies the broker synthesises for
// intercepted calls, and the signals it injects, over every interleaving of reads.

module Broker {
  import opened Prelude
  import opened Frames
  import opened Sasl
  import opened Splitter
  import opened Outbox
  import opened Attribution
  import opened Fcitx

  // What the pumps ask about a frame. The pump laws hold for every policy; `FcitxPolicy` is the
  // one in use.
  datatype Policy = Policy(
    counts: Counts,
    intercept: bytes -> bool,
    creates: bytes -> bool,
    reply: (bytes, u64, u32) -> bytes)

  function Intercepted(frame: bytes): bool {
    Parse(frame).Ok? && Classify(Parse(frame).value).Some?
  }

  function CreatesContext(frame: bytes): bool {
    Intercepted(frame) && Classify(Parse(frame).value).value.what.CreateInputContext?
  }

  // The reply to an intercepted frame, for a context id and an already bumped serial.
  function ReplyTo(frame: bytes, ic: u64, serial: u32): bytes {
    if Intercepted(frame) then
      var request := Parse(frame).value;
      Encode(ReplyFrame(request, Classify(request).value.what, ic, serial))
    else []
  }

  function FcitxPolicy(): Policy {
    Policy(DeclaredFds, Intercepted, CreatesContext, ReplyTo)
  }

  // ---------------------------------------------------------------------
  // State and outputs
  // ---------------------------------------------------------------------

  datatype Conn = Conn(
    split: State,
    clientInFds: seq<Fd>,
    upstreamInFds: seq<Fd>,
    ic: u64,
    serial: u32,
    upstreamBuf: bytes)

  const ACCEPTED := Conn(INITIAL, [], [], 1, 0, [])

  // A packet queued for the client, with where it came from.
  datatype Entry =
    | FromBus(packet: OutPacket)
    | Reply(request: bytes, ic: u64, replySerial: u32)
    | Injected(signal: Frame, signalSerial: u32)

  function PacketOf(pol: Policy, e: Entry): OutPacket {
    match e
    case FromBus(p) => p
    case Reply(r, ic, n) => OutPacket(pol.reply(r, ic, n), [])
    case Injected(f, n) => OutPacket(Encode(f.(serial := n)), [])
  }

  function PacketsOf(pol: Policy, es: seq<Entry>): seq<OutPacket> {
    seq(|es|, i requires 0 <= i < |es| => PacketOf(pol, es[i]))
  }

  // ---------------------------------------------------------------------
  // Client to upstream
  // ---------------------------------------------------------------------

  function KeptPackets(pol: Policy, ps: seq<OutPacket>): seq<OutPacket> {
    FlatMap((p: OutPacket) => if pol.intercept(p.data) then [] else [p], ps)
  }

  function KeptFrames(pol: Policy, fs: seq<bytes>): seq<bytes> {
    FlatMap(KeepOne(pol), fs)
  }

  function KeepOne(pol: Policy): bytes -> seq<bytes> {
    (f: bytes) => if pol.intercept(f) then [] else [f]
  }

  function TakenFrames(pol: Policy, fs: seq<bytes>): seq<bytes> {
    FlatMap(TakeOne(pol), fs)
  }

  function TakeOne(pol: Policy): bytes -> seq<bytes> {
    (f: bytes) => if pol.intercept(f) then [f] else []
  }

  datatype Answered = Answered(entries: seq<Entry>, ic: u64, serial: u32)

  // One reply for each intercepted frame, in order.
  function AnswerAll(pol: Policy, fs: seq<bytes>, ic: u64, serial: u32): Answered
    decreases |fs|
  {
    if fs == [] then Answered([], ic, serial)
    else if !pol.intercept(fs[0]) then AnswerAll(pol, fs[1..], ic, serial)
    else
      var n := Bump(serial);
      var more := AnswerAll(pol, fs[1..], if pol.creates(fs[0]) then NextId(ic) else ic, n);
      more.(entries := [Reply(fs[0], ic, n)] + more.entries)
  }

  datatype ClientOut = ClientOut(conn: Conn, toUpstream: seq<OutPacket>, toClient: seq<Entry>)

  // One read from the client; None when the stream is malformed and the connection is closed.
  function ClientStep(pol: Policy, c: Conn, chunk: bytes, fds: seq<Fd>): Option<ClientOut> {
    match Feed(c.split, chunk)
    case (_, Err(_)) => None
    case (s', Ok(o)) =>
      var queue := c.clientInFds + fds;
      if o.frameRanges == [] then
        Some(ClientOut(c.(split := s', clientInFds := []), [OutPacket(o.outbound, queue)], []))
      else
        var frames := FramesOf(o.outbound, o.frameRanges);
        var a := Attach(pol.counts, frames, queue);
        var ans := AnswerAll(pol, frames, c.ic, c.serial);
        Some(ClientOut(c.(split := s', clientInFds := a.fds, ic := ans.ic, serial := ans.serial),
                       AuthTail(o) + KeptPackets(pol, a.packets),
                       ans.entries))
  }

  // Handshake bytes in front of the first frame go out as a packet of their own.
  function AuthTail(o: FeedOutcome): seq<OutPacket>
    requires o.frameRanges != []
  {
    var n := Min(o.frameRanges[0].start, |o.outbound|);
    if n > 0 then [OutPacket(o.outbound[..n], [])] else []
  }

  // ---------------------------------------------------------------------
  // Upstream to client, and injected signals
  // ---------------------------------------------------------------------

  function UpstreamStep(pol: Policy, c: Conn, r: Read): (Conn, seq<OutPacket>) {
    var queue := c.upstreamInFds + r.fds;
    if c.split.phase.Auth? then (c.(upstreamInFds := []), [OutPacket(r.data, queue)])
    else
      var d := Drain(pol.counts, c.upstreamBuf + r.data, queue);
      (c.(upstreamBuf := d.buf, upstreamInFds := d.fds), d.packets)
  }

  // ---------------------------------------------------------------------
  // Runs
  // ---------------------------------------------------------------------

  datatype Event = ClientRead(chunk: bytes, fds: seq<Fd>) | UpstreamRead(read: Read) | Emit(signal: Frame)

  // The connection and everything ever queued on its two sockets. The rest records the input:
  // the client's bytes, its reads after the handshake, and the bus's reads before and after it.
  datatype World = World(
    live: bool,
    conn: Conn,
    toClient: seq<Entry>,
    toUpstream: seq<OutPacket>,
    chunks: seq<bytes>,
    calls: seq<Read>,
    early: seq<Read>,
    late: seq<Read>)

  function Wrap(ps: seq<OutPacket>): (es: seq<Entry>)
    ensures |es| == |ps|
    ensures forall i :: 0 <= i < |ps| ==> es[i] == FromBus(ps[i])
  {
    seq(|ps|, i requires 0 <= i < |ps| => FromBus(ps[i]))
  }

  // The part of a client read that follows the handshake.
  function CallRead(s: State, chunk: bytes, fds: seq<Fd>): seq<Read> {
    if s.phase.Messages? then [Read(chunk, fds)]
    else
      match FindBeginEnd(s.authAccumulator + chunk)
      case Found(end) => [Read((s.authAccumulator + chunk)[end..], fds)]
      case _ => []
  }

  function Step(pol: Policy, w: World, ev: Event): World {
    if !w.live then w
    else
      match ev
      case ClientRead(chunk, fds) =>
        (match ClientStep(pol, w.conn, chunk, fds)
         case None => w.(live := false)
         case Some(o) =>
           w.(conn := o.conn,
              toUpstream := w.toUpstream + o.toUpstream,
              toClient := w.toClient + o.toClient,
              chunks := w.chunks + [chunk],
              calls := w.calls + CallRead(w.conn.split, chunk, fds)))
      case UpstreamRead(r) =>
        var (c, ps) := UpstreamStep(pol, w.conn, r);
        var w' := w.(conn := c, toClient := w.toClient + Wrap(ps));
        if w.conn.split.phase.Auth? then w'.(early := w.early + [r]) else w'.(late := w.late + [r])
      case Emit(f) =>
        var n := Bump(w.conn.serial);
        w.(conn := w.conn.(serial := n), toClient := w.toClient + [Injected(f, n)])
  }

  function Run(pol: Policy, events: seq<Event>): World
    decreases |events|
  {
    if events == [] then World(true, ACCEPTED, [], [], [], [], [], [])
    else Step(pol, Run(pol, events[..|events| - 1]), events[|events| - 1])
  }

  lemma {:induction false} KeptBytes(pol: Policy, ps: seq<OutPacket>, fs: seq<bytes>)
    requires Framed(ps, fs)
    ensures Bytes(KeptPackets(pol, ps)) == Concat(KeptFrames(pol, fs))
    decreases |fs|
  {
    if fs != [] {
      KeptBytes(pol, ps[1..], fs[1..]);
      if pol.intercept(fs[0]) {
        assert [] + KeptPackets(pol, ps[1..]) == KeptPackets(pol, ps[1..]);
        assert [] + KeptFrames(pol, fs[1..]) == KeptFrames(pol, fs[1..]);
      } else {
        BytesCons(ps[0], KeptPackets(pol, ps[1..]));
        ConcatCons(fs[0], KeptFrames(pol, fs[1..]));
      }
    }
  }

  // ---------------------------------------------------------------------
  // The client direction: handshake, then the frames that are not intercepted
  // ---------------------------------------------------------------------

  // The bytes sent upstream are those the splitter let through, minus the intercepted frames.
  ghost predicate Partition(pol: Policy, upstream: bytes, outbound: bytes, frames: seq<bytes>) {
    exists handshake :: HandshakeThenFrames(pol, upstream, outbound, frames, handshake)
  }

  ghost predicate HandshakeThenFrames(pol: Policy, upstream: bytes, outbound: bytes, frames: seq<bytes>,
          handshake: bytes) {
    && outbound == handshake + Concat(frames)
    && upstream == handshake + Concat(KeptFrames(pol, frames))
  }

  lemma ClientStepBytes(pol: Policy, c: Conn, chunk: bytes, fds: seq<Fd>)
    requires Valid(c.split) && ClientStep(pol, c, chunk, fds).Some?
    ensures var out, o := ClientStep(pol, c, chunk, fds).value, Feed(c.split, chunk).1.value;
            var fs := NewFrames(c.split, chunk);
            && out.conn.split == Feed(c.split, chunk).0
            && Valid(out.conn.split)
            && HandshakeThenFrames(pol, Bytes(out.toUpstream), o.outbound, fs,
                                   if o.frameRanges == [] then o.outbound else o.outbound[..AuthPart(c.split, chunk)])
            && (fs == [] <==> o.frameRanges == [])
            && (c.split.phase.Messages? ==> AuthPart(c.split, chunk) == 0)
  {
    var o, fs := Feed(c.split, chunk).1.value, NewFrames(c.split, chunk);
    FeedTiles(c.split, chunk);
    NewFramesAreRanges(c.split, chunk);
    if o.frameRanges == [] {
      BytesOne(OutPacket(o.outbound, c.clientInFds + fds));
      assert o.outbound + [] == o.outbound;
    } else {
      assert RangeOk(o.outbound, o.frameRanges, AuthPart(c.split, chunk), 0);
      FeedSplits(c.split, chunk);
      var a := Attach(pol.counts, fs, c.clientInFds + fds);
      AttachBytes(pol.counts, fs, c.clientInFds + fds);
      KeptBytes(pol, a.packets, fs);
      AuthTailBytes(o);
      BytesAppend(AuthTail(o), KeptPackets(pol, a.packets));
    }
  }

  lemma BytesOne(p: OutPacket)
    ensures Bytes([p]) == p.data
  {
    BytesCons(p, []);
    assert [p] + [] == [p] && p.data + [] == p.data;
  }

  lemma AuthTailBytes(o: FeedOutcome)
    requires o.frameRanges != [] && o.frameRanges[0].start <= |o.outbound|
    ensures Bytes(AuthTail(o)) == o.outbound[..o.frameRanges[0].start]
  {
    if o.frameRanges[0].start > 0 {
      BytesOne(AuthTail(o)[0]);
    }
  }

  // Handshake bytes, then exactly the new frames.
  lemma FeedSplits(s: State, chunk: bytes)
    requires Valid(s) && Feed(s, chunk).1.Ok? && Feed(s, chunk).1.value.frameRanges != []
    ensures var o := Feed(s, chunk).1.value;
            && AuthPart(s, chunk) <= |o.outbound|
            && o.outbound == o.outbound[..AuthPart(s, chunk)] + Concat(NewFrames(s, chunk))
  {
    if s.phase.Auth? && FindBeginEnd(s.authAccumulator + chunk).Found? {
      HandshakeFeed(s, chunk);
    }
  }

  // Only the splitter's own run matters for what goes upstream.
  ghost predicate Upstream(pol: Policy, run: FeedRun, split: State, upstream: bytes) {
    match run
    case Dead => false
    case Live(s, out, frames) =>
      && split == s
      && Valid(s)
      && (s.phase.Auth? ==> frames == [])
      && Partition(pol, upstream, out, frames)
  }

  ghost predicate UpstreamInv(pol: Policy, w: World) {
    Upstream(pol, RunFeeds(w.chunks), w.conn.split, Bytes(w.toUpstream))
  }

  lemma PartitionStep(pol: Policy, up: bytes, out: bytes, frames: seq<bytes>,
                      up': bytes, out': bytes, more: seq<bytes>, h': bytes)
    requires Partition(pol, up, out, frames) && HandshakeThenFrames(pol, up', out', more, h')
    requires frames == [] || h' == []
    ensures Partition(pol, up + up', out + out', frames + more)
  {
    var h :| HandshakeThenFrames(pol, up, out, frames, h);
    FlatMapAppend(KeepOne(pol), frames, more);
    ConcatAppend(frames, more);
    ConcatAppend(KeptFrames(pol, frames), KeptFrames(pol, more));
    if frames == [] {
      JoinHandshakes(h, h', Concat(more));
      JoinHandshakes(h, h', Concat(KeptFrames(pol, more)));
      assert [] + more == more;
      assert HandshakeThenFrames(pol, up + up', out + out', frames + more, h + h');
    } else {
      JoinFrames(h, Concat(frames), Concat(more));
      JoinFrames(h, Concat(KeptFrames(pol, frames)), Concat(KeptFrames(pol, more)));
      assert HandshakeThenFrames(pol, up + up', out + out', frames + more, h);
    }
  }

  lemma JoinHandshakes(h: bytes, h': bytes, tail: bytes)
    ensures (h + []) + (h' + tail) == (h + h') + tail
  {}

  lemma JoinFrames(h: bytes, a: bytes, b: bytes)
    ensures (h + a) + ([] + b) == h + (a + b)
  {}

  lemma UpstreamInvStep(pol: Policy, w: World, chunk: bytes, fds: seq<Fd>)
    requires w.live && UpstreamInv(pol, w) && ClientStep(pol, w.conn, chunk, fds).Some?
    ensures UpstreamInv(pol, Step(pol, w, ClientRead(chunk, fds)))
  {
    var out := ClientStep(pol, w.conn, chunk, fds).value;
    StepClientRead(pol, w, chunk, fds);
    ClientStepBytes(pol, w.conn, chunk, fds);
    RunFeedsSnoc(w.chunks, chunk);
    BytesAppend(w.toUpstream, out.toUpstream);
    UpstreamGrows(pol, w.conn, Bytes(w.toUpstream), RunFeeds(w.chunks), chunk, fds);
  }

  lemma StepClientRead(pol: Policy, w: World, chunk: bytes, fds: seq<Fd>)
    requires w.live && ClientStep(pol, w.conn, chunk, fds).Some?
    ensures var w', o := Step(pol, w, ClientRead(chunk, fds)), ClientStep(pol, w.conn, chunk, fds).value;
            && w'.chunks == w.chunks + [chunk]
            && w'.calls == w.calls + CallRead(w.conn.split, chunk, fds)
            && w'.conn == o.conn
            && w'.toUpstream == w.toUpstream + o.toUpstream
            && w'.toClient == w.toClient + o.toClient
  {}

  lemma UpstreamGrows(pol: Policy, c: Conn, upstream: bytes, run: FeedRun, chunk: bytes, fds: seq<Fd>)
    requires Upstream(pol, run, c.split, upstream) && ClientStep(pol, c, chunk, fds).Some?
    ensures var out, o := ClientStep(pol, c, chunk, fds).value, Feed(c.split, chunk).1.value;
            Upstream(pol, Live(out.conn.split, run.outbound + o.outbound, run.frames + NewFrames(c.split, chunk)),
                     out.conn.split, upstream + Bytes(out.toUpstream))
  {
    var s := c.split;
    var out, o, more := ClientStep(pol, c, chunk, fds).value, Feed(s, chunk).1.value, NewFrames(s, chunk);
    ClientStepBytes(pol, c, chunk, fds);
    var h := if o.frameRanges == [] then o.outbound else o.outbound[..AuthPart(s, chunk)];
    if s.phase.Messages? {
      FeedTiles(s, chunk);
      MessagesOutbound(s, chunk);
    } else if out.conn.split.phase.Auth? {
      StillAuth(s, chunk);
    }
    PartitionStep(pol, upstream, run.outbound, run.frames, Bytes(out.toUpstream), o.outbound, more, h);
  }

  lemma StillAuth(s: State, chunk: bytes)
    requires Feed(s, chunk).1.Ok? && Feed(s, chunk).0.phase.Auth?
    ensures NewFrames(s, chunk) == []
  {}

  lemma RunFeedsSnoc(chunks: seq<bytes>, chunk: bytes)
    requires RunFeeds(chunks).Live? && Feed(RunFeeds(chunks).state, chunk).1.Ok?
    ensures var run := RunFeeds(chunks);
            var (s', r) := Feed(run.state, chunk);
            RunFeeds(chunks + [chunk]) == Live(s', run.outbound + r.value.outbound,
                run.frames + NewFrames(run.state, chunk))
  {
    assert (chunks + [chunk])[..|chunks|] == chunks;
  }

  lemma MessagesOutbound(s: State, chunk: bytes)
    requires s.phase.Messages? && Feed(s, chunk).1.Ok?
    ensures var o := Feed(s, chunk).1.value;
            && o.outbound == Concat(NewFrames(s, chunk))
            && (o.frameRanges == [] ==> o.outbound == [])
  {
    var fs := NewFrames(s, chunk);
    assert [] + Concat(fs) == Concat(fs);
  }

  lemma {:induction false} RunUpstreamInv(pol: Policy, events: seq<Event>)
    ensures UpstreamInv(pol, Run(pol, events))
    decreases |events|
  {
    if events == [] {
      assert RunFeeds([]) == Live(INITIAL, [], []);
      assert HandshakeThenFrames(pol, [], [], [], []);
    } else {
      var w, ev := Run(pol, events[..|events| - 1]), events[|events| - 1];
      RunUpstreamInv(pol, events[..|events| - 1]);
      if w.live && ev.ClientRead? && ClientStep(pol, w.conn, ev.chunk, ev.fds).Some? {
        UpstreamInvStep(pol, w, ev.chunk, ev.fds);
      }
    }
  }

  // Over every run, whatever else is interleaved: until the handshake is complete, everything the
  // client sent was queued upstream; from then on, what was queued is the handshake followed by
  // the frames that are not intercepted, in order.
  lemma ClientPumpPartition(pol: Policy, events: seq<Event>)
    ensures var w := Run(pol, events);
            var stream := Concat(w.chunks);
            match FindBeginEnd(stream)
            case Failed(_) => false
            case Incomplete => Bytes(w.toUpstream) == stream
            case Found(end) =>
              && Cut(stream[end..]).bad.None?
              && w.conn.split.msgBuf == Cut(stream[end..]).rest
              && Bytes(w.toUpstream) == stream[..end] + Concat(KeptFrames(pol, Cut(stream[end..]).frames))
  {
    var w := Run(pol, events);
    var stream := Concat(w.chunks);
    RunUpstreamInv(pol, events);
    LiveRunIsWhole(w.chunks);
    var run := RunFeeds(w.chunks);
    var h :| HandshakeThenFrames(pol, Bytes(w.toUpstream), run.outbound, run.frames, h);
    if FindBeginEnd(stream).Found? {
      SameHead(h, stream[..FindBeginEnd(stream).end], Concat(run.frames));
    } else {
      assert KeptFrames(pol, []) == [] && h + [] == h;
    }
  }

  lemma SameHead(a: bytes, b: bytes, tail: bytes)
    requires a + tail == b + tail
    ensures a == b
  {
    assert |a| == |b|;
    assert a == (a + tail)[..|a|] && b == (b + tail)[..|b|];
  }

  // ---------------------------------------------------------------------
  // The bus direction: every byte the bus sent, frame by frame
  // ---------------------------------------------------------------------

  function BusPacket(e: Entry): seq<OutPacket> {
    if e.FromBus? then [e.packet] else []
  }

  function BusPackets(es: seq<Entry>): seq<OutPacket> {
    FlatMap(BusPacket, es)
  }

  // Before authentication every read is forwarded as it came, with its descriptors.
  function RawPackets(early: seq<Read>): (ps: seq<OutPacket>)
    ensures |ps| == |early|
    ensures forall i :: 0 <= i < |early| ==> ps[i] == OutPacket(early[i].data, early[i].fds)
  {
    seq(|early|, i requires 0 <= i < |early| => OutPacket(early[i].data, early[i].fds))
  }

  ghost predicate BusInv(pol: Policy, w: World) {
    var d := UpstreamRun(pol.counts, w.late);
    && (w.conn.split.phase.Auth? ==> w.late == [])
    && w.conn.upstreamBuf == d.buf
    && w.conn.upstreamInFds == d.fds
    && BusPackets(w.toClient) == RawPackets(w.early) + d.packets
  }

  lemma {:induction false} WrapPackets(ps: seq<OutPacket>)
    ensures BusPackets(Wrap(ps)) == ps
    decreases |ps|
  {
    if ps != [] {
      WrapPackets(ps[1..]);
      assert Wrap(ps)[1..] == Wrap(ps[1..]);
    }
  }

  lemma {:induction false} NoBusPackets(es: seq<Entry>)
    requires forall i :: 0 <= i < |es| ==> !es[i].FromBus?
    ensures BusPackets(es) == []
    decreases |es|
  {
    if es != [] {
      NoBusPackets(es[1..]);
    }
  }

  lemma {:induction false} AnswersAreReplies(pol: Policy, fs: seq<bytes>, ic: u64, serial: u32)
    ensures forall i :: 0 <= i < |AnswerAll(pol, fs, ic, serial).entries| ==>
        AnswerAll(pol, fs, ic, serial).entries[i].Reply?
    decreases |fs|
  {
    if fs != [] {
      AnswersAreReplies(pol, fs[1..], if pol.intercept(fs[0]) && pol.creates(fs[0]) then NextId(ic) else ic,
                        if pol.intercept(fs[0]) then Bump(serial) else serial);
    }
  }

  lemma ClientKeepsBus(pol: Policy, c: Conn, chunk: bytes, fds: seq<Fd>)
    requires ClientStep(pol, c, chunk, fds).Some?
    ensures var o := ClientStep(pol, c, chunk, fds).value;
            && BusPackets(o.toClient) == []
            && o.conn.upstreamBuf == c.upstreamBuf && o.conn.upstreamInFds == c.upstreamInFds
            && (c.split.phase.Messages? ==> o.conn.split.phase.Messages?)
  {
    var o := Feed(c.split, chunk).1.value;
    if o.frameRanges != [] {
      var fs := FramesOf(o.outbound, o.frameRanges);
      AnswersAreReplies(pol, fs, c.ic, c.serial);
      NoBusPackets(AnswerAll(pol, fs, c.ic, c.serial).entries);
    }
  }

  lemma BusInvStep(pol: Policy, w: World, ev: Event)
    requires w.live && BusInv(pol, w)
    ensures BusInv(pol, Step(pol, w, ev))
  {
    match ev
    case ClientRead(chunk, fds) =>
      if ClientStep(pol, w.conn, chunk, fds).Some? {
        var o := ClientStep(pol, w.conn, chunk, fds).value;
        ClientKeepsBus(pol, w.conn, chunk, fds);
        FlatMapAppend(BusPacket, w.toClient, o.toClient);
        assert BusPackets(w.toClient) + [] == BusPackets(w.toClient);
      }
    case Emit(f) =>
      var e := Injected(f, Bump(w.conn.serial));
      FlatMapAppend(BusPacket, w.toClient, [e]);
      FlatMapOne(BusPacket, e);
      assert BusPackets(w.toClient) + [] == BusPackets(w.toClient);
    case UpstreamRead(r) =>
      var (c, ps) := UpstreamStep(pol, w.conn, r);
      WrapPackets(ps);
      FlatMapAppend(BusPacket, w.toClient, Wrap(ps));
      if w.conn.split.phase.Auth? {
        EarlyRead(w.early, r);
      } else {
        var late' := w.late + [r];
        assert late'[..|late'| - 1] == w.late;
        Assoc(RawPackets(w.early), UpstreamRun(pol.counts, w.late).packets, ps);
      }
  }

  lemma EarlyRead(early: seq<Read>, r: Read)
    ensures RawPackets(early) + [] + [OutPacket(r.data, [] + r.fds)] == RawPackets(early + [r]) + []
  {
    assert [] + r.fds == r.fds;
  }

  lemma {:induction false} RunBusInv(pol: Policy, events: seq<Event>)
    ensures BusInv(pol, Run(pol, events))
    decreases |events|
  {
    if events != [] {
      var w := Run(pol, events[..|events| - 1]);
      RunBusInv(pol, events[..|events| - 1]);
      if w.live {
        BusInvStep(pol, w, events[|events| - 1]);
      }
    }
  }

  lemma {:induction false} RawBytes(early: seq<Read>)
    ensures Bytes(RawPackets(early)) == ReadBytes(early)
    decreases |early|
  {
    if early != [] {
      var most, r := early[..|early| - 1], early[|early| - 1];
      RawBytes(most);
      assert RawPackets(early) == RawPackets(most) + [OutPacket(r.data, r.fds)];
      BytesAppend(RawPackets(most), [OutPacket(r.data, r.fds)]);
      BytesOne(OutPacket(r.data, r.fds));
    }
  }

  // Transparency in every run, malformed bus traffic included: the bus bytes queued for the
  // client and the bytes still buffered are exactly the bytes the bus sent.
  lemma UpstreamTransparency(pol: Policy, events: seq<Event>)
    ensures var w := Run(pol, events);
            Bytes(BusPackets(w.toClient)) + w.conn.upstreamBuf == ReadBytes(w.early) + ReadBytes(w.late)
  {
    var w := Run(pol, events);
    var d := UpstreamRun(pol.counts, w.late);
    RunBusInv(pol, events);
    RawBytes(w.early);
    UpstreamTransparent(pol.counts, w.late);
    BytesAppend(RawPackets(w.early), d.packets);
    Assoc(ReadBytes(w.early), Bytes(d.packets), d.buf);
  }

  // While the bus's post-authentication traffic has no malformed prefix, each of its packets is one
  // whole frame; so at any point of the client's queue the bus bytes queued so far end on a frame
  // boundary, and no reply or signal lands inside a frame.
  lemma NothingInsideAFrame(pol: Policy, events: seq<Event>, n: nat)
    requires n <= |Run(pol, events).toClient|
    requires Cut(ReadBytes(Run(pol, events).late)).bad.None?
    ensures var w := Run(pol, events);
            var before := BusPackets(w.toClient[..n]);
            var frames := Cut(ReadBytes(w.late)).frames;
            if |before| <= |w.early| then before == RawPackets(w.early)[..|before|]
            else && |before| - |w.early| <= |frames|
                 && Bytes(before) == ReadBytes(w.early) + Concat(frames[..|before| - |w.early|])
  {
    var w := Run(pol, events);
    RunBusInv(pol, events);
    UpstreamFramed(pol.counts, w.late);
    RawBytes(w.early);
    BusPacketsSplit(w.toClient, n);
    BusPrefixBytes(RawPackets(w.early), UpstreamRun(pol.counts, w.late).packets, Cut(ReadBytes(w.late)).frames,
                BusPackets(w.toClient[..n]), BusPackets(w.toClient[n..]));
  }

  lemma BusPacketsSplit(es: seq<Entry>, n: nat)
    requires n <= |es|
    ensures BusPackets(es) == BusPackets(es[..n]) + BusPackets(es[n..])
  {
    assert es == es[..n] + es[n..];
    FlatMapAppend(BusPacket, es[..n], es[n..]);
  }

  // Any prefix of raw packets followed by frames ends in the raw part or on a frame boundary.
  lemma BusPrefixBytes(raw: seq<OutPacket>, packets: seq<OutPacket>, frames: seq<bytes>, before: seq<OutPacket>,
          after: seq<OutPacket>)
    requires Framed(packets, frames) && raw + packets == before + after
    ensures |before| <= |raw| ==> before == raw[..|before|]
    ensures |before| > |raw| ==>
              && |before| - |raw| <= |frames|
              && Bytes(before) == Bytes(raw) + Concat(frames[..|before| - |raw|])
  {
    assert before == (raw + packets)[..|before|];
    if |before| > |raw| {
      var k := |before| - |raw|;
      assert before == raw + packets[..k];
      BytesAppend(raw, packets[..k]);
      FramedBytes(packets[..k], frames[..k]);
    }
  }

  lemma {:induction false} FramedBytes(ps: seq<OutPacket>, fs: seq<bytes>)
    requires Framed(ps, fs)
    ensures Bytes(ps) == Concat(fs)
    decreases |fs|
  {
    if fs != [] {
      FramedBytes(ps[1..], fs[1..]);
    }
  }
}
