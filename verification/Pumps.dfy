// The two pumps as the code runs them: one read each, frame by frame over mutable queues, then a
// flush. Each is proved to be one step of the broker model followed by `Flush`.

module Pumps {
  import opened Prelude
  import opened Frames
  import opened Splitter
  import opened Outbox
  import opened Attribution
  import opened Fcitx
  import opened Broker

  // ---------------------------------------------------------------------
  // One frame of the client pump
  // ---------------------------------------------------------------------

  // The client pump partway through the frames of a read.
  datatype Walk = Walk(fds: seq<Fd>, ic: u64, serial: u32, toUpstream: seq<OutPacket>, toClient: seq<Entry>)

  function WalkOne(pol: Policy, w: Walk, f: bytes): Walk {
    var (p, left) := AttachOne(pol.counts, f, w.fds);
    if pol.intercept(f) then
      var n := Bump(w.serial);
      Walk(left, if pol.creates(f) then NextId(w.ic) else w.ic, n, w.toUpstream, w.toClient + [Reply(f, w.ic, n)])
    else w.(fds := left, toUpstream := w.toUpstream + [p])
  }

  function WalkAll(pol: Policy, w: Walk, fs: seq<bytes>): Walk
    decreases |fs|
  {
    if fs == [] then w else WalkAll(pol, WalkOne(pol, w, fs[0]), fs[1..])
  }

  // Frame by frame is the same as attaching, filtering and answering the whole list.
  lemma {:induction false} WalkIsStep(pol: Policy, w: Walk, fs: seq<bytes>)
    ensures var a, ans := Attach(pol.counts, fs, w.fds), AnswerAll(pol, fs, w.ic, w.serial);
            WalkAll(pol, w, fs) ==
            Walk(a.fds, ans.ic, ans.serial, w.toUpstream + KeptPackets(pol, a.packets), w.toClient + ans.entries)
    decreases |fs|
  {
    if fs == [] {
      assert w.toUpstream + [] == w.toUpstream && w.toClient + [] == w.toClient;
    } else {
      var (p, left) := AttachOne(pol.counts, fs[0], w.fds);
      var next := WalkOne(pol, w, fs[0]);
      WalkIsStep(pol, next, fs[1..]);
      var a, ans := Attach(pol.counts, fs[1..], left), AnswerAll(pol, fs[1..], next.ic, next.serial);
      KeptCons(pol, p, a.packets);
      if pol.intercept(fs[0]) {
        Assoc(w.toClient, [Reply(fs[0], w.ic, Bump(w.serial))], ans.entries);
      } else {
        Assoc(w.toUpstream, [p], KeptPackets(pol, a.packets));
      }
    }
  }

  lemma KeptCons(pol: Policy, p: OutPacket, ps: seq<OutPacket>)
    ensures KeptPackets(pol, [p] + ps) ==
        if pol.intercept(p.data) then KeptPackets(pol, ps) else [p] + KeptPackets(pol, ps)
  {
    assert ([p] + ps)[1..] == ps;
    assert [] + KeptPackets(pol, ps) == KeptPackets(pol, ps);
  }

  // What the walk adds for one frame, in the terms of the code.
  lemma WalkFrame(w: Walk, msg: bytes)
    ensures var w' := WalkOne(FcitxPolicy(), w, msg);
            match Parse(msg)
            case Err(_) => w' == w.(fds := [], toUpstream := w.toUpstream + [OutPacket(msg, [])])
            case Ok(f) =>
              var n := Min(if f.headers.unixFds.Some? then f.headers.unixFds.value else 0, |w.fds|);
              match Classify(f)
              case None => w' == w.(fds := w.fds[n..], toUpstream := w.toUpstream + [OutPacket(msg, w.fds[..n])])
              case Some(call) =>
                var (reply, ic, serial) := BuildReply(f, call.what, w.ic, w.serial);
                var e := Reply(msg, w.ic, serial);
                && w' == Walk(w.fds[n..], ic, serial, w.toUpstream, w.toClient + [e])
                && PacketsOf(FcitxPolicy(), [e]) == [OutPacket(reply, [])]
  {}

  // ---------------------------------------------------------------------
  // One frame of the upstream pump
  // ---------------------------------------------------------------------

  lemma DrainStep(counts: Counts, buf: bytes, fds: seq<Fd>, total: nat)
    requires BytesNeeded(buf) == Ok(Some(total)) && total <= |buf|
    ensures var (p, left) := AttachOne(counts, buf[..total], fds);
            var e := Drain(counts, buf[total..], left);
            Drain(counts, buf, fds) == e.(packets := [p] + e.packets)
  {
    var f, t := buf[..total], Cut(buf[total..]);
    CutStep(buf, total);
    assert ([f] + t.frames)[1..] == t.frames;
    var (p, left) := AttachOne(counts, f, fds);
    var a := Attach(counts, t.frames, left);
    Assoc([p], a.packets, [OutPacket(t.rest, [])]);
  }

  lemma FramesOfAt(out: bytes, rs: seq<Range>, i: nat)
    requires i < |rs| && rs[i].start <= rs[i].end <= |out|
    ensures |FramesOf(out, rs)| == |rs| && FramesOf(out, rs)[i] == out[rs[i].start..rs[i].end]
    decreases |rs|
  {
    if i > 0 {
      FramesOfAt(out, rs[1..], i - 1);
    } else {
      FramesOfLength(out, rs);
    }
  }

  lemma {:induction false} FramesOfLength(out: bytes, rs: seq<Range>)
    ensures |FramesOf(out, rs)| == |rs|
    decreases |rs|
  {
    if rs != [] {
      FramesOfLength(out, rs[1..]);
    }
  }

  predicate InBoundsAt(out: bytes, r: Range) {
    r.start <= r.end <= |out|
  }

  ghost predicate InBounds(out: bytes, rs: seq<Range>) {
    forall i :: 0 <= i < |rs| ==> InBoundsAt(out, rs[i])
  }

  lemma RangesInBounds(out: bytes, rs: seq<Range>, start: nat)
    requires RangesOk(out, rs, start)
    ensures InBounds(out, rs)
    ensures rs != [] ==> rs[0].start == start
  {
    forall i | 0 <= i < |rs| ensures InBoundsAt(out, rs[i]) {
      assert RangeOk(out, rs, start, i);
    }
    if rs != [] {
      assert RangeOk(out, rs, start, 0);
    }
  }

  // Pops up to `n` descriptors off the front of the queue.
  method TakeFds(queue: seq<Fd>, n: nat) returns (taken: seq<Fd>, left: seq<Fd>)
    ensures taken == queue[..Min(n, |queue|)] && left == queue[Min(n, |queue|)..]
  {
    taken, left := [], queue;
    while |taken| < n && left != []
      invariant queue == taken + left && |taken| <= n
    {
      taken, left := taken + [left[0]], left[1..];
    }
  }

  class Connection {
    const state: ConnectionState
    const clientOut: PacketQueue
    const upstreamOut: PacketQueue
    var clientInFds: seq<Fd>
    var upstreamInFds: seq<Fd>
    var nextIc: u64
    var serialCounter: u32
    var upstreamBuf: bytes

    function Abstract(): Conn
      reads this, state
    {
      Conn(state.Abstract(), clientInFds, upstreamInFds, nextIc, serialCounter, upstreamBuf)
    }

    ghost predicate Valid()
      reads this, state
    {
      clientOut != upstreamOut && Splitter.Valid(state.Abstract())
    }

    constructor ()
      ensures Valid() && Abstract() == ACCEPTED
      ensures clientOut.packets == [] && upstreamOut.packets == []
      ensures fresh(state) && fresh(clientOut) && fresh(upstreamOut)
    {
      state := new ConnectionState();
      clientOut := new PacketQueue();
      upstreamOut := new PacketQueue();
      clientInFds, upstreamInFds, nextIc, serialCounter, upstreamBuf := [], [], 1, 0, [];
    }

    // Forwards, or answers and drops, one frame.
    method HandleFrame(msg: bytes, ghost w: Walk) returns (ghost w': Walk)
      requires clientOut != upstreamOut
      requires w.fds == clientInFds && w.ic == nextIc && w.serial == serialCounter
      modifies this, clientOut, upstreamOut
      ensures w' == WalkOne(FcitxPolicy(), w, msg)
      ensures w'.fds == clientInFds && w'.ic == nextIc && w'.serial == serialCounter
      ensures upstreamInFds == old(upstreamInFds) && upstreamBuf == old(upstreamBuf)
      ensures w.toUpstream <= w'.toUpstream && w.toClient <= w'.toClient
      ensures upstreamOut.packets == old(upstreamOut.packets) + w'.toUpstream[|w.toUpstream|..]
      ensures clientOut.packets == old(clientOut.packets) + PacketsOf(FcitxPolicy(), w'.toClient[|w.toClient|..])
    {
      w' := WalkOne(FcitxPolicy(), w, msg);
      WalkFrame(w, msg);
      var parsed := Parse(msg);
      match parsed {
        case Err(_) =>
          clientInFds := [];
          upstreamOut.Push(OutPacket(msg, []));
        case Ok(frame) =>
          var declared := if frame.headers.unixFds.Some? then frame.headers.unixFds.value else 0;
          var msgFds;
          msgFds, clientInFds := TakeFds(clientInFds, declared);
          var call := Classify(frame);
          if call.Some? {
            var (reply, ic, serial) := BuildReply(frame, call.value.what, nextIc, serialCounter);
            clientOut.Push(OutPacket(reply, []));
            nextIc, serialCounter := ic, serial;
          } else {
            upstreamOut.Push(OutPacket(msg, msgFds));
          }
      }
    }

    // One readable event on the client socket. The outcome is a step of the broker model; the
    // bytes then leave as far as the two kernels' answers allow.
    method PumpClientToUpstream(chunk: bytes, fds: seq<Fd>, upScript: seq<KernelAnswer>,
            clientScript: seq<KernelAnswer>)
      returns (ok: bool)
      requires Valid()
      modifies this, state, clientOut, upstreamOut
      ensures ok ==> Valid()
      ensures ClientPumped(ClientStep(FcitxPolicy(), old(Abstract()), chunk, fds), NewFrames(old(state.Abstract()),
          chunk) != [],
                           old(upstreamOut.packets), old(clientOut.packets), upScript, clientScript,
                           Abstract(), upstreamOut.packets, clientOut.packets, ok)
    {
      ghost var c := Abstract();
      ClientStepWalks(FcitxPolicy(), c, chunk, fds);
      clientInFds := clientInFds + fds;
      var fed := state.FeedFromClient(chunk);
      if fed.Err? {
        return false;
      }
      var out := fed.value;
      var status;
      ghost var sends, lost;
      if out.frameRanges == [] {
        upstreamOut.Push(OutPacket(out.outbound, clientInFds));
        clientInFds := [];
        status, sends, lost := upstreamOut.TryFlush(upScript);
        NothingForClient(FcitxPolicy(), old(clientOut.packets));
        return !status.Broken?;
      }
      if out.frameRanges[0].start > 0 {
        upstreamOut.Push(OutPacket(out.outbound[..out.frameRanges[0].start], []));
      }
      NothingForClient(FcitxPolicy(), old(upstreamOut.packets));
      assert upstreamOut.packets == old(upstreamOut.packets) + AuthTail(out);
      ghost var w := HandleFrames(out.outbound, out.frameRanges, Walk(clientInFds, nextIc, serialCounter, [], []));
      Assoc(old(upstreamOut.packets), AuthTail(out), w.toUpstream);
      status, sends, lost := upstreamOut.TryFlush(upScript);
      if status.Broken? {
        return false;
      }
      status, sends, lost := clientOut.TryFlush(clientScript);
      return !status.Broken?;
    }

    // The slow path: every message of a read, in order.
    method HandleFrames(out: bytes, ranges: seq<Range>, ghost w0: Walk) returns (ghost w: Walk)
      requires clientOut != upstreamOut
      requires InBounds(out, ranges)
      requires w0 == Walk(clientInFds, nextIc, serialCounter, [], [])
      modifies this, clientOut, upstreamOut
      ensures w == WalkAll(FcitxPolicy(), w0, FramesOf(out, ranges))
      ensures w.fds == clientInFds && w.ic == nextIc && w.serial == serialCounter
      ensures upstreamInFds == old(upstreamInFds) && upstreamBuf == old(upstreamBuf)
      ensures upstreamOut.packets == old(upstreamOut.packets) + w.toUpstream
      ensures clientOut.packets == old(clientOut.packets) + PacketsOf(FcitxPolicy(), w.toClient)
    {
      ghost var frames := FramesOf(out, ranges);
      w := w0;
      FramesOfLength(out, ranges);
      assert clientOut.packets + PacketsOf(FcitxPolicy(), []) == clientOut.packets;
      var i := 0;
      while i < |ranges|
        invariant i <= |ranges| == |frames|
        invariant WalkAll(FcitxPolicy(), w0, frames) == WalkAll(FcitxPolicy(), w, frames[i..])
        invariant w.fds == clientInFds && w.ic == nextIc && w.serial == serialCounter
        invariant upstreamInFds == old(upstreamInFds) && upstreamBuf == old(upstreamBuf)
        invariant upstreamOut.packets == old(upstreamOut.packets) + w.toUpstream
        invariant clientOut.packets == old(clientOut.packets) + PacketsOf(FcitxPolicy(), w.toClient)
      {
        var msg := ranges[i];
        assert InBoundsAt(out, ranges[i]);
        FramesOfAt(out, ranges, i);
        ghost var w' := HandleFrame(out[msg.start..msg.end], w);
        Extends(old(upstreamOut.packets), w.toUpstream, w'.toUpstream);
        PacketsExtend(FcitxPolicy(), old(clientOut.packets), w.toClient, w'.toClient);
        WalkNext(FcitxPolicy(), w, frames, i);
        w := w';
        i := i + 1;
      }
    }

    // One readable event on the bus socket.
    method PumpUpstreamToClient(r: Read, script: seq<KernelAnswer>) returns (ok: bool)
      requires Valid()
      modifies this, clientOut
      ensures Valid()
      ensures var (c, ps) := UpstreamStep(FcitxPolicy(), old(Abstract()), r);
              var flushed := Flush(old(clientOut.packets) + ps, script);
              && Abstract() == c
              && clientOut.packets == flushed.queue
              && (ok <==> !flushed.status.Broken?)
    {
      upstreamInFds := upstreamInFds + r.fds;
      var status;
      ghost var sends, lost;
      if state.clientPhase.Auth? {
        clientOut.Push(OutPacket(r.data, upstreamInFds));
        upstreamInFds := [];
      } else {
        upstreamBuf := upstreamBuf + r.data;
        DrainFrames();
      }
      status, sends, lost := clientOut.TryFlush(script);
      return !status.Broken?;
    }

    // Forwards every complete frame of the receive buffer with its descriptors.
    method DrainFrames()
      modifies this`upstreamBuf, this`upstreamInFds, clientOut
      ensures var d := Drain(DeclaredFds, old(upstreamBuf), old(upstreamInFds));
              && upstreamBuf == d.buf && upstreamInFds == d.fds
              && clientOut.packets == old(clientOut.packets) + d.packets
    {
      ghost var done: seq<OutPacket> := [];
      assert [] + Drain(DeclaredFds, upstreamBuf, upstreamInFds).packets ==
          Drain(DeclaredFds, upstreamBuf, upstreamInFds).packets;
      assert clientOut.packets + [] == clientOut.packets;
      while true
        invariant DrainedSoFar(DeclaredFds, old(upstreamBuf), old(upstreamInFds), done, upstreamBuf, upstreamInFds)
        invariant clientOut.packets == old(clientOut.packets) + done
        decreases |upstreamBuf|
      {
        match BytesNeeded(upstreamBuf) {
          case Ok(None) =>
            assert done + [] == done;
            break;
          case Err(_) =>
            assert upstreamBuf != [];
            clientOut.Push(OutPacket(upstreamBuf, []));
            upstreamBuf, upstreamInFds := [], [];
            break;
          case Ok(Some(total)) =>
            if |upstreamBuf| < total {
              assert done + [] == done;
              break;
            }
            var msg := upstreamBuf[..total];
            DrainNext(DeclaredFds, old(upstreamBuf), old(upstreamInFds), done, upstreamBuf, upstreamInFds, total);
            upstreamBuf := upstreamBuf[total..];
            ghost var p := ForwardFrame(msg);
            Assoc(old(clientOut.packets), done, [p]);
            done := done + [p];
        }
      }
    }

    // One frame from the bus, with the descriptors it declares.
    method ForwardFrame(msg: bytes) returns (ghost p: OutPacket)
      modifies this`upstreamInFds, clientOut
      ensures (p, upstreamInFds) == AttachOne(DeclaredFds, msg, old(upstreamInFds))
      ensures clientOut.packets == old(clientOut.packets) + [p]
    {
      var parsed := Parse(msg);
      match parsed {
        case Err(_) =>
          p := OutPacket(msg, []);
          clientOut.Push(OutPacket(msg, []));
          upstreamInFds := [];
        case Ok(frame) =>
          var declared := if frame.headers.unixFds.Some? then frame.headers.unixFds.value else 0;
          var msgFds;
          msgFds, upstreamInFds := TakeFds(upstreamInFds, declared);
          p := OutPacket(msg, msgFds);
          clientOut.Push(OutPacket(msg, msgFds));
      }
    }
  }

  // `done` has been forwarded; draining what is left completes the drain of the whole buffer.
  ghost predicate DrainedSoFar(counts: Counts, buf0: bytes, fds0: seq<Fd>, done: seq<OutPacket>, buf: bytes,
          fds: seq<Fd>) {
    var d := Drain(counts, buf, fds);
    Drain(counts, buf0, fds0) == d.(packets := done + d.packets)
  }

  lemma DrainNext(counts: Counts, buf0: bytes, fds0: seq<Fd>, done: seq<OutPacket>, buf: bytes, fds: seq<Fd>,
          total: nat)
    requires DrainedSoFar(counts, buf0, fds0, done, buf, fds)
    requires BytesNeeded(buf) == Ok(Some(total)) && 0 < total <= |buf|
    ensures var (p, left) := AttachOne(counts, buf[..total], fds);
            DrainedSoFar(counts, buf0, fds0, done + [p], buf[total..], left)
  {
    DrainStep(counts, buf, fds, total);
    var (p, left) := AttachOne(counts, buf[..total], fds);
    Assoc(done, [p], Drain(counts, buf[total..], left).packets);
  }

  // After a client read: on a malformed stream nothing was queued; otherwise the step's packets
  // were queued and the bus socket flushed, and, after a read with frames whose flush went
  // through, the client's socket as well.
  ghost predicate ClientPumped(
    step: Option<ClientOut>, framed: bool,
    up0: seq<OutPacket>, client0: seq<OutPacket>, upScript: seq<KernelAnswer>, clientScript: seq<KernelAnswer>,
    conn: Conn, up: seq<OutPacket>, client: seq<OutPacket>, ok: bool)
  {
    match step
    case None => !ok && up == up0 && client == client0
    case Some(o) =>
      var u := Flush(up0 + o.toUpstream, upScript);
      var queued := client0 + PacketsOf(FcitxPolicy(), o.toClient);
      && conn == o.conn
      && up == u.queue
      && if !framed || u.status.Broken? then client == queued && (ok <==> !u.status.Broken?)
         else client == Flush(queued, clientScript).queue && (ok <==> !Flush(queued, clientScript).status.Broken?)
  }

  // A step of the model, with its frames walked one by one.
  lemma ClientStepWalks(pol: Policy, c: Conn, chunk: bytes, fds: seq<Fd>)
    requires Splitter.Valid(c.split)
    ensures ClientStep(pol, c, chunk, fds).None? <==> Feed(c.split, chunk).1.Err?
    ensures Feed(c.split, chunk).1.Ok? ==>
              var (s', r) := Feed(c.split, chunk);
              var o := r.value;
              && Splitter.Valid(s')
              && InBounds(o.outbound, o.frameRanges)
              && (NewFrames(c.split, chunk) == [] <==> o.frameRanges == [])
              && ClientStep(pol, c, chunk, fds).value ==
                 if o.frameRanges == [] then
                   ClientOut(c.(split := s', clientInFds := []), [OutPacket(o.outbound, c.clientInFds + fds)], [])
                 else
                   var w := WalkAll(pol, Walk(c.clientInFds + fds, c.ic, c.serial, [], []), FramesOf(o.outbound,
                       o.frameRanges));
                   ClientOut(c.(split := s', clientInFds := w.fds, ic := w.ic, serial := w.serial),
                             AuthTail(o) + w.toUpstream, w.toClient)
  {
    if Feed(c.split, chunk).1.Ok? {
      var o := Feed(c.split, chunk).1.value;
      var frames := FramesOf(o.outbound, o.frameRanges);
      FeedTiles(c.split, chunk);
      RangesInBounds(o.outbound, o.frameRanges, AuthPart(c.split, chunk));
      NewFramesAreRanges(c.split, chunk);
      FramesOfLength(o.outbound, o.frameRanges);
      if o.frameRanges != [] {
        WalkIsStep(pol, Walk(c.clientInFds + fds, c.ic, c.serial, [], []), frames);
        var kept, entries := KeptPackets(pol, Attach(pol.counts, frames, c.clientInFds + fds).packets),
            AnswerAll(pol, frames, c.ic, c.serial).entries;
        assert [] + kept == kept && [] + entries == entries;
      }
    }
  }

  lemma NothingForClient(pol: Policy, queue: seq<OutPacket>)
    ensures PacketsOf(pol, []) == [] && queue + [] == queue
  {}

  lemma Extends<T>(base: seq<T>, a: seq<T>, b: seq<T>)
    requires a <= b
    ensures (base + a) + b[|a|..] == base + b
  {}

  lemma PacketsExtend(pol: Policy, base: seq<OutPacket>, a: seq<Entry>, b: seq<Entry>)
    requires a <= b
    ensures (base + PacketsOf(pol, a)) + PacketsOf(pol, b[|a|..]) == base + PacketsOf(pol, b)
  {
    assert PacketsOf(pol, b) == PacketsOf(pol, a) + PacketsOf(pol, b[|a|..]);
  }

  lemma WalkNext(pol: Policy, w: Walk, fs: seq<bytes>, i: nat)
    requires i < |fs|
    ensures WalkAll(pol, w, fs[i..]) == WalkAll(pol, WalkOne(pol, w, fs[i]), fs[i + 1..])
  {
    assert fs[i..][0] == fs[i] && fs[i..][1..] == fs[i + 1..];
  }
}
