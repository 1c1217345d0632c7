// File descriptors in the client-to-bus direction. A read that completes no frame passes every
// queued descriptor on at once; the results say when that is harmless and what it costs.

module ClientFds {
  import opened Prelude
  import opened Sasl
  import opened Splitter
  import opened Outbox
  import opened Attribution
  import opened Broker

  // A read with descriptors queued that completes no frame and lets no byte through: its
  // descriptors go onto a packet without bytes.
  predicate Strands(w: World, ev: Event) {
    && w.live
    && ev.ClientRead?
    && var r := Feed(w.conn.split, ev.chunk).1;
    && r.Ok?
    && r.value.frameRanges == []
    && r.value.outbound == []
    && w.conn.clientInFds + ev.fds != []
  }

  ghost predicate NeverStrands(pol: Policy, events: seq<Event>) {
    forall i :: 0 <= i < |events| ==> !StrandsAt(pol, events, i)
  }

  predicate StrandsAt(pol: Policy, events: seq<Event>, i: nat)
    requires i < |events|
  {
    Strands(Run(pol, events[..i]), events[i])
  }

  ghost predicate AllSendable(ps: seq<OutPacket>) {
    forall i :: 0 <= i < |ps| ==> Sendable(ps[i])
  }

  lemma AllSendableAppend(a: seq<OutPacket>, b: seq<OutPacket>)
    ensures AllSendable(a + b) <==> AllSendable(a) && AllSendable(b)
  {
    if AllSendable(a + b) {
      forall i | 0 <= i < |a| ensures Sendable(a[i]) {
        assert (a + b)[i] == a[i];
      }
      forall i | 0 <= i < |b| ensures Sendable(b[i]) {
        assert (a + b)[|a| + i] == b[i];
      }
    }
  }

  lemma WholeIsNotEmpty(f: bytes)
    requires WholeFrame(f)
    ensures f != []
  {}

  lemma {:induction false} KeptSendable(pol: Policy, ps: seq<OutPacket>, fs: seq<bytes>)
    requires Framed(ps, fs) && AllWhole(fs)
    ensures AllSendable(KeptPackets(pol, ps))
    ensures Solid(KeptPackets(pol, ps)) == KeptPackets(pol, ps)
    decreases |fs|
  {
    if fs != [] {
      KeptSendable(pol, ps[1..], fs[1..]);
      WholeIsNotEmpty(fs[0]);
      if pol.intercept(fs[0]) {
        assert [] + KeptPackets(pol, ps[1..]) == KeptPackets(pol, ps[1..]);
      } else {
        SolidCons(ps[0], KeptPackets(pol, ps[1..]));
      }
    }
  }

  lemma StepSendable(pol: Policy, w: World, chunk: bytes, fds: seq<Fd>)
    requires w.live && Splitter.Valid(w.conn.split) && ClientStep(pol, w.conn, chunk, fds).Some?
    ensures AllSendable(ClientStep(pol, w.conn, chunk, fds).value.toUpstream) <==> !Strands(w, ClientRead(chunk, fds))
  {
    var c := w.conn;
    var out, o, fs := ClientStep(pol, c, chunk, fds).value, Feed(c.split, chunk).1.value, NewFrames(c.split, chunk);
    NewFramesAreRanges(c.split, chunk);
    if o.frameRanges == [] {
      assert out.toUpstream[0] == OutPacket(o.outbound, c.clientInFds + fds);
    } else {
      var a := Attach(pol.counts, fs, c.clientInFds + fds);
      NewFramesWhole(c.split, chunk);
      AttachBytes(pol.counts, fs, c.clientInFds + fds);
      KeptSendable(pol, a.packets, fs);
      AllSendableAppend(AuthTail(o), KeptPackets(pol, a.packets));
    }
  }

  lemma {:induction false} SendableIff(pol: Policy, events: seq<Event>)
    ensures AllSendable(Run(pol, events).toUpstream) <==> NeverStrands(pol, events)
    decreases |events|
  {
    if events != [] {
      var most, ev := events[..|events| - 1], events[|events| - 1];
      var w := Run(pol, most);
      SendableIff(pol, most);
      RunUpstreamInv(pol, most);
      NeverStrandsSnoc(pol, events);
      if w.live && ev.ClientRead? && ClientStep(pol, w.conn, ev.chunk, ev.fds).Some? {
        StepSendable(pol, w, ev.chunk, ev.fds);
        AllSendableAppend(w.toUpstream, ClientStep(pol, w.conn, ev.chunk, ev.fds).value.toUpstream);
        StepClientRead(pol, w, ev.chunk, ev.fds);
      }
    }
  }

  lemma NeverStrandsSnoc(pol: Policy, events: seq<Event>)
    requires events != []
    ensures var n := |events| - 1;
            NeverStrands(pol, events) <==> NeverStrands(pol, events[..n]) && !Strands(Run(pol, events[..n]), events[n])
  {
    var n := |events| - 1;
    forall i | 0 <= i < n ensures StrandsAt(pol, events[..n], i) == StrandsAt(pol, events, i) {
      assert events[..n][..i] == events[..i];
    }
    assert StrandsAt(pol, events, n) == Strands(Run(pol, events[..n]), events[n]);
  }

  // What the client pump queued for the bus can be written out in full, by some kernel, exactly
  // when no read stranded descriptors: one such read stops the direction for good.
  lemma UpstreamDrainsIff(pol: Policy, events: seq<Event>)
    ensures CanDrain(Run(pol, events).toUpstream) <==> NeverStrands(pol, events)
  {
    CanDrainIff(Run(pol, events).toUpstream);
    SendableIff(pol, events);
  }

  // ---------------------------------------------------------------------
  // Attribution while no descriptor is queued on a frameless read
  // ---------------------------------------------------------------------

  // A read after which the handshake is complete, that completes no frame while descriptors are
  // queued. Every stranding read after the handshake is one.
  predicate Strays(w: World, ev: Event) {
    && w.live
    && ev.ClientRead?
    && var (s, r) := Feed(w.conn.split, ev.chunk);
    && r.Ok?
    && s.phase.Messages?
    && r.value.frameRanges == []
    && w.conn.clientInFds + ev.fds != []
  }

  predicate StraysAt(pol: Policy, events: seq<Event>, i: nat)
    requires i < |events|
  {
    Strays(Run(pol, events[..i]), events[i])
  }

  ghost predicate NeverStrays(pol: Policy, events: seq<Event>) {
    forall i :: 0 <= i < |events| ==> !StraysAt(pol, events, i)
  }

  // Packets with neither bytes nor descriptors are discarded unsent.
  function SolidOne(p: OutPacket): seq<OutPacket> {
    if p == OutPacket([], []) then [] else [p]
  }

  function Solid(ps: seq<OutPacket>): seq<OutPacket> {
    FlatMap(SolidOne, ps)
  }

  lemma SolidCons(p: OutPacket, ps: seq<OutPacket>)
    ensures Solid([p] + ps) == SolidOne(p) + Solid(ps)
  {
    assert ([p] + ps)[1..] == ps;
  }

  // The bus-bound packets are handshake packets, then the kept frames as the bus direction would
  // have attached them to the same reads.
  ghost predicate CallsInv(pol: Policy, w: World) {
    var d := UpstreamRun(pol.counts, w.calls);
    if w.conn.split.phase.Auth? then w.calls == [] && w.conn.clientInFds == []
    else
      && d.buf == w.conn.split.msgBuf
      && d.fds == w.conn.clientInFds
      && SolidSplit(Solid(w.toUpstream), KeptPackets(pol, d.packets))
  }

  ghost predicate SolidSplit(all: seq<OutPacket>, tail: seq<OutPacket>) {
    |tail| <= |all| && all[|all| - |tail|..] == tail
  }

  lemma SolidSplitGrows(a: seq<OutPacket>, tail: seq<OutPacket>, more: seq<OutPacket>)
    requires SolidSplit(a, tail)
    ensures SolidSplit(a + more, tail + more)
  {}

  // One feed after the handshake drains like a bus read of the same bytes.
  lemma CallStep(pol: Policy, c: Conn, chunk: bytes, fds: seq<Fd>, data: bytes)
    requires Splitter.Valid(c.split) && ClientStep(pol, c, chunk, fds).Some?
    requires Feed(c.split, chunk).0.phase.Messages?
    requires c.split.phase.Auth? ==> CallRead(c.split, chunk, fds) == [Read(data, fds)]
    requires c.split.phase.Messages? ==> data == c.split.msgBuf + chunk
    requires Feed(c.split, chunk).1.value.frameRanges == [] ==> c.clientInFds + fds == []
    ensures var o, d := ClientStep(pol, c, chunk, fds).value, Drain(pol.counts, data, c.clientInFds + fds);
            && o.conn.split.msgBuf == d.buf
            && o.conn.clientInFds == d.fds
            && SolidSplit(Solid(o.toUpstream), KeptPackets(pol, d.packets))
            && (c.split.phase.Messages? ==> Solid(o.toUpstream) == KeptPackets(pol, d.packets))
  {
    var o, fs := Feed(c.split, chunk).1.value, NewFrames(c.split, chunk);
    var queue := c.clientInFds + fds;
    FeedIsCut(c.split, chunk, data, fds);
    NewFramesAreRanges(c.split, chunk);
    ClientStepBytes(pol, c, chunk, fds);
    if o.frameRanges != [] {
      var kept := KeptPackets(pol, Attach(pol.counts, fs, queue).packets);
      NewFramesWhole(c.split, chunk);
      AttachBytes(pol.counts, fs, queue);
      KeptSendable(pol, Attach(pol.counts, fs, queue).packets, fs);
      FlatMapAppend(SolidOne, AuthTail(o), kept);
      if c.split.phase.Messages? {
        FeedTiles(c.split, chunk);
        assert RangeOk(o.outbound, o.frameRanges, 0, 0);
        assert [] + kept == kept;
      }
    } else if c.split.phase.Messages? {
      MessagesOutbound(c.split, chunk);
      FlatMapOne(SolidOne, OutPacket([], []));
    }
  }

  lemma FeedIsCut(s: State, chunk: bytes, data: bytes, fds: seq<Fd>)
    requires Splitter.Valid(s) && Feed(s, chunk).1.Ok? && Feed(s, chunk).0.phase.Messages?
    requires s.phase.Auth? ==> CallRead(s, chunk, fds) == [Read(data, fds)]
    requires s.phase.Messages? ==> data == s.msgBuf + chunk
    ensures Cut(data) == Tiling(NewFrames(s, chunk), Feed(s, chunk).0.msgBuf, None)
  {
    if s.phase.Auth? {
      HandshakeFeed(s, chunk);
      HandshakeSplits(s.authAccumulator, chunk);
    }
  }

  lemma CallsInvStep(pol: Policy, w: World, ev: Event)
    requires w.live && CallsInv(pol, w) && Splitter.Valid(w.conn.split) && !Strays(w, ev)
    ensures CallsInv(pol, Step(pol, w, ev))
  {
    if ev.ClientRead? && ClientStep(pol, w.conn, ev.chunk, ev.fds).Some? {
      ClientCallsInv(pol, w, ev.chunk, ev.fds);
    }
  }

  lemma ClientCallsInv(pol: Policy, w: World, chunk: bytes, fds: seq<Fd>)
    requires w.live && CallsInv(pol, w) && Splitter.Valid(w.conn.split) && !Strays(w, ClientRead(chunk, fds))
    requires ClientStep(pol, w.conn, chunk, fds).Some?
    ensures CallsInv(pol, Step(pol, w, ClientRead(chunk, fds)))
  {
    var o := ClientStep(pol, w.conn, chunk, fds).value;
    StepClientRead(pol, w, chunk, fds);
    if o.conn.split.phase.Messages? {
      CallsNowStep(pol, w, chunk, fds);
      CallsInvFrom(pol, Step(pol, w, ClientRead(chunk, fds)));
    } else {
      StillAuthCalls(pol, w.conn, chunk, fds);
    }
  }

  lemma CallsInvFrom(pol: Policy, w: World)
    requires w.conn.split.phase.Messages? && CallsNow(pol, w.calls, w.conn, Solid(w.toUpstream))
    ensures CallsInv(pol, w)
  {}

  lemma StillAuthCalls(pol: Policy, c: Conn, chunk: bytes, fds: seq<Fd>)
    requires ClientStep(pol, c, chunk, fds).Some? && ClientStep(pol, c, chunk, fds).value.conn.split.phase.Auth?
    ensures c.split.phase.Auth? && CallRead(c.split, chunk, fds) == []
    ensures ClientStep(pol, c, chunk, fds).value.conn.clientInFds == []
  {}

  lemma CallsNowStep(pol: Policy, w: World, chunk: bytes, fds: seq<Fd>)
    requires w.live && CallsInv(pol, w) && Splitter.Valid(w.conn.split) && !Strays(w, ClientRead(chunk, fds))
    requires ClientStep(pol, w.conn, chunk, fds).Some?
    requires ClientStep(pol, w.conn, chunk, fds).value.conn.split.phase.Messages?
    ensures var o := ClientStep(pol, w.conn, chunk, fds).value;
            CallsNow(pol, w.calls + CallRead(w.conn.split, chunk, fds), o.conn, Solid(w.toUpstream + o.toUpstream))
  {
    FlatMapAppend(SolidOne, w.toUpstream, ClientStep(pol, w.conn, chunk, fds).value.toUpstream);
    if w.conn.split.phase.Auth? {
      var data := CallRead(w.conn.split, chunk, fds)[0].data;
      FirstCallInv(pol, w, chunk, fds, data);
      assert [] + [Read(data, fds)] == [Read(data, fds)];
    } else {
      LaterCallInv(pol, w, chunk, fds);
    }
  }

  // What the pump and the reference have become after a read.
  ghost predicate CallsNow(pol: Policy, calls: seq<Read>, conn: Conn, solid: seq<OutPacket>) {
    var d := UpstreamRun(pol.counts, calls);
    && d.buf == conn.split.msgBuf
    && d.fds == conn.clientInFds
    && SolidSplit(solid, KeptPackets(pol, d.packets))
  }

  lemma FirstCallInv(pol: Policy, w: World, chunk: bytes, fds: seq<Fd>, data: bytes)
    requires w.live && CallsInv(pol, w) && Splitter.Valid(w.conn.split) && !Strays(w, ClientRead(chunk, fds))
    requires w.conn.split.phase.Auth? && ClientStep(pol, w.conn, chunk, fds).Some?
    requires ClientStep(pol, w.conn, chunk, fds).value.conn.split.phase.Messages?
    requires CallRead(w.conn.split, chunk, fds) == [Read(data, fds)]
    ensures var o := ClientStep(pol, w.conn, chunk, fds).value;
            CallsNow(pol, [Read(data, fds)], o.conn, Solid(w.toUpstream) + Solid(o.toUpstream))
  {
    CallStep(pol, w.conn, chunk, fds, data);
    FirstCall(pol.counts, data, fds);
    assert [] + fds == fds;
  }

  lemma LaterCallInv(pol: Policy, w: World, chunk: bytes, fds: seq<Fd>)
    requires w.live && CallsInv(pol, w) && Splitter.Valid(w.conn.split) && !Strays(w, ClientRead(chunk, fds))
    requires w.conn.split.phase.Messages? && ClientStep(pol, w.conn, chunk, fds).Some?
    ensures var o := ClientStep(pol, w.conn, chunk, fds).value;
            CallsNow(pol, w.calls + CallRead(w.conn.split, chunk, fds), o.conn,
                Solid(w.toUpstream) + Solid(o.toUpstream))
  {
    var o := ClientStep(pol, w.conn, chunk, fds).value;
    CallStep(pol, w.conn, chunk, fds, w.conn.split.msgBuf + chunk);
    CallsGrow(pol, w.calls, Read(chunk, fds), Solid(w.toUpstream), w.conn, o.conn, Solid(o.toUpstream));
  }

  lemma CallsGrow(pol: Policy, calls: seq<Read>, r: Read, solid: seq<OutPacket>, c: Conn, c': Conn,
          more: seq<OutPacket>)
    requires CallsNow(pol, calls, c, solid)
    requires var d := Drain(pol.counts, c.split.msgBuf + r.data, c.clientInFds + r.fds);
             c'.split.msgBuf == d.buf && c'.clientInFds == d.fds && more == KeptPackets(pol, d.packets)
    ensures CallsNow(pol, calls + [r], c', solid + more)
  {
    var before := UpstreamRun(pol.counts, calls).packets;
    var drained := Drain(pol.counts, c.split.msgBuf + r.data, c.clientInFds + r.fds).packets;
    assert (calls + [r])[..|calls|] == calls;
    KeptAppend(pol, before, drained);
    SolidSplitGrows(solid, KeptPackets(pol, before), more);
  }

  lemma KeptAppend(pol: Policy, a: seq<OutPacket>, b: seq<OutPacket>)
    ensures KeptPackets(pol, a + b) == KeptPackets(pol, a) + KeptPackets(pol, b)
  {
    FlatMapAppend((p: OutPacket) => if pol.intercept(p.data) then [] else [p], a, b);
  }

  lemma FirstCall(counts: Counts, data: bytes, fds: seq<Fd>)
    ensures UpstreamRun(counts, [Read(data, fds)]) == Drain(counts, data, fds)
  {
    assert [Read(data, fds)][..0] == [];
    var e := Drain(counts, [] + data, [] + fds);
    assert [] + data == data && [] + fds == fds;
    assert [] + e.packets == e.packets;
  }

  lemma {:induction false} RunCallsInv(pol: Policy, events: seq<Event>)
    requires NeverStrays(pol, events)
    ensures CallsInv(pol, Run(pol, events))
    decreases |events|
  {
    if events != [] {
      var n := |events| - 1;
      forall i | 0 <= i < n ensures !StraysAt(pol, events[..n], i) {
        assert events[..n][..i] == events[..i] && !StraysAt(pol, events, i);
      }
      RunCallsInv(pol, events[..n]);
      RunUpstreamInv(pol, events[..n]);
      assert !StraysAt(pol, events, n);
      if Run(pol, events[..n]).live {
        CallsInvStep(pol, Run(pol, events[..n]), events[n]);
      }
    }
  }

  // Attribution client to bus, over every run in which no read completes no frame while
  // descriptors are queued: the last packets queued for the bus are the client's frames that are
  // not intercepted, and every frame (intercepted ones included) was given its slice of the
  // arrived descriptors exactly when none was completed before its descriptors had arrived.
  lemma ClientFdAttribution(pol: Policy, events: seq<Event>)
    requires NeverStrays(pol, events)
    requires var w := Run(pol, events);
             w.conn.split.phase.Messages? && WellFormedStream(pol.counts, ReadBytes(w.calls))
    ensures var w := Run(pol, events);
            var d, frames := UpstreamRun(pol.counts, w.calls), Cut(ReadBytes(w.calls)).frames;
            && SolidSplit(Solid(w.toUpstream), KeptPackets(pol, d.packets))
            && d.fds == w.conn.clientInFds
            && (Sliced(pol.counts, d.packets, frames, ReadFds(w.calls)) <==> InTime(pol.counts, w.calls))
  {
    RunCallsInv(pol, events);
    FdAttributionIff(pol.counts, Run(pol, events).calls);
  }

  // `calls` is the client's stream after the handshake.
  ghost predicate CallsAre(w: World) {
    CallsOf(w.conn.split, Concat(w.chunks), w.calls)
  }

  ghost predicate CallsOf(s: State, stream: bytes, calls: seq<Read>) {
    match s.phase
    case Auth => s.authAccumulator == stream && calls == []
    case Messages => FindBeginEnd(stream).Found? && ReadBytes(calls) == stream[FindBeginEnd(stream).end..]
  }

  lemma CallsFeed(s: State, stream: bytes, calls: seq<Read>, chunk: bytes, fds: seq<Fd>)
    requires CallsOf(s, stream, calls) && Feed(s, chunk).1.Ok?
    ensures CallsOf(Feed(s, chunk).0, stream + chunk, calls + CallRead(s, chunk, fds))
  {
    if s.phase.Messages? {
      var end := FindBeginEnd(stream).end;
      ScanExtends(stream, chunk);
      assert (stream + chunk)[end..] == stream[end..] + chunk;
      assert (calls + [Read(chunk, fds)])[..|calls|] == calls;
    } else if FindBeginEnd(stream + chunk).Found? {
      var data := (stream + chunk)[FindBeginEnd(stream + chunk).end..];
      assert [Read(data, fds)][..0] == [];
      assert [] + data == data;
    }
  }

  lemma CallsAreStep(pol: Policy, w: World, chunk: bytes, fds: seq<Fd>)
    requires w.live && CallsAre(w) && ClientStep(pol, w.conn, chunk, fds).Some?
    ensures CallsAre(Step(pol, w, ClientRead(chunk, fds)))
  {
    StepClientRead(pol, w, chunk, fds);
    ConcatSnoc(w.chunks, chunk);
    CallsFeed(w.conn.split, Concat(w.chunks), w.calls, chunk, fds);
  }

  // What the attribution theorem calls the reads is the stream that followed the handshake.
  lemma {:induction false} CallsAreTheStream(pol: Policy, events: seq<Event>)
    ensures CallsAre(Run(pol, events))
    decreases |events|
  {
    if events != [] {
      var w, ev := Run(pol, events[..|events| - 1]), events[|events| - 1];
      CallsAreTheStream(pol, events[..|events| - 1]);
      if w.live && ev.ClientRead? && ClientStep(pol, w.conn, ev.chunk, ev.fds).Some? {
        CallsAreStep(pol, w, ev.chunk, ev.fds);
      }
    }
  }

  // A descriptor that arrives with the first byte of a message, ahead of the rest, stops the
  // direction for good.
  lemma SplitMessageStrands(pol: Policy, fd: Fd)
    ensures var events := [ClientRead([0] + BEGIN + CRLF, []), ClientRead(['l' as u8], [fd])];
            Run(pol, events).live && !CanDrain(Run(pol, events).toUpstream)
  {
    var first, second := ClientRead([0] + BEGIN + CRLF, []), ClientRead(['l' as u8], [fd]);
    var events := [first, second];
    var w := Run(pol, [first]);
    assert events[..1] == [first] && [first][..0] == [];
    BareHandshake();
    assert [] + first.chunk == first.chunk;
    HandshakeOnly(first.chunk);
    var o := Feed(INITIAL, first.chunk).1.value;
    assert ClientStep(pol, ACCEPTED, first.chunk, []) ==
           Some(ClientOut(ACCEPTED.(split := State(Messages, [], [])), [OutPacket(o.outbound, [] + [])], []));
    assert w == Step(pol, Run(pol, []), first);
    assert [] + ['l' as u8] == ['l' as u8];
    assert StrandsAt(pol, events, 1);
    UpstreamDrainsIff(pol, events);
  }

  lemma HandshakeOnly(h: bytes)
    requires FindBeginEnd(h) == Found(|h|)
    ensures Feed(INITIAL, h).0 == State(Messages, [], [])
    ensures Feed(INITIAL, h).1 == Ok(FeedOutcome(h, []))
  {
    assert [] + h == h && h[..|h|] == h && [] + h[|h|..] == [];
    assert h + Concat<u8>([]) == h;
  }

  lemma BareHandshake()
    ensures FindBeginEnd([0] + BEGIN + CRLF) == Found(8)
  {
    var h := [0] + BEGIN + CRLF;
    assert Unlines([BEGIN]) == BEGIN + CRLF + Unlines([BEGIN][1..]);
    assert HandshakeLines([BEGIN]);
    assert h == [0] + Unlines([BEGIN]) && h[..8] == h;
    FoundIffHandshake(h, 8);
  }
}
