// The broker and its two sockets together: the pumps queue what the broker model says, and what
// leaves each socket is decided by the kernel's answers, over every interleaving.

module Sockets {
  import opened Prelude
  import opened Sasl
  import opened Splitter
  import opened Outbox
  import opened Attribution
  import opened Fcitx
  import opened Broker
  import opened Pumps

  // A pump or a signal with the answers of the sockets it flushes, or a socket becoming writable.
  datatype Action =
    | Pump(event: Event, upScript: seq<KernelAnswer>, clientScript: seq<KernelAnswer>)
    | FlushUpstream(script: seq<KernelAnswer>)
    | FlushClient(script: seq<KernelAnswer>)

  // The connection, and the history of what it queued for and sent on each socket.
  datatype System = System(world: World, bus: History, client: History)

  const FRESH := History(true, [], [], [], [], [])

  // A malformed stream or a hard error on either socket ends the connection.
  predicate Open(x: System) {
    x.world.live && x.bus.live && x.client.live
  }

  function QueueAll(h: History, ps: seq<OutPacket>): History {
    h.(log := h.log + ps, queue := h.queue + ps)
  }

  function FlushOut(h: History, script: seq<KernelAnswer>): History {
    QueueStep(h, TryFlush(script))
  }

  // The client's socket is flushed only after a read with frames that went through to the bus.
  function PumpClient(pol: Policy, x: System, chunk: bytes, fds: seq<Fd>, up: seq<KernelAnswer>,
          client: seq<KernelAnswer>): System {
    var w := Broker.Step(pol, x.world, ClientRead(chunk, fds));
    match ClientStep(pol, x.world.conn, chunk, fds)
    case None => x.(world := w)
    case Some(o) =>
      var bus := FlushOut(QueueAll(x.bus, o.toUpstream), up);
      var queued := QueueAll(x.client, PacketsOf(pol, o.toClient));
      var framed := NewFrames(x.world.conn.split, chunk) != [];
      System(w, bus, if framed && bus.live then FlushOut(queued, client) else queued)
  }

  function PumpBus(pol: Policy, x: System, r: Read, client: seq<KernelAnswer>): System {
    var ps := UpstreamStep(pol, x.world.conn, r).1;
    System(Broker.Step(pol, x.world, UpstreamRead(r)), x.bus, FlushOut(QueueAll(x.client, ps), client))
  }

  function PumpSignal(pol: Policy, x: System, e: Event, client: seq<KernelAnswer>): System
    requires e.Emit?
  {
    var p := PacketOf(pol, Injected(e.signal, Bump(x.world.conn.serial)));
    System(Broker.Step(pol, x.world, e), x.bus, FlushOut(QueueAll(x.client, [p]), client))
  }

  function Act(pol: Policy, x: System, a: Action): System {
    if !Open(x) then x
    else
      match a
      case Pump(ClientRead(chunk, fds), up, client) => PumpClient(pol, x, chunk, fds, up, client)
      case Pump(UpstreamRead(r), _, client) => PumpBus(pol, x, r, client)
      case Pump(Emit(f), _, client) => PumpSignal(pol, x, Emit(f), client)
      case FlushUpstream(script) => x.(bus := FlushOut(x.bus, script))
      case FlushClient(script) => x.(client := FlushOut(x.client, script))
  }

  function RunAll(pol: Policy, actions: seq<Action>): System
    decreases |actions|
  {
    if actions == [] then System(Broker.Run(pol, []), FRESH, FRESH)
    else Act(pol, RunAll(pol, actions[..|actions| - 1]), actions[|actions| - 1])
  }

  // The broker's events among the actions that came while the connection was open.
  function Happened(pol: Policy, actions: seq<Action>): seq<Event>
    decreases |actions|
  {
    if actions == [] then []
    else
      var n := |actions| - 1;
      var a := actions[n];
      Happened(pol, actions[..n]) + if Open(RunAll(pol, actions[..n])) && a.Pump? then [a.event] else []
  }

  lemma RunSnoc(pol: Policy, events: seq<Event>, e: Event)
    ensures Broker.Run(pol, events + [e]) == Broker.Step(pol, Broker.Run(pol, events), e)
  {
    assert (events + [e])[..|events|] == events;
  }

  lemma ActWorld(pol: Policy, x: System, a: Action)
    ensures Act(pol, x, a).world == if Open(x) && a.Pump? then Broker.Step(pol, x.world, a.event) else x.world
  {}

  // The sockets do not influence the broker: its state is that of a run of the broker alone.
  lemma {:induction false} WorldIsRun(pol: Policy, actions: seq<Action>)
    ensures RunAll(pol, actions).world == Broker.Run(pol, Happened(pol, actions))
    decreases |actions|
  {
    if actions != [] {
      var n := |actions| - 1;
      WorldIsRun(pol, actions[..n]);
      var done := Happened(pol, actions[..n]);
      ActWorld(pol, RunAll(pol, actions[..n]), actions[n]);
      if Open(RunAll(pol, actions[..n])) && actions[n].Pump? {
        RunSnoc(pol, done, actions[n].event);
      } else {
        assert Happened(pol, actions) == done + [] == done;
      }
    }
  }

  // ---------------------------------------------------------------------
  // One socket
  // ---------------------------------------------------------------------

  ghost predicate AllCarry(sends: seq<OutPacket>) {
    forall i :: 0 <= i < |sends| ==> sends[i].data != []
  }

  // What was sent, then lost, then is queued is the stream of all that was queued, and the sends are
  // what the kernel took.
  ghost predicate Sound(h: History) {
    && SameStream(0, h.log, h.sends, h.lost, h.queue)
    && (h.live ==> h.lost == [])
    && AllCarry(h.sends)
    && Answers(h)
  }

  lemma FreshIsSound()
    ensures Sound(FRESH)
  {
    SameStreamStill(0, []);
    assert Lengths([]) == [];
  }

  lemma {:induction false} QueueAllSound(h: History, ps: seq<OutPacket>)
    requires Sound(h) && h.lost == []
    ensures Sound(QueueAll(h, ps))
    decreases |ps|
  {
    if ps == [] {
      assert QueueAll(h, ps) == h;
    } else {
      var n := |ps| - 1;
      QueueAllSound(h, ps[..n]);
      var h1 := QueueAll(h, ps[..n]);
      EnqueueKeepsStream(h1.log, h1.sends, h1.queue, ps[n]);
      assert ps == ps[..n] + [ps[n]];
      Assoc(h.log, ps[..n], [ps[n]]);
      Assoc(h.queue, ps[..n], [ps[n]]);
    }
  }

  lemma FlushSound(h: History, script: seq<KernelAnswer>)
    requires Sound(h)
    ensures Sound(FlushOut(h, script))
  {
    if h.live {
      var r := Flush(h.queue, script);
      FlushKeepsStream(|Bytes(h.sends)|, h.queue, script);
      StreamsCompose(h.log, h.sends, h.queue, r);
      CarryJoin(h.sends, r.sends);
      FlushAnswers(h, script);
    }
  }

  lemma CarryJoin(a: seq<OutPacket>, b: seq<OutPacket>)
    requires AllCarry(a) && AllCarry(b)
    ensures AllCarry(a + b)
  {}

  // ---------------------------------------------------------------------
  // Both sockets
  // ---------------------------------------------------------------------

  ghost predicate Inv(pol: Policy, x: System) {
    && Sound(x.bus) && Sound(x.client)
    && x.bus.log == x.world.toUpstream
    && x.client.log == PacketsOf(pol, x.world.toClient)
  }

  lemma PacketsOfJoin(pol: Policy, a: seq<Entry>, b: seq<Entry>)
    ensures PacketsOf(pol, a + b) == PacketsOf(pol, a) + PacketsOf(pol, b)
  {}

  lemma PacketsOfWrap(pol: Policy, ps: seq<OutPacket>)
    ensures PacketsOf(pol, Wrap(ps)) == ps
  {}

  lemma PumpClientKeeps(pol: Policy, x: System, chunk: bytes, fds: seq<Fd>, up: seq<KernelAnswer>,
          client: seq<KernelAnswer>)
    requires Inv(pol, x) && Open(x)
    ensures Inv(pol, PumpClient(pol, x, chunk, fds, up, client))
  {
    match ClientStep(pol, x.world.conn, chunk, fds)
    case None =>
    case Some(o) =>
      StepClientRead(pol, x.world, chunk, fds);
      QueueAllSound(x.bus, o.toUpstream);
      FlushSound(QueueAll(x.bus, o.toUpstream), up);
      var ps := PacketsOf(pol, o.toClient);
      QueueAllSound(x.client, ps);
      FlushSound(QueueAll(x.client, ps), client);
      PacketsOfJoin(pol, x.world.toClient, o.toClient);
  }

  lemma PumpBusKeeps(pol: Policy, x: System, r: Read, client: seq<KernelAnswer>)
    requires Inv(pol, x) && Open(x)
    ensures Inv(pol, PumpBus(pol, x, r, client))
  {
    var ps := UpstreamStep(pol, x.world.conn, r).1;
    QueueAllSound(x.client, ps);
    FlushSound(QueueAll(x.client, ps), client);
    PacketsOfWrap(pol, ps);
    PacketsOfJoin(pol, x.world.toClient, Wrap(ps));
  }

  lemma PumpSignalKeeps(pol: Policy, x: System, e: Event, client: seq<KernelAnswer>)
    requires Inv(pol, x) && Open(x) && e.Emit?
    ensures Inv(pol, PumpSignal(pol, x, e, client))
  {
    var entry := Injected(e.signal, Bump(x.world.conn.serial));
    QueueAllSound(x.client, [PacketOf(pol, entry)]);
    FlushSound(QueueAll(x.client, [PacketOf(pol, entry)]), client);
    assert PacketsOf(pol, [entry]) == [PacketOf(pol, entry)];
    PacketsOfJoin(pol, x.world.toClient, [entry]);
  }

  lemma ActKeeps(pol: Policy, x: System, a: Action)
    requires Inv(pol, x)
    ensures Inv(pol, Act(pol, x, a))
  {
    if Open(x) {
      match a
      case Pump(e, up, client) => PumpKeeps(pol, x, e, up, client);
      case FlushUpstream(script) => FlushSound(x.bus, script);
      case FlushClient(script) => FlushSound(x.client, script);
    }
  }

  lemma PumpKeeps(pol: Policy, x: System, e: Event, up: seq<KernelAnswer>, client: seq<KernelAnswer>)
    requires Inv(pol, x) && Open(x)
    ensures Inv(pol, Act(pol, x, Pump(e, up, client)))
  {
    match e
    case ClientRead(chunk, fds) => PumpClientKeeps(pol, x, chunk, fds, up, client);
    case UpstreamRead(r) => PumpBusKeeps(pol, x, r, client);
    case Emit(f) => PumpSignalKeeps(pol, x, e, client);
  }

  lemma {:induction false} RunKeeps(pol: Policy, actions: seq<Action>)
    ensures Inv(pol, RunAll(pol, actions))
    decreases |actions|
  {
    if actions == [] {
      FreshIsSound();
    } else {
      RunKeeps(pol, actions[..|actions| - 1]);
      ActKeeps(pol, RunAll(pol, actions[..|actions| - 1]), actions[|actions| - 1]);
    }
  }

  // ---------------------------------------------------------------------
  // What arrives
  // ---------------------------------------------------------------------

  // What the bus is to receive of a client's stream: the handshake, then the frames that are not
  // intercepted.
  function ForBus(pol: Policy, stream: bytes): bytes {
    match FindBeginEnd(stream)
    case Found(end) => stream[..end] + Concat(KeptFrames(pol, Cut(stream[end..]).frames))
    case _ => stream
  }

  // Over every interleaving of pumps, signals and flushes, and every answer of the two kernels:
  // what the bus has received is, byte for byte, the front of what it is to receive of everything
  // the client sent, exactly as much of it as the kernel took; the rest is queued.
  lemma BusReceives(pol: Policy, actions: seq<Action>)
    ensures var x := RunAll(pol, actions);
            var all, n := ForBus(pol, Concat(x.world.chunks)), Sum(x.bus.taken);
            n <= |all| && Bytes(x.bus.sends) == all[..n] && Bytes(x.bus.queue) == all[n..]
  {
    RunKeeps(pol, actions);
    DeliveredIsPrefix(RunAll(pol, actions).bus);
    WorldIsRun(pol, actions);
    ClientPumpPartition(pol, Happened(pol, actions));
  }

  // The same for the client: it has received the front of what the broker queued, replies and
  // signals between whole bus frames, as much as the kernel took.
  lemma ClientReceives(pol: Policy, actions: seq<Action>)
    ensures var x := RunAll(pol, actions);
            var all, n := Bytes(PacketsOf(pol, x.world.toClient)), Sum(x.client.taken);
            n <= |all| && Bytes(x.client.sends) == all[..n] && Bytes(x.client.queue) == all[n..]
  {
    RunKeeps(pol, actions);
    DeliveredIsPrefix(RunAll(pol, actions).client);
  }

  lemma {:induction false} MarksWithin(ps: seq<OutPacket>, base: nat)
    ensures forall m :: m in Marks(ps, base) ==> base <= m.offset
    ensures AllCarry(ps) ==> forall m :: m in Marks(ps, base) ==> m.offset < base + |Bytes(ps)|
    decreases |ps|
  {
    if ps != [] {
      MarksWithin(ps[1..], base + |ps[0].data|);
      assert AllCarry(ps) ==> AllCarry(ps[1..]) && ps[0].data != [];
    }
  }

  // The descriptors of packet `k` travel with its first byte.
  lemma {:induction false} MarkOfPacket(ps: seq<OutPacket>, k: nat, base: nat)
    requires k < |ps| && ps[k].fds != []
    ensures Mark(base + |Bytes(ps[..k])|, ps[k].fds) in Marks(ps, base)
    decreases |ps|
  {
    if k > 0 {
      MarkOfPacket(ps[1..], k - 1, base + |ps[0].data|);
      assert ps[..k] == [ps[0]] + ps[1..][..k - 1];
      BytesCons(ps[0], ps[1..][..k - 1]);
    } else {
      assert Bytes(ps[..0]) == [];
    }
  }

  // On a socket that has not failed, a packet's descriptors are with the peer exactly when the
  // packet's first byte is, and otherwise still wait with that byte.
  lemma PacketTravels(h: History, k: nat)
    requires Sound(h) && h.live && k < |h.log| && h.log[k].fds != []
    ensures var m, cut := Mark(|Bytes(h.log[..k])|, h.log[k].fds), |Bytes(h.sends)|;
            && (m in Marks(h.sends, 0) <==> m.offset < cut)
            && (m in Marks(h.queue, cut) <==> m.offset >= cut)
  {
    var m, cut := Mark(|Bytes(h.log[..k])|, h.log[k].fds), |Bytes(h.sends)|;
    MarkOfPacket(h.log, k, 0);
    Unmarked(h.log, h.sends, h.queue);
    MarksWithin(h.sends, 0);
    MarksWithin(h.queue, cut);
    InOneOf(Marks(h.log, 0), Marks(h.sends, 0), Marks(h.queue, cut), m, cut);
  }

  lemma InOneOf(all: seq<Mark>, a: seq<Mark>, b: seq<Mark>, m: Mark, cut: nat)
    requires all == a + b && m in all
    requires (forall x :: x in a ==> x.offset < cut) && (forall x :: x in b ==> cut <= x.offset)
    ensures (m in a <==> m.offset < cut) && (m in b <==> m.offset >= cut)
  {}

  // Every run keeps each packet whole in that sense, in both directions: the frame of a packet
  // leaves with the descriptors it was given, on its first byte.
  lemma DescriptorsTravel(pol: Policy, actions: seq<Action>, k: nat)
    requires Open(RunAll(pol, actions))
    ensures var x := RunAll(pol, actions);
            && (k < |x.world.toUpstream| && x.world.toUpstream[k].fds != [] ==>
                  WithFirstByte(x.bus, x.world.toUpstream, k))
            && (var ps := PacketsOf(pol, x.world.toClient);
                k < |ps| && ps[k].fds != [] ==> WithFirstByte(x.client, ps, k))
  {
    var x := RunAll(pol, actions);
    RunKeeps(pol, actions);
    if k < |x.bus.log| && x.bus.log[k].fds != [] {
      PacketTravels(x.bus, k);
    }
    if k < |x.client.log| && x.client.log[k].fds != [] {
      PacketTravels(x.client, k);
    }
  }

  ghost predicate WithFirstByte(h: History, ps: seq<OutPacket>, k: nat)
    requires k < |ps|
  {
    var m, cut := Mark(|Bytes(ps[..k])|, ps[k].fds), |Bytes(h.sends)|;
    && (m in Marks(h.sends, 0) <==> m.offset < cut)
    && (m in Marks(h.queue, cut) <==> m.offset >= cut)
  }

  // ---------------------------------------------------------------------
  // The pumps of the code are these actions
  // ---------------------------------------------------------------------

  // What the client pump promises is what the action does to both queues, and it reports a failure
  // exactly when the action ends the connection.
  lemma ClientPumpIsAction(x: System, chunk: bytes, fds: seq<Fd>, up: seq<KernelAnswer>, client: seq<KernelAnswer>,
          conn: Conn, upQueue: seq<OutPacket>, clientQueue: seq<OutPacket>, ok: bool)
    requires Open(x)
    requires ClientPumped(ClientStep(FcitxPolicy(), x.world.conn, chunk, fds),
                          NewFrames(x.world.conn.split, chunk) != [],
                          x.bus.queue, x.client.queue, up, client, conn, upQueue, clientQueue, ok)
    ensures var x' := Act(FcitxPolicy(), x, Pump(ClientRead(chunk, fds), up, client));
            && upQueue == x'.bus.queue && clientQueue == x'.client.queue
            && (ok <==> Open(x'))
            && (x'.world.live ==> conn == x'.world.conn)
  {}
}
