// What the broker itself sends to the client: exactly one reply to every call it takes out of the
// stream, with fresh serials and fresh input contexts.

module Replies {
  import opened Prelude
  import opened Frames
  import opened Sasl
  import opened Splitter
  import opened Outbox
  import Wire
  import opened Decimal
  import opened Fcitx
  import opened FcitxCalls
  import opened Broker

  function RequestOf(e: Entry): seq<bytes> {
    if e.Reply? then [e.request] else []
  }

  function Requests(es: seq<Entry>): seq<bytes> {
    FlatMap(RequestOf, es)
  }

  function SerialOf(e: Entry): seq<u32> {
    match e
    case FromBus(_) => []
    case Reply(_, _, n) => [n]
    case Injected(_, n) => [n]
  }

  // The serials of everything the broker made up, replies and signals, in queue order.
  function Serials(es: seq<Entry>): seq<u32> {
    FlatMap(SerialOf, es)
  }

  function ContextOf(pol: Policy): Entry -> seq<u64> {
    (e: Entry) => if e.Reply? && pol.creates(e.request) then [e.ic] else []
  }

  // The contexts handed out, in queue order.
  function Contexts(pol: Policy, es: seq<Entry>): seq<u64> {
    FlatMap(ContextOf(pol), es)
  }

  // Serials are the successive bumps after `serial`; contexts the successive ids from `ic`.
  ghost predicate Fresh(pol: Policy, es: seq<Entry>, serial: u32, ic: u64, serial': u32, ic': u64) {
    && Chain(Bump, Bump(serial), Serials(es), Bump(serial'))
    && serial' == Bumps(serial, |Serials(es)|)
    && Chain(NextId, ic, Contexts(pol, es), ic')
  }

  lemma FreshNone(pol: Policy, serial: u32, ic: u64)
    ensures Fresh(pol, [], serial, ic, serial, ic)
  {}

  lemma FreshOne(pol: Policy, e: Entry, serial: u32, ic: u64)
    requires match e
             case FromBus(_) => false
             case Reply(_, i, n) => n == Bump(serial) && i == ic
             case Injected(_, n) => n == Bump(serial)
    ensures Fresh(pol, [e], serial, ic, Bump(serial), if e.Reply? && pol.creates(e.request) then NextId(ic) else ic)
  {
    FlatMapOne(SerialOf, e);
    FlatMapOne(ContextOf(pol), e);
    assert Iterate(Bump, serial, 1) == Bump(Iterate(Bump, serial, 0));
    assert Iterate(Bump, Bump(serial), 1) == Bump(Iterate(Bump, Bump(serial), 0));
    assert Iterate(NextId, ic, 1) == NextId(Iterate(NextId, ic, 0));
  }

  lemma FreshAppend(pol: Policy, a: seq<Entry>, b: seq<Entry>, serial: u32, ic: u64,
                    serial': u32, ic': u64, serial'': u32, ic'': u64)
    requires Fresh(pol, a, serial, ic, serial', ic') && Fresh(pol, b, serial', ic', serial'', ic'')
    ensures Fresh(pol, a + b, serial, ic, serial'', ic'')
  {
    FlatMapAppend(SerialOf, a, b);
    FlatMapAppend(ContextOf(pol), a, b);
    ChainAppend(Bump, Bump(serial), Serials(a), Bump(serial'), Serials(b), Bump(serial''));
    IterateSum(Bump, serial, |Serials(a)|, |Serials(b)|);
    ChainAppend(NextId, ic, Contexts(pol, a), ic', Contexts(pol, b), ic'');
  }

  lemma FreshBus(pol: Policy, ps: seq<OutPacket>, serial: u32, ic: u64)
    ensures Fresh(pol, Wrap(ps), serial, ic, serial, ic) && Requests(Wrap(ps)) == []
  {
    NothingMade(pol, Wrap(ps));
  }

  lemma {:induction false} NothingMade(pol: Policy, es: seq<Entry>)
    requires forall i :: 0 <= i < |es| ==> es[i].FromBus?
    ensures Serials(es) == [] && Contexts(pol, es) == [] && Requests(es) == []
    decreases |es|
  {
    if es != [] {
      NothingMade(pol, es[1..]);
    }
  }

  lemma {:induction false} AnswerIsFresh(pol: Policy, fs: seq<bytes>, ic: u64, serial: u32)
    ensures var a := AnswerAll(pol, fs, ic, serial);
            && Requests(a.entries) == TakenFrames(pol, fs)
            && Fresh(pol, a.entries, serial, ic, a.serial, a.ic)
    decreases |fs|
  {
    if fs == [] {
      FreshNone(pol, serial, ic);
    } else if !pol.intercept(fs[0]) {
      AnswerIsFresh(pol, fs[1..], ic, serial);
      assert [] + TakenFrames(pol, fs[1..]) == TakenFrames(pol, fs[1..]);
    } else {
      var e, ic', n := Reply(fs[0], ic, Bump(serial)), if pol.creates(fs[0]) then NextId(ic) else ic, Bump(serial);
      var more := AnswerAll(pol, fs[1..], ic', n);
      AnswerIsFresh(pol, fs[1..], ic', n);
      FreshOne(pol, e, serial, ic);
      FreshAppend(pol, [e], more.entries, serial, ic, n, ic', more.serial, more.ic);
      FlatMapAppend(RequestOf, [e], more.entries);
      FlatMapOne(RequestOf, e);
    }
  }

  ghost predicate ReplyInv(pol: Policy, w: World) {
    && RunFeeds(w.chunks).Live?
    && Requests(w.toClient) == TakenFrames(pol, RunFeeds(w.chunks).frames)
    && Fresh(pol, w.toClient, 0, 1, w.conn.serial, w.conn.ic)
  }

  lemma ClientStepFresh(pol: Policy, c: Conn, chunk: bytes, fds: seq<Fd>)
    requires Valid(c.split) && ClientStep(pol, c, chunk, fds).Some?
    ensures var o := ClientStep(pol, c, chunk, fds).value;
            && Requests(o.toClient) == TakenFrames(pol, NewFrames(c.split, chunk))
            && Fresh(pol, o.toClient, c.serial, c.ic, o.conn.serial, o.conn.ic)
  {
    var o := Feed(c.split, chunk).1.value;
    ClientStepBytes(pol, c, chunk, fds);
    NewFramesAreRanges(c.split, chunk);
    if o.frameRanges == [] {
      FreshNone(pol, c.serial, c.ic);
    } else {
      AnswerIsFresh(pol, FramesOf(o.outbound, o.frameRanges), c.ic, c.serial);
    }
  }

  lemma ReplyInvGrows(pol: Policy, w: World, es: seq<Entry>, more: seq<bytes>, serial: u32, ic: u64)
    requires ReplyInv(pol, w)
    requires Requests(es) == TakenFrames(pol, more) && Fresh(pol, es, w.conn.serial, w.conn.ic, serial, ic)
    ensures Requests(w.toClient + es) == TakenFrames(pol, RunFeeds(w.chunks).frames + more)
    ensures Fresh(pol, w.toClient + es, 0, 1, serial, ic)
  {
    FlatMapAppend(RequestOf, w.toClient, es);
    FlatMapAppend(TakeOne(pol), RunFeeds(w.chunks).frames, more);
    FreshAppend(pol, w.toClient, es, 0, 1, w.conn.serial, w.conn.ic, serial, ic);
  }

  lemma ReplyInvStep(pol: Policy, w: World, ev: Event)
    requires w.live && ReplyInv(pol, w) && UpstreamInv(pol, w)
    ensures ReplyInv(pol, Step(pol, w, ev))
  {
    match ev
    case ClientRead(chunk, fds) =>
      if ClientStep(pol, w.conn, chunk, fds).Some? {
        var o := ClientStep(pol, w.conn, chunk, fds).value;
        ClientStepFresh(pol, w.conn, chunk, fds);
        ReplyInvGrows(pol, w, o.toClient, NewFrames(w.conn.split, chunk), o.conn.serial, o.conn.ic);
        RunFeedsSnoc(w.chunks, chunk);
        StepClientRead(pol, w, chunk, fds);
      }
    case Emit(f) =>
      var e := Injected(f, Bump(w.conn.serial));
      FreshOne(pol, e, w.conn.serial, w.conn.ic);
      FlatMapOne(RequestOf, e);
      ReplyInvGrows(pol, w, [e], [], Bump(w.conn.serial), w.conn.ic);
      assert RunFeeds(w.chunks).frames + [] == RunFeeds(w.chunks).frames;
    case UpstreamRead(r) =>
      var ps := UpstreamStep(pol, w.conn, r).1;
      FreshBus(pol, ps, w.conn.serial, w.conn.ic);
      ReplyInvGrows(pol, w, Wrap(ps), [], w.conn.serial, w.conn.ic);
      assert RunFeeds(w.chunks).frames + [] == RunFeeds(w.chunks).frames;
  }

  lemma {:induction false} RunReplyInv(pol: Policy, events: seq<Event>)
    ensures ReplyInv(pol, Run(pol, events))
    decreases |events|
  {
    if events == [] {
      FreshNone(pol, 0, 1);
      assert RunFeeds([]) == Live(INITIAL, [], []);
    } else {
      var w := Run(pol, events[..|events| - 1]);
      RunReplyInv(pol, events[..|events| - 1]);
      RunUpstreamInv(pol, events[..|events| - 1]);
      if w.live {
        ReplyInvStep(pol, w, events[|events| - 1]);
      }
    }
  }

  // The client's frames so far: none until its handshake is complete.
  function ClientFrames(stream: bytes): seq<bytes> {
    match FindBeginEnd(stream)
    case Found(end) => Cut(stream[end..]).frames
    case _ => []
  }

  // Over every run, whatever else is interleaved: the replies queued for the client are, in
  // order, one for each intercepted frame of the client's stream.
  lemma EveryCallIsAnswered(pol: Policy, events: seq<Event>)
    ensures var w := Run(pol, events);
            Requests(w.toClient) == TakenFrames(pol, ClientFrames(Concat(w.chunks)))
  {
    RunReplyInv(pol, events);
    LiveRunIsWhole(Run(pol, events).chunks);
  }

  // The calls of the fcitx interface, and only they, are answered here: the frame of a call is
  // taken out of the stream and a reply to it is queued; a frame that is no such call is passed on.
  lemma CallsAreTaken(events: seq<Event>, f: Frame, m: Method, args: seq<Wire.Val>)
    requires Makes(f, m, args)
    requires Encode(f) in ClientFrames(Concat(Run(FcitxPolicy(), events).chunks))
    ensures var w := Run(FcitxPolicy(), events);
            && Encode(f) in Requests(w.toClient)
            && Encode(f) !in KeptFrames(FcitxPolicy(), ClientFrames(Concat(w.chunks)))
    ensures CreatesContext(Encode(f)) <==> m.CreateInputContext?
  {
    CallsAreRecognised(f, m, args);
    var fs := ClientFrames(Concat(Run(FcitxPolicy(), events).chunks));
    EveryCallIsAnswered(FcitxPolicy(), events);
    TakenOrKept(FcitxPolicy(), fs, Encode(f));
  }

  lemma OthersAreKept(events: seq<Event>, msg: bytes)
    requires msg in ClientFrames(Concat(Run(FcitxPolicy(), events).chunks))
    requires Parse(msg).Err? || forall m :: !IsCall(m, Parse(msg).value)
    ensures var w := Run(FcitxPolicy(), events);
            && msg in KeptFrames(FcitxPolicy(), ClientFrames(Concat(w.chunks)))
            && msg !in Requests(w.toClient)
  {
    if Parse(msg).Ok? && Classify(Parse(msg).value).Some? {
      ClassifiedIff(Parse(msg).value, Classify(Parse(msg).value).value.what);
    }
    var fs := ClientFrames(Concat(Run(FcitxPolicy(), events).chunks));
    EveryCallIsAnswered(FcitxPolicy(), events);
    TakenOrKept(FcitxPolicy(), fs, msg);
  }

  lemma {:induction false} TakenOrKept(pol: Policy, fs: seq<bytes>, f: bytes)
    ensures f in TakenFrames(pol, fs) <==> f in fs && pol.intercept(f)
    ensures f in KeptFrames(pol, fs) <==> f in fs && !pol.intercept(f)
  {
    if fs != [] {
      TakenOrKept(pol, fs[1..], f);
      assert fs == [fs[0]] + fs[1..];
    }
  }

  // Replies and injected signals share one serial sequence: none is zero, and any 2^32 - 1
  // consecutive ones are pairwise distinct.
  lemma BrokerSerials(pol: Policy, events: seq<Event>, j: nat, k: nat)
    requires j < k < |Serials(Run(pol, events).toClient)| && k - j < 0xFFFF_FFFF
    ensures var serials := Serials(Run(pol, events).toClient);
            serials[j] != 0 && serials[k] != 0 && serials[j] != serials[k]
  {
    SerialIs(pol, events, j);
    SerialIs(pol, events, k);
    SerialsAtDistinct(j, k);
  }

  lemma SerialsAtDistinct(j: nat, k: nat)
    requires j < k < j + 0xFFFF_FFFF
    ensures SerialAt(j) != 0 && SerialAt(k) != 0 && SerialAt(j) != SerialAt(k)
  {
    SerialsDistinct(0, j + 1, k + 1);
  }

  lemma SerialIs(pol: Policy, events: seq<Event>, k: nat)
    requires k < |Serials(Run(pol, events).toClient)|
    ensures Serials(Run(pol, events).toClient)[k] == SerialAt(k)
  {
    RunReplyInv(pol, events);
    IterateSum(Bump, 0, 1, k);
    assert Iterate(Bump, 0, 1) == Bump(Iterate(Bump, 0, 0));
  }

  // Input-context paths are pairwise distinct over any 2^64 - 1 consecutive allocations.
  lemma ContextsDistinct(pol: Policy, events: seq<Event>, j: nat, k: nat)
    requires j < k < |Contexts(pol, Run(pol, events).toClient)| && k - j < 0x1_0000_0000_0000_0000
    ensures var ids := Contexts(pol, Run(pol, events).toClient);
            ContextPath(ids[j]) != ContextPath(ids[k])
  {
    ContextIs(pol, events, j);
    ContextIs(pol, events, k);
    IdsDistinct(j, k);
    if ContextPath(IdAt(j)) == ContextPath(IdAt(k)) {
      ContextPathsDistinct(IdAt(j), IdAt(k));
    }
  }

  lemma ContextIs(pol: Policy, events: seq<Event>, k: nat)
    requires k < |Contexts(pol, Run(pol, events).toClient)|
    ensures Contexts(pol, Run(pol, events).toClient)[k] == IdAt(k)
  {
    RunReplyInv(pol, events);
  }

  // ---------------------------------------------------------------------
  // What the client reads out of a reply
  // ---------------------------------------------------------------------

  // `reply` answers `request`: a method return for its serial with the endpoints swapped, for
  // CreateInputContext with a body that decodes to the allocated path and uuid, and otherwise with
  // none.
  predicate IsAnswer(request: bytes, reply: bytes, serial: u32, ic: u64) {
    && Parse(request).Ok? && Parse(reply).Ok?
    && var q, a := Parse(request).value, Parse(reply).value;
    && a.kind == MethodReturn
    && a.serial == serial
    && AnswerHeaders(a.headers, q, if CreatesContext(request) then Some(Ascii("oay")) else None)
    && (!CreatesContext(request) ==> a.body == [])
    && (CreatesContext(request) ==> DecodeBody(a.endian, a.headers.signature, a.body) == Some(ContextResult(ic)))
  }

  lemma TakenIsWhole(f: bytes)
    requires WholeFrame(f)
    ensures |f| <= MAX_MESSAGE_SIZE
  {}

  lemma ReplyIsAnswer(f: bytes, ic: u64, serial: u32)
    requires WholeFrame(f) && Intercepted(f) && serial != 0
    ensures IsAnswer(f, ReplyTo(f, ic, serial), serial, ic)
  {
    var m := Classify(Parse(f).value).value.what;
    var before := if serial == 1 then 0 else serial - 1;
    TakenIsWhole(f);
    ReplyAnswers(f, m, ic, before);
    assert Bump(before) == serial;
  }

  // A reply entry found in the queue of a run is an answer to an intercepted frame.
  ghost predicate GoodEntry(e: Entry) {
    match e
    case Reply(r, ic, n) => WholeFrame(r) && Intercepted(r) && n != 0
    case _ => true
  }

  lemma {:induction false} AnswersAreGood(fs: seq<bytes>, ic: u64, serial: u32)
    requires AllWhole(fs)
    ensures forall i :: 0 <= i < |AnswerAll(FcitxPolicy(), fs, ic, serial).entries| ==>
        GoodEntry(AnswerAll(FcitxPolicy(), fs, ic, serial).entries[i])
    decreases |fs|
  {
    var pol := FcitxPolicy();
    if fs != [] {
      if pol.intercept(fs[0]) {
        AnswersAreGood(fs[1..], if pol.creates(fs[0]) then NextId(ic) else ic, Bump(serial));
      } else {
        AnswersAreGood(fs[1..], ic, serial);
      }
    }
  }

  lemma {:induction false} RunEntriesGood(events: seq<Event>, i: nat)
    requires i < |Run(FcitxPolicy(), events).toClient|
    ensures GoodEntry(Run(FcitxPolicy(), events).toClient[i])
    decreases |events|
  {
    var pol, most := FcitxPolicy(), events[..|events| - 1];
    var w, ev := Run(pol, most), events[|events| - 1];
    RunUpstreamInv(pol, most);
    if i < |w.toClient| {
      RunEntriesGood(most, i);
    } else if ev.ClientRead? {
      var o := Feed(w.conn.split, ev.chunk).1.value;
      NewFramesWhole(w.conn.split, ev.chunk);
      NewFramesAreRanges(w.conn.split, ev.chunk);
      AnswersAreGood(FramesOf(o.outbound, o.frameRanges), w.conn.ic, w.conn.serial);
    }
  }

  // Every reply the broker queues is one the client can match to its call.
  lemma RepliesAnswer(events: seq<Event>, i: nat)
    requires i < |Run(FcitxPolicy(), events).toClient| && Run(FcitxPolicy(), events).toClient[i].Reply?
    ensures var e := Run(FcitxPolicy(), events).toClient[i];
            IsAnswer(e.request, PacketOf(FcitxPolicy(), e).data, e.replySerial, e.ic)
  {
    var e := Run(FcitxPolicy(), events).toClient[i];
    RunEntriesGood(events, i);
    ReplyIsAnswer(e.request, e.ic, e.replySerial);
  }

  // ---------------------------------------------------------------------
  // Signals
  // ---------------------------------------------------------------------

  function SignalOf(e: Entry): seq<Frame> {
    if e.Injected? then [e.signal] else []
  }

  // The signals queued for the client, in queue order.
  function Signals(es: seq<Entry>): seq<Frame> {
    FlatMap(SignalOf, es)
  }

  // The signals emitted while the connection lived.
  function Emitted(pol: Policy, events: seq<Event>): seq<Frame>
    decreases |events|
  {
    if events == [] then []
    else
      var n := |events| - 1;
      var ev := events[n];
      Emitted(pol, events[..n]) + if Run(pol, events[..n]).live && ev.Emit? then [ev.signal] else []
  }

  lemma {:induction false} NoSignals(es: seq<Entry>)
    requires forall i :: 0 <= i < |es| ==> !es[i].Injected?
    ensures Signals(es) == []
    decreases |es|
  {
    if es != [] {
      NoSignals(es[1..]);
    }
  }

  lemma StepSignals(pol: Policy, w: World, ev: Event)
    requires w.live
    ensures Signals(Step(pol, w, ev).toClient) == Signals(w.toClient) + if ev.Emit? then [ev.signal] else []
  {
    match ev
    case ClientRead(chunk, fds) =>
      if ClientStep(pol, w.conn, chunk, fds).Some? {
        var es := ClientStep(pol, w.conn, chunk, fds).value.toClient;
        var o := Feed(w.conn.split, chunk).1.value;
        AnswersAreReplies(pol, FramesOf(o.outbound, o.frameRanges), w.conn.ic, w.conn.serial);
        StepClientRead(pol, w, chunk, fds);
        FlatMapAppend(SignalOf, w.toClient, es);
        NoSignals(es);
      }
    case Emit(f) =>
      FlatMapAppend(SignalOf, w.toClient, [Injected(f, Bump(w.conn.serial))]);
      FlatMapOne(SignalOf, Injected(f, Bump(w.conn.serial)));
    case UpstreamRead(r) =>
      var es := Wrap(UpstreamStep(pol, w.conn, r).1);
      FlatMapAppend(SignalOf, w.toClient, es);
      NoSignals(es);
  }

  // Over every run each emitted signal is queued once, in order.
  lemma {:induction false} SignalsAreQueued(pol: Policy, events: seq<Event>)
    ensures Signals(Run(pol, events).toClient) == Emitted(pol, events)
    decreases |events|
  {
    if events != [] {
      var n := |events| - 1;
      var w := Run(pol, events[..n]);
      SignalsAreQueued(pol, events[..n]);
      if w.live {
        StepSignals(pol, w, events[n]);
      }
    }
  }

  // And its packet parses as that signal, under the serial it was given.
  lemma SignalArrives(pol: Policy, f: Frame, n: u32)
    requires ValidHeaders(f.headers) && n != 0 && |Encode(f.(serial := n))| < 0x1_0000_0000
    ensures var p := PacketOf(pol, Injected(f, n));
            p.fds == [] && Parse(p.data) == Ok(f.(serial := n, headers := Normalize(f.headers)))
  {
    var g := f.(serial := n);
    assert Wire.At(Encode(g), 0, Encode(g));
    ParseEncode(g, Encode(g));
  }
}
