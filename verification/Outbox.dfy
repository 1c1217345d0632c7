// The write queue of one socket: packets of bytes, with file descriptors that ride on the first
// byte of their packet. The kernel is a finite list of answers to successive sendmsg calls.

module Outbox {
  import opened Prelude

  type Fd = nat

  datatype OutPacket = OutPacket(data: bytes, fds: seq<Fd>)

  // What one sendmsg call on a non-empty buffer may answer; after the list is used up the
  // socket would block.
  datatype KernelAnswer = Wrote(n: nat) | WouldBlock | Interrupted | HardError

  datatype Status = Flushed | Stalled | Broken

  // `sends` are the successful calls in order; `lost` the descriptors a hard error dropped.
  datatype FlushResult = FlushResult(status: Status, queue: seq<OutPacket>, sends: seq<OutPacket>, lost: seq<Fd>)

  function Min(a: nat, b: nat): nat {
    if a < b then a else b
  }

  function Flush(queue: seq<OutPacket>, script: seq<KernelAnswer>): FlushResult
    decreases |script|, |queue|
  {
    if queue == [] then FlushResult(Flushed, [], [], [])
    else
      var front, rest := queue[0], queue[1..];
      if front.data == [] && front.fds == [] then Flush(rest, script)
      else if front.data == [] || script == [] then FlushResult(Stalled, queue, [], [])
      else
        match script[0]
        case Wrote(k) =>
          var n := Min(k, |front.data|);
          if n == 0 then FlushResult(Stalled, queue, [], [])
          else AfterSend(OutPacket(front.data[..n], front.fds), Flush(Advance(queue, n), script[1..]))
        case WouldBlock => FlushResult(Stalled, queue, [], [])
        case Interrupted => Flush(queue, script[1..])
        case HardError => FlushResult(Broken, [OutPacket(front.data, [])] + rest, [], front.fds)
  }

  // The queue after `n` bytes of its front packet were written.
  function Advance(queue: seq<OutPacket>, n: nat): seq<OutPacket>
    requires queue != [] && n <= |queue[0].data|
  {
    if n == |queue[0].data| then queue[1..] else [OutPacket(queue[0].data[n..], [])] + queue[1..]
  }

  function AfterSend(sent: OutPacket, r: FlushResult): FlushResult {
    r.(sends := [sent] + r.sends)
  }

  // ---------------------------------------------------------------------
  // What the kernel took, from its answers and the sizes it was offered
  // ---------------------------------------------------------------------

  // What is left of one offered packet, and whether it still carries descriptors.
  datatype Offer = Offer(left: nat, carries: bool)

  // How a series of calls ended: nothing left to offer, a call that took nothing, a call that may
  // not be made, or a hard error.
  datatype Ending = Emptied | Refused | Errored

  datatype Taken = Taken(counts: seq<nat>, ending: Ending)

  function OfferOf(p: OutPacket): Offer {
    Offer(|p.data|, p.fds != [])
  }

  function Offers(queue: seq<OutPacket>): (os: seq<Offer>)
    ensures |os| == |queue|
  {
    seq(|queue|, i requires 0 <= i < |queue| => OfferOf(queue[i]))
  }

  // How many bytes each successful call took. Calls go on until one takes nothing or fails; an
  // interrupted one is made again. Descriptors leave with the first byte of their packet.
  function KernelTook(offers: seq<Offer>, script: seq<KernelAnswer>): Taken
    decreases |script|, |offers|
  {
    if offers == [] then Taken([], Emptied)
    else if offers[0].left == 0 then
      if offers[0].carries then Taken([], Refused) else KernelTook(offers[1..], script)
    else if script == [] then Taken([], Refused)
    else
      match script[0]
      case WouldBlock => Taken([], Refused)
      case HardError => Taken([], Errored)
      case Interrupted => KernelTook(offers, script[1..])
      case Wrote(k) =>
        if k == 0 then Taken([], Refused)
        else
          var n := if k < offers[0].left then k else offers[0].left;
          var more := KernelTook([Offer(offers[0].left - n, false)] + offers[1..], script[1..]);
          more.(counts := [n] + more.counts)
  }

  function Sum(ns: seq<nat>): nat {
    if ns == [] then 0 else ns[0] + Sum(ns[1..])
  }

  lemma {:induction false} SumAppend(a: seq<nat>, b: seq<nat>)
    ensures Sum(a + b) == Sum(a) + Sum(b)
  {
    if a == [] {
      assert a + b == b;
    } else {
      SumAppend(a[1..], b);
      assert (a + b)[1..] == a[1..] + b;
    }
  }

  // The counts a well-behaved kernel answers, up to the call that takes nothing or fails.
  function Answered(script: seq<KernelAnswer>): seq<nat> {
    if script == [] then []
    else
      match script[0]
      case Wrote(k) => if k == 0 then [] else [k] + Answered(script[1..])
      case Interrupted => Answered(script[1..])
      case _ => []
  }

  // No call takes more than it answers, and none is skipped; a call takes less only when its packet
  // had less left.
  lemma {:induction false} TookIsAnswered(offers: seq<Offer>, script: seq<KernelAnswer>)
    ensures var t := KernelTook(offers, script).counts;
            && |t| <= |Answered(script)|
            && (forall i :: 0 <= i < |t| ==> 0 < t[i] <= Answered(script)[i])
    decreases |script|, |offers|
  {
    if offers == [] || (offers[0].left == 0 && offers[0].carries) {
    } else if offers[0].left == 0 {
      TookIsAnswered(offers[1..], script);
    } else if script != [] {
      match script[0]
      case Wrote(k) =>
        if k > 0 {
          var n := if k < offers[0].left then k else offers[0].left;
          TookIsAnswered([Offer(offers[0].left - n, false)] + offers[1..], script[1..]);
        }
      case Interrupted => TookIsAnswered(offers, script[1..]);
      case _ =>
    }
  }

  function Lengths(ps: seq<OutPacket>): (ns: seq<nat>)
    ensures |ns| == |ps|
  {
    seq(|ps|, i requires 0 <= i < |ps| => |ps[i].data|)
  }

  function StatusOf(e: Ending): Status {
    match e
    case Emptied => Flushed
    case Refused => Stalled
    case Errored => Broken
  }

  lemma OffersRest(queue: seq<OutPacket>)
    requires queue != []
    ensures Offers(queue)[1..] == Offers(queue[1..])
  {}

  lemma LengthsCons(p: OutPacket, ps: seq<OutPacket>)
    ensures Lengths([p] + ps) == [|p.data|] + Lengths(ps)
  {}

  // What is left after a call is offered next; a packet that is through is not offered again.
  lemma OffersAdvance(queue: seq<OutPacket>, n: nat, script: seq<KernelAnswer>)
    requires queue != [] && 0 < n <= |queue[0].data|
    ensures KernelTook([Offer(|queue[0].data| - n, false)] + Offers(queue)[1..], script) ==
            KernelTook(Offers(Advance(queue, n)), script)
  {
    var q, rest := Advance(queue, n), [Offer(|queue[0].data| - n, false)] + Offers(queue)[1..];
    OffersRest(queue);
    if n == |queue[0].data| {
      assert rest[1..] == Offers(q);
    } else {
      assert rest == Offers(q);
    }
  }

  // Each send is exactly as long as the kernel took, and the flush reports how the calls ended.
  lemma {:induction false} FlushSendsWhatWasTaken(queue: seq<OutPacket>, script: seq<KernelAnswer>)
    ensures var r, t := Flush(queue, script), KernelTook(Offers(queue), script);
            Lengths(r.sends) == t.counts && r.status == StatusOf(t.ending)
    decreases |script|, |queue|
  {
    if queue != [] {
      var front, rest := queue[0], queue[1..];
      OffersRest(queue);
      if front.data == [] && front.fds == [] {
        FlushSendsWhatWasTaken(rest, script);
      } else if front.data != [] && script != [] {
        match script[0]
        case Wrote(k) =>
          var n := Min(k, |front.data|);
          if n > 0 {
            var r := Flush(Advance(queue, n), script[1..]);
            FlushSendsWhatWasTaken(Advance(queue, n), script[1..]);
            OffersAdvance(queue, n, script[1..]);
            LengthsCons(OutPacket(front.data[..n], front.fds), r.sends);
          }
        case WouldBlock =>
        case Interrupted => FlushSendsWhatWasTaken(queue, script[1..]);
        case HardError =>
      }
    }
  }

  // ---------------------------------------------------------------------
  // What a packet list puts on the stream
  // ---------------------------------------------------------------------

  // A group of descriptors and the stream offset of the byte it travels with.
  datatype Mark = Mark(offset: nat, fds: seq<Fd>)

  function Bytes(ps: seq<OutPacket>): bytes {
    if ps == [] then [] else ps[0].data + Bytes(ps[1..])
  }

  function MarkAt(offset: nat, fds: seq<Fd>): seq<Mark> {
    if fds == [] then [] else [Mark(offset, fds)]
  }

  function Marks(ps: seq<OutPacket>, base: nat): seq<Mark> {
    if ps == [] then [] else MarkAt(base, ps[0].fds) + Marks(ps[1..], base + |ps[0].data|)
  }

  lemma BytesCons(p: OutPacket, ps: seq<OutPacket>)
    ensures Bytes([p] + ps) == p.data + Bytes(ps)
  {
    assert ([p] + ps)[1..] == ps;
  }

  lemma MarksCons(p: OutPacket, ps: seq<OutPacket>, base: nat)
    ensures Marks([p] + ps, base) == MarkAt(base, p.fds) + Marks(ps, base + |p.data|)
  {
    assert ([p] + ps)[1..] == ps;
  }

  lemma {:induction false} BytesAppend(a: seq<OutPacket>, b: seq<OutPacket>)
    ensures Bytes(a + b) == Bytes(a) + Bytes(b)
    decreases |a|
  {
    if a == [] {
      assert a + b == b;
    } else {
      var p, more := a[0], a[1..];
      BytesAppend(more, b);
      assert a + b == [p] + (more + b);
      BytesCons(p, more + b);
      Assoc(p.data, Bytes(more), Bytes(b));
    }
  }

  lemma {:induction false} MarksAppend(a: seq<OutPacket>, b: seq<OutPacket>, base: nat)
    ensures Marks(a + b, base) == Marks(a, base) + Marks(b, base + |Bytes(a)|)
    decreases |a|
  {
    if a == [] {
      assert a + b == b;
    } else {
      var p, more := a[0], a[1..];
      var next := base + |p.data|;
      var x, y, z := MarkAt(base, p.fds), Marks(more, next), Marks(b, next + |Bytes(more)|);
      MarksAppend(more, b, next);
      ConsAppend(a, b);
      MarksCons(p, more + b, base);
      Assoc(x, y, z);
    }
  }

  lemma ConsAppend(a: seq<OutPacket>, b: seq<OutPacket>)
    requires a != []
    ensures a + b == [a[0]] + (a[1..] + b)
  {}

  // ---------------------------------------------------------------------
  // Exactly-once, in-order delivery
  // ---------------------------------------------------------------------

  // From stream offset `base` on: `sends`, then the descriptors `lost` at that point, then
  // `queue`, are exactly what `all` is: same bytes, and every descriptor group with the same byte.
  ghost predicate SameStream(base: nat, all: seq<OutPacket>, sends: seq<OutPacket>, lost: seq<Fd>,
          queue: seq<OutPacket>) {
    var cut := base + |Bytes(sends)|;
    && Bytes(all) == Bytes(sends) + Bytes(queue)
    && Marks(all, base) == Marks(sends, base) + (MarkAt(cut, lost) + Marks(queue, cut))
  }

  lemma NoMark(base: nat, marks: seq<Mark>)
    ensures MarkAt(base, []) + marks == marks && [] + marks == marks
  {}

  lemma SameStreamStill(base: nat, queue: seq<OutPacket>)
    ensures SameStream(base, queue, [], [], queue)
  {
    NoMark(base, Marks(queue, base));
    assert [] + Bytes(queue) == Bytes(queue);
  }

  lemma SendKeepsStream(base: nat, queue: seq<OutPacket>, n: nat, r: FlushResult)
    requires queue != [] && 0 < n <= |queue[0].data|
    requires SameStream(base + n, Advance(queue, n), r.sends, r.lost, r.queue)
    ensures var sent := OutPacket(queue[0].data[..n], queue[0].fds);
            SameStream(base, queue, [sent] + r.sends, r.lost, r.queue)
  {
    var front := queue[0];
    var sent := OutPacket(front.data[..n], front.fds);
    BytesCons(sent, r.sends);
    MarksCons(sent, r.sends, base);
    AdvanceStream(base, queue, n);
    Assoc(sent.data, Bytes(r.sends), Bytes(r.queue));
    var cut := base + n + |Bytes(r.sends)|;
    Assoc(MarkAt(base, front.fds), Marks(r.sends, base + n), MarkAt(cut, r.lost) + Marks(r.queue, cut));
  }

  lemma AdvanceStream(base: nat, queue: seq<OutPacket>, n: nat)
    requires queue != [] && 0 < n <= |queue[0].data|
    ensures Bytes(queue) == queue[0].data[..n] + Bytes(Advance(queue, n))
    ensures Marks(queue, base) == MarkAt(base, queue[0].fds) + Marks(Advance(queue, n), base + n)
  {
    AdvanceBytes(queue, n);
    AdvanceMarks(base, queue, n);
  }

  lemma AdvanceBytes(queue: seq<OutPacket>, n: nat)
    requires queue != [] && 0 < n <= |queue[0].data|
    ensures Bytes(queue) == queue[0].data[..n] + Bytes(Advance(queue, n))
  {
    var d, rest := queue[0].data, queue[1..];
    BytesCons(OutPacket(d[n..], []), rest);
    assert d == d[..n] + d[n..];
    Assoc(d[..n], d[n..], Bytes(rest));
    assert n == |d| ==> d[..n] == d;
  }

  lemma AdvanceMarks(base: nat, queue: seq<OutPacket>, n: nat)
    requires queue != [] && 0 < n <= |queue[0].data|
    ensures Marks(queue, base) == MarkAt(base, queue[0].fds) + Marks(Advance(queue, n), base + n)
  {
    AdvanceTail(base, queue, n);
  }

  // What the front packet still carries adds no mark.
  lemma AdvanceTail(base: nat, queue: seq<OutPacket>, n: nat)
    requires queue != [] && 0 < n <= |queue[0].data|
    ensures Marks(Advance(queue, n), base + n) == Marks(queue[1..], base + |queue[0].data|)
  {
    var d, rest := queue[0].data, queue[1..];
    if n < |d| {
      TailMarks(OutPacket(d[n..], []), rest, base + n);
    }
  }

  // What is left of a packet carries no descriptors any more.
  lemma TailMarks(p: OutPacket, rest: seq<OutPacket>, base: nat)
    requires p.fds == []
    ensures Marks([p] + rest, base) == Marks(rest, base + |p.data|)
  {
    MarksCons(p, rest, base);
    NoMark(base, Marks(rest, base + |p.data|));
  }

  // For every list of kernel answers: the bytes written and the bytes still queued are the bytes
  // that were queued, in order, and every descriptor group was sent once with the first byte of
  // its packet, or still waits with it. Only a hard error loses descriptors, those of the packet
  // it hit.
  lemma {:induction false} FlushKeepsStream(base: nat, queue: seq<OutPacket>, script: seq<KernelAnswer>)
    ensures var r := Flush(queue, script);
            && SameStream(base, queue, r.sends, r.lost, r.queue)
            && (r.lost != [] ==> r.status.Broken?)
            && (forall i :: 0 <= i < |r.sends| ==> r.sends[i].data != [])
    decreases |script|, |queue|
  {
    SameStreamStill(base, queue);
    if queue != [] {
      var front, rest := queue[0], queue[1..];
      if front.data == [] && front.fds == [] {
        FlushKeepsStream(base, rest, script);
        EmptyPacket(base, queue);
      } else if front.data != [] && script != [] {
        match script[0]
        case Wrote(k) =>
          var n := Min(k, |front.data|);
          if n > 0 {
            FlushKeepsStream(base + n, Advance(queue, n), script[1..]);
            SendKeepsStream(base, queue, n, Flush(Advance(queue, n), script[1..]));
          }
        case WouldBlock =>
        case Interrupted => FlushKeepsStream(base, queue, script[1..]);
        case HardError => DroppedFront(base, queue);
      }
    }
  }

  lemma EmptyPacket(base: nat, queue: seq<OutPacket>)
    requires queue != [] && queue[0].data == [] && queue[0].fds == []
    ensures Bytes(queue) == Bytes(queue[1..])
    ensures Marks(queue, base) == Marks(queue[1..], base)
  {
    NoMark(base, Marks(queue[1..], base));
    NoBytes(Bytes(queue[1..]));
  }

  lemma NoBytes(b: bytes)
    ensures [] + b == b
  {}

  lemma DroppedFront(base: nat, queue: seq<OutPacket>)
    requires queue != []
    ensures SameStream(base, queue, [], queue[0].fds, [OutPacket(queue[0].data, [])] + queue[1..])
  {
    var p, rest := OutPacket(queue[0].data, []), queue[1..];
    BytesCons(p, rest);
    MarksCons(p, rest, base);
    NoMark(base, Marks(rest, base + |p.data|));
    NoMark(base, Marks(queue, base));
    assert [] + Bytes(queue) == Bytes(queue);
  }

  lemma {:induction false} SumOfLengths(ps: seq<OutPacket>)
    ensures Sum(Lengths(ps)) == |Bytes(ps)|
  {
    if ps != [] {
      SumOfLengths(ps[1..]);
      assert [ps[0]] + ps[1..] == ps;
      LengthsCons(ps[0], ps[1..]);
    }
  }

  // The flush delivers exactly as many bytes as the kernel took, from the front of the stream,
  // and keeps the others.
  lemma FlushDeliversWhatWasTaken(queue: seq<OutPacket>, script: seq<KernelAnswer>)
    ensures var r, n := Flush(queue, script), Sum(KernelTook(Offers(queue), script).counts);
            && n <= |Bytes(queue)|
            && Bytes(r.sends) == Bytes(queue)[..n]
            && Bytes(r.queue) == Bytes(queue)[n..]
  {
    var r := Flush(queue, script);
    FlushSendsWhatWasTaken(queue, script);
    SumOfLengths(r.sends);
    FlushKeepsStream(0, queue, script);
    SplitAt(Bytes(queue), Bytes(r.sends), Bytes(r.queue));
  }

  lemma SplitAt(all: bytes, a: bytes, b: bytes)
    requires all == a + b
    ensures a == all[..|a|] && b == all[|a|..]
  {}

  // ---------------------------------------------------------------------
  // Whole runs of enqueuing and flushing
  // ---------------------------------------------------------------------

  datatype QueueEvent = Enqueue(packet: OutPacket) | TryFlush(script: seq<KernelAnswer>)

  // `log` is everything ever queued, and `taken` what the kernel took of it call by call; a hard
  // error ends the connection.
  datatype History = History(live: bool, log: seq<OutPacket>, sends: seq<OutPacket>, lost: seq<Fd>,
      queue: seq<OutPacket>, taken: seq<nat>)

  function QueueStep(h: History, ev: QueueEvent): History {
    if !h.live then h
    else
      match ev
      case Enqueue(p) => h.(log := h.log + [p], queue := h.queue + [p])
      case TryFlush(script) =>
        var r := Flush(h.queue, script);
        History(!r.status.Broken?, h.log, h.sends + r.sends, r.lost, r.queue,
                h.taken + KernelTook(Offers(h.queue), script).counts)
  }

  function QueueRun(events: seq<QueueEvent>): History
    decreases |events|
  {
    if events == [] then History(true, [], [], [], [], [])
    else QueueStep(QueueRun(events[..|events| - 1]), events[|events| - 1])
  }

  // The sends are what the kernel took, call by call.
  predicate Answers(h: History) {
    Lengths(h.sends) == h.taken
  }

  lemma FlushAnswers(h: History, script: seq<KernelAnswer>)
    requires Answers(h)
    ensures Answers(QueueStep(h, TryFlush(script)))
  {
    if h.live {
      FlushSendsWhatWasTaken(h.queue, script);
      LengthsAppend(h.sends, Flush(h.queue, script).sends);
    }
  }

  lemma LengthsAppend(a: seq<OutPacket>, b: seq<OutPacket>)
    ensures Lengths(a + b) == Lengths(a) + Lengths(b)
  {}

  // Over every run: the bytes delivered are the first ones of everything that was queued, as many
  // as the kernel took.
  lemma {:induction false} QueueRunDelivers(events: seq<QueueEvent>)
    ensures var h := QueueRun(events);
            && Answers(h)
            && Sum(h.taken) <= |Bytes(h.log)|
            && Bytes(h.sends) == Bytes(h.log)[..Sum(h.taken)]
            && Bytes(h.queue) == Bytes(h.log)[Sum(h.taken)..]
    decreases |events|
  {
    if events == [] {
      assert QueueRun(events).sends == [];
    } else {
      var h := QueueRun(events[..|events| - 1]);
      QueueRunDelivers(events[..|events| - 1]);
      if events[|events| - 1].TryFlush? {
        FlushAnswers(h, events[|events| - 1].script);
      }
    }
    QueueRunKeepsStream(events);
    DeliveredIsPrefix(QueueRun(events));
  }

  lemma DeliveredIsPrefix(h: History)
    requires SameStream(0, h.log, h.sends, h.lost, h.queue) && Answers(h)
    ensures Sum(h.taken) <= |Bytes(h.log)|
    ensures Bytes(h.sends) == Bytes(h.log)[..Sum(h.taken)]
    ensures Bytes(h.queue) == Bytes(h.log)[Sum(h.taken)..]
  {
    SumOfLengths(h.sends);
    SplitAt(Bytes(h.log), Bytes(h.sends), Bytes(h.queue));
  }

  // Over every run: what was delivered, then what a fatal error lost, then what is still queued
  // is exactly the stream of everything that was queued.
  lemma {:induction false} QueueRunKeepsStream(events: seq<QueueEvent>)
    ensures var h := QueueRun(events);
            SameStream(0, h.log, h.sends, h.lost, h.queue) && (h.live ==> h.lost == [])
    decreases |events|
  {
    if events == [] {
      SameStreamStill(0, []);
    } else {
      var h := QueueRun(events[..|events| - 1]);
      QueueRunKeepsStream(events[..|events| - 1]);
      if h.live {
        match events[|events| - 1]
        case Enqueue(p) => EnqueueKeepsStream(h.log, h.sends, h.queue, p);
        case TryFlush(script) =>
          var r := Flush(h.queue, script);
          FlushKeepsStream(|Bytes(h.sends)|, h.queue, script);
          StreamsCompose(h.log, h.sends, h.queue, r);
      }
    }
  }

  lemma EnqueueKeepsStream(log: seq<OutPacket>, sends: seq<OutPacket>, queue: seq<OutPacket>, p: OutPacket)
    requires SameStream(0, log, sends, [], queue)
    ensures SameStream(0, log + [p], sends, [], queue + [p])
  {
    BytesAppend(log, [p]);
    BytesAppend(queue, [p]);
    Assoc(Bytes(sends), Bytes(queue), Bytes([p]));
    var cut, end := |Bytes(sends)|, |Bytes(log)|;
    var x, y, z := Marks(sends, 0), Marks(queue, cut), Marks([p], end);
    NoMark(cut, y);
    NoMark(cut, y + z);
    calc {
      Marks(log + [p], 0);
      { MarksAppend(log, [p], 0); }
      (x + y) + z;
      { Assoc(x, y, z); }
      x + (y + z);
      { MarksAppend(queue, [p], cut); }
      x + Marks(queue + [p], cut);
    }
  }

  lemma StreamsCompose(log: seq<OutPacket>, sends: seq<OutPacket>, queue: seq<OutPacket>, r: FlushResult)
    requires SameStream(0, log, sends, [], queue)
    requires SameStream(|Bytes(sends)|, queue, r.sends, r.lost, r.queue)
    ensures SameStream(0, log, sends + r.sends, r.lost, r.queue)
  {
    var n := |Bytes(sends)|;
    var cut := n + |Bytes(r.sends)|;
    Unmarked(log, sends, queue);
    BytesCompose(log, sends, queue, r.sends, r.queue);
    MarksCompose(log, sends, queue, r.sends, MarkAt(cut, r.lost) + Marks(r.queue, cut));
    MakeSame(log, sends + r.sends, r.lost, r.queue, cut);
  }

  lemma Unmarked(log: seq<OutPacket>, sends: seq<OutPacket>, queue: seq<OutPacket>)
    requires SameStream(0, log, sends, [], queue)
    ensures Bytes(log) == Bytes(sends) + Bytes(queue)
    ensures Marks(log, 0) == Marks(sends, 0) + Marks(queue, |Bytes(sends)|)
  {
    NoMark(|Bytes(sends)|, Marks(queue, |Bytes(sends)|));
  }

  lemma MakeSame(all: seq<OutPacket>, sends: seq<OutPacket>, lost: seq<Fd>, queue: seq<OutPacket>, cut: nat)
    requires cut == |Bytes(sends)| && Bytes(all) == Bytes(sends) + Bytes(queue)
    requires Marks(all, 0) == Marks(sends, 0) + (MarkAt(cut, lost) + Marks(queue, cut))
    ensures SameStream(0, all, sends, lost, queue)
  {}

  lemma BytesCompose(log: seq<OutPacket>, a: seq<OutPacket>, queue: seq<OutPacket>, b: seq<OutPacket>,
          rest: seq<OutPacket>)
    requires Bytes(log) == Bytes(a) + Bytes(queue) && Bytes(queue) == Bytes(b) + Bytes(rest)
    ensures Bytes(log) == Bytes(a + b) + Bytes(rest) && |Bytes(a + b)| == |Bytes(a)| + |Bytes(b)|
  {
    BytesAppend(a, b);
    Chain3(Bytes(log), Bytes(a), Bytes(queue), Bytes(b), Bytes(rest));
  }

  lemma MarksCompose(log: seq<OutPacket>, a: seq<OutPacket>, queue: seq<OutPacket>, b: seq<OutPacket>, tail: seq<Mark>)
    requires Marks(log, 0) == Marks(a, 0) + Marks(queue, |Bytes(a)|)
    requires Marks(queue, |Bytes(a)|) == Marks(b, |Bytes(a)|) + tail
    ensures Marks(log, 0) == Marks(a + b, 0) + tail
  {
    MarksAppend(a, b, 0);
    Chain3(Marks(log, 0), Marks(a, 0), Marks(queue, |Bytes(a)|), Marks(b, |Bytes(a)|), tail);
  }

  lemma Chain3<T>(all: seq<T>, a: seq<T>, rest: seq<T>, b: seq<T>, c: seq<T>)
    requires all == a + rest && rest == b + c
    ensures all == (a + b) + c
  {}

  // ---------------------------------------------------------------------
  // Packets that can never be sent
  // ---------------------------------------------------------------------

  // sendmsg refuses descriptors without a byte to carry them.
  predicate Sendable(p: OutPacket) {
    p.data != [] || p.fds == []
  }

  ghost predicate CanDrain(queue: seq<OutPacket>) {
    exists script :: Flush(queue, script).queue == []
  }

  lemma {:induction false} SendableDrains(queue: seq<OutPacket>) returns (script: seq<KernelAnswer>)
    requires forall i :: 0 <= i < |queue| ==> Sendable(queue[i])
    ensures Flush(queue, script).queue == []
    decreases |queue|
  {
    if queue == [] {
      script := [];
    } else {
      var more := SendableDrains(queue[1..]);
      script := if queue[0].data == [] then more else [Wrote(|queue[0].data|)] + more;
      if queue[0].data != [] {
        assert script[1..] == more;
      }
    }
  }

  // The packet at `i` and everything behind it.
  ghost predicate EndsWith(q: seq<OutPacket>, tail: seq<OutPacket>) {
    |q| >= |tail| && q[|q| - |tail|..] == tail
  }

  lemma AdvanceEnds(queue: seq<OutPacket>, i: nat, n: nat)
    requires 0 < i < |queue| && 0 < n <= |queue[0].data|
    ensures var q := Advance(queue, n);
            var j := if n == |queue[0].data| then i - 1 else i;
            j < |q| && q[j..] == queue[i..] && q[j] == queue[i]
  {}

  lemma {:induction false} UnsendableStays(queue: seq<OutPacket>, i: nat, script: seq<KernelAnswer>)
    requires i < |queue| && !Sendable(queue[i])
    ensures EndsWith(Flush(queue, script).queue, queue[i..])
    decreases |script|, |queue|
  {
    var front := queue[0];
    if i > 0 {
      if front.data == [] && front.fds == [] {
        UnsendableStays(queue[1..], i - 1, script);
        assert queue[1..][i - 1..] == queue[i..];
      } else if front.data != [] && script != [] {
        match script[0]
        case Wrote(k) =>
          var n := Min(k, |front.data|);
          if n > 0 {
            AdvanceEnds(queue, i, n);
            UnsendableStays(Advance(queue, n), if n == |front.data| then i - 1 else i, script[1..]);
          }
        case WouldBlock =>
        case Interrupted => UnsendableStays(queue, i, script[1..]);
        case HardError => assert ([OutPacket(front.data, [])] + queue[1..])[i..] == queue[i..];
      }
    }
  }

  lemma {:induction false} UnsendableStops(queue: seq<OutPacket>, i: nat, script: seq<KernelAnswer>)
    requires i < |queue| && !Sendable(queue[i])
    ensures |Bytes(Flush(queue, script).sends)| <= |Bytes(queue[..i])|
    decreases |script|, |queue|
  {
    var front := queue[0];
    if i == 0 {
      assert queue[..0] == [];
    } else {
      var before := queue[..i];
      assert before[0] == front && before[1..] == queue[1..][..i - 1];
      if front.data == [] && front.fds == [] {
        UnsendableStops(queue[1..], i - 1, script);
      } else if front.data != [] && script != [] {
        match script[0]
        case Wrote(k) =>
          var n := Min(k, |front.data|);
          if n > 0 {
            var q := Advance(queue, n);
            var sent, r := OutPacket(front.data[..n], front.fds), Flush(q, script[1..]);
            BytesCons(sent, r.sends);
            if n == |front.data| {
              UnsendableStops(q, i - 1, script[1..]);
            } else {
              UnsendableStops(q, i, script[1..]);
              assert q[..i] == [q[0]] + queue[1..][..i - 1];
              BytesCons(q[0], queue[1..][..i - 1]);
            }
          }
        case WouldBlock =>
        case Interrupted => UnsendableStops(queue, i, script[1..]);
        case HardError =>
      }
    }
  }

  // A packet of descriptors without bytes stays queued for ever, with everything behind it, and
  // nothing behind it is sent.
  lemma UnsendableBlocks(queue: seq<OutPacket>, i: nat, script: seq<KernelAnswer>)
    requires i < |queue| && !Sendable(queue[i])
    ensures EndsWith(Flush(queue, script).queue, queue[i..])
    ensures |Bytes(Flush(queue, script).sends)| <= |Bytes(queue[..i])|
  {
    UnsendableStays(queue, i, script);
    UnsendableStops(queue, i, script);
  }

  // Some kernel behaviour empties the queue exactly when every packet can be sent.
  lemma CanDrainIff(queue: seq<OutPacket>)
    ensures CanDrain(queue) <==> forall i :: 0 <= i < |queue| ==> Sendable(queue[i])
  {
    if i :| 0 <= i < |queue| && !Sendable(queue[i]) {
      forall script ensures Flush(queue, script).queue != [] {
        UnsendableBlocks(queue, i, script);
      }
    } else {
      var script := SendableDrains(queue);
    }
  }

  // ---------------------------------------------------------------------
  // The loop of the code
  // ---------------------------------------------------------------------

  class PacketQueue {
    var packets: seq<OutPacket>

    constructor ()
      ensures packets == []
    {
      packets := [];
    }

    method Push(p: OutPacket)
      modifies this
      ensures packets == old(packets) + [p]
    {
      packets := packets + [p];
    }

    method TryFlush(script: seq<KernelAnswer>) returns (status: Status, ghost sends: seq<OutPacket>,
            ghost lost: seq<Fd>)
      modifies this
      ensures FlushResult(status, packets, sends, lost) == Flush(old(packets), script)
    {
      var answers := script;
      sends, lost := [], [];
      while packets != []
        invariant Flush(old(packets), script) ==
                  var r := Flush(packets, answers); r.(sends := sends + r.sends)
        invariant lost == []
        decreases |answers|, |packets|
      {
        var front := packets[0];
        if front.data == [] && front.fds == [] {
          packets := packets[1..];
          continue;
        }
        if front.data == [] || answers == [] {
          assert sends + [] == sends;
          return Stalled, sends, lost;
        }
        var answer := answers[0];
        answers := answers[1..];
        match answer {
          case Wrote(k) =>
            var n := Min(k, |front.data|);
            if n == 0 {
              assert sends + [] == sends;
              return Stalled, sends, lost;
            }
            ghost var sent := OutPacket(front.data[..n], front.fds);
            Assoc(sends, [sent], Flush(Advance(packets, n), answers).sends);
            sends := sends + [sent];
            packets := [OutPacket(front.data[n..], [])] + packets[1..];
            if packets[0].data == [] {
              packets := packets[1..];
            }
          case WouldBlock =>
            assert sends + [] == sends;
            return Stalled, sends, lost;
          case Interrupted =>
          case HardError =>
            assert sends + [] == sends;
            packets := [OutPacket(front.data, [])] + packets[1..];
            return Broken, sends, front.fds;
        }
      }
      assert sends + [] == sends;
      return Flushed, sends, lost;
    }
  }
}
